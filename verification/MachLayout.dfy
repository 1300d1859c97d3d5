/** Mach-O layout: atoms in sections, sections in segments, segments in memory and file. */
module MachLayout {
  import opened Wrappers
  import opened Arith

  const PAGE: nat := 0x4000
  const TEXT_BASE: nat := 0x1_0000_0000

  datatype Kind = Executable | Dylib

  datatype Placed = Placed(alignPow: nat, size: nat, offset: nat)

  /** `extra` is the size of the synthetic data kept after the atoms. */
  datatype Section = Section(segment: string, name: string, zerofill: bool, alignPow: nat, atoms: seq<Placed>,
                             extra: nat, extraOffset: nat, size: nat, addr: nat, fileOff: nat)

  datatype Segment = Segment(name: string, ids: seq<nat>, vmAddr: nat, vmSize: nat, fileOff: nat, fileSize: nat)

  /** `1 << align_pow2.min(63)`. */
  function Shift(alignPow: nat): nat { Pow2(Min(alignPow, 63)) }

  predicate Aligned(at: nat, alignPow: nat) { at % Shift(alignPow) == 0 }

  function RoundUp(at: nat, alignPow: nat): (r: nat)
    ensures at <= r && Aligned(r, alignPow)
  {
    AlignUp(at, Shift(alignPow))
  }

  // ---- atoms within a section ---------------------------------------------------------------------

  /** Each atom is aligned and starts no earlier than the one before ends. */
  ghost predicate Packed(atoms: seq<Placed>, size: nat) {
    && (forall i :: 0 <= i < |atoms| ==> Aligned(atoms[i].offset, atoms[i].alignPow))
    && (forall i, j :: 0 <= i < j < |atoms| ==> atoms[i].offset + atoms[i].size <= atoms[j].offset)
    && (forall i :: 0 <= i < |atoms| ==> atoms[i].offset + atoms[i].size <= size)
  }

  function EndOf(atoms: seq<Placed>, i: nat): nat
    requires i <= |atoms|
  {
    if i == 0 then 0 else atoms[i - 1].offset + atoms[i - 1].size
  }

  /** No atom leaves more room before it than its alignment asks for. */
  ghost predicate Tight(atoms: seq<Placed>) {
    forall i :: 0 <= i < |atoms| ==> atoms[i].offset == RoundUp(EndOf(atoms, i), atoms[i].alignPow)
  }

  lemma NoAtomsTight()
    ensures Tight([]) && Packed([], 0)
  {
  }

  lemma PackedPush(atoms: seq<Placed>, a: Placed)
    requires Packed(atoms, EndOf(atoms, |atoms|)) && EndOf(atoms, |atoms|) <= a.offset && Aligned(a.offset, a.alignPow)
    ensures Packed(atoms + [a], a.offset + a.size)
  {
    hide Aligned;
  }

  lemma PackedRoom(atoms: seq<Placed>, size: nat, room: nat)
    requires Packed(atoms, size) && size <= room
    ensures Packed(atoms, room)
  {
    hide Aligned;
  }

  lemma TightPush(atoms: seq<Placed>, a: Placed)
    requires Tight(atoms) && a.offset == RoundUp(EndOf(atoms, |atoms|), a.alignPow)
    ensures Tight(atoms + [a]) && EndOf(atoms + [a], |atoms| + 1) == a.offset + a.size
  {
    hide RoundUp;
    var more := atoms + [a];
    assert forall i :: 0 <= i <= |atoms| ==> EndOf(more, i) == EndOf(atoms, i);
  }

  ghost predicate SameAtoms(a: seq<Placed>, b: seq<Placed>) {
    |a| == |b| && forall i :: 0 <= i < |a| ==> a[i].alignPow == b[i].alignPow && a[i].size == b[i].size
  }

  function ExtraAlign(s: Section): nat {
    if s.segment == "__DATA" && s.name == "__data" then 3 else s.alignPow
  }

  /** The per-section loop of `Layout::build`. */
  method PlaceAtoms(s: Section) returns (r: Section)
    ensures SameAtoms(s.atoms, r.atoms)
    ensures r == s.(atoms := r.atoms, extraOffset := r.extraOffset, size := r.size)
    ensures Packed(r.atoms, if s.extra == 0 || s.atoms == [] then r.size else r.extraOffset)
    ensures Tight(r.atoms) && (s.extra == 0 ==> r.size == EndOf(r.atoms, |r.atoms|))
    ensures s.extra > 0 ==> r.extraOffset + s.extra == r.size
    ensures s.extra > 0 && s.atoms != [] ==> r.extraOffset == RoundUp(EndOf(r.atoms, |r.atoms|), ExtraAlign(s))
    ensures s.extra == 0 || s.atoms == [] ==> r.extraOffset == 0
  {
    hide Aligned, RoundUp, Tight, Packed;
    var size: nat := 0;
    NoAtomsTight();
    var atoms := s.atoms;
    for i := 0 to |atoms|
      invariant SameAtoms(s.atoms, atoms)
      invariant Packed(atoms[..i], size)
      invariant Tight(atoms[..i]) && size == EndOf(atoms[..i], i)
    {
      var offset := RoundUp(size, atoms[i].alignPow);
      ghost var before := atoms[..i];
      atoms := atoms[i := atoms[i].(offset := offset)];
      size := offset + atoms[i].size;
      assert atoms[..i + 1] == before + [atoms[i]];
      TightPush(before, atoms[i]);
      PackedPush(before, atoms[i]);
    }
    assert atoms[..|atoms|] == atoms;
    var extraOffset := if s.extra == 0 || s.atoms == [] then 0 else RoundUp(size, ExtraAlign(s));
    var total := if s.extra == 0 then size else extraOffset + s.extra;
    PackedRoom(atoms, size, if s.extra == 0 || s.atoms == [] then total else extraOffset);
    r := s.(atoms := atoms, extraOffset := extraOffset, size := total);
  }

  /** An atom no more aligned than its section lands on an aligned address. */
  lemma AtomAddressAligned(s: Section, i: nat)
    requires i < |s.atoms| && s.atoms[i].alignPow <= s.alignPow
    requires Aligned(s.atoms[i].offset, s.atoms[i].alignPow) && Aligned(s.addr, s.alignPow)
    ensures Aligned(s.addr + s.atoms[i].offset, s.atoms[i].alignPow)
  {
    Pow2Divides(Min(s.atoms[i].alignPow, 63), Min(s.alignPow, 63));
    DividesTransitive(Shift(s.atoms[i].alignPow), Shift(s.alignPow), s.addr);
    SumDivides(s.addr, s.atoms[i].offset, Shift(s.atoms[i].alignPow));
  }

  // ---- the order of sections ------------------------------------------------------------------------

  /** `str::cmp`: negative, zero or positive. */
  function CompareNames(a: string, b: string): int {
    if a == "" && b == "" then 0
    else if a == "" then -1
    else if b == "" then 1
    else if a[0] < b[0] then -1
    else if a[0] > b[0] then 1
    else CompareNames(a[1..], b[1..])
  }

  lemma {:induction false} CompareSelf(a: string)
    ensures CompareNames(a, a) == 0
  {
    if a != "" {
      CompareSelf(a[1..]);
    }
  }

  function Position(order: seq<string>, name: string): nat {
    if order == [] || order[0] == name then 0 else 1 + Position(order[1..], name)
  }

  function StandardNames(kind: Kind): seq<string> {
    if kind == Executable then ["__PAGEZERO", "__TEXT", "__DATA_CONST", "__DATA", "__LINKEDIT"]
    else ["__TEXT", "__DATA_CONST", "__DATA", "__LINKEDIT"]
  }

  function SectionOrder(segment: string): seq<string> {
    if segment == "__TEXT" then
      ["__text", "__thunks", "__stubs", "__stub_helper", "__cstring", "__const", "__literal16", "__unwind_info",
       "__eh_frame"]
    else if segment == "__DATA_CONST" then ["__got", "__const"]
    else if segment == "__DATA" then
      ["__la_symbol_ptr", "__data", "__thread_vars", "__thread_ptrs", "__thread_data", "__thread_bss", "__common",
       "__bss"]
    else []
  }

  function Bit(b: bool): nat { if b then 1 else 0 }

  /** `compare_output_sections`. */
  function Compare(kind: Kind, a: Section, b: Section): int {
    var rank := Position(StandardNames(kind), a.segment) - Position(StandardNames(kind), b.segment);
    var segment := CompareNames(a.segment, b.segment);
    var fill := Bit(a.zerofill) - Bit(b.zerofill);
    var place := Position(SectionOrder(a.segment), a.name) - Position(SectionOrder(b.segment), b.name);
    if rank != 0 then rank else if segment != 0 then segment else if fill != 0 then fill
    else if place != 0 then place else CompareNames(a.name, b.name)
  }

  ghost predicate SortedSections(kind: Kind, sections: seq<Section>) {
    forall i, j :: 0 <= i < j < |sections| ==> Compare(kind, sections[i], sections[j]) <= 0
  }

  /** After a zerofill section only zerofill sections follow in its segment. */
  ghost predicate ZerofillLast(sections: seq<Section>) {
    forall i, j :: 0 <= i < j < |sections| && sections[i].segment == sections[j].segment && sections[i].zerofill ==>
      sections[j].zerofill
  }

  /** The sort puts zerofill last in its segment. */
  lemma SortPutsZerofillLast(kind: Kind, sections: seq<Section>)
    requires SortedSections(kind, sections)
    ensures ZerofillLast(sections)
  {
    forall i, j | 0 <= i < j < |sections| && sections[i].segment == sections[j].segment && sections[i].zerofill
      ensures sections[j].zerofill
    {
      CompareSelf(sections[i].segment);
      assert Compare(kind, sections[i], sections[j]) <= 0;
    }
  }

  // ---- what `assign_addresses` computes --------------------------------------------------------------

  /** The sections of a segment, in section order. */
  function IdsOf(sections: seq<Section>, name: string, upTo: nat): (ids: seq<nat>)
    requires upTo <= |sections|
    ensures forall n :: 0 <= n < |ids| ==> ids[n] < upTo && sections[ids[n]].segment == name
    ensures forall n, m :: 0 <= n < m < |ids| ==> ids[n] < ids[m]
    ensures forall i :: 0 <= i < upTo && sections[i].segment == name ==> i in ids
  {
    if upTo == 0 then []
    else
      var ids := IdsOf(sections, name, upTo - 1);
      if sections[upTo - 1].segment == name then ids + [upTo - 1] else ids
  }

  function Ids(sections: seq<Section>, name: string): seq<nat> { IdsOf(sections, name, |sections|) }

  ghost predicate Indexes(sections: seq<Section>, ids: seq<nat>) {
    forall n :: 0 <= n < |ids| ==> ids[n] < |sections|
  }

  datatype Cursor = Cursor(vm: nat, file: nat, vmEnd: nat, fileEnd: nat)

  /** The cursors after one section. */
  function Move(c: Cursor, s: Section): Cursor {
    var end := RoundUp(c.vm, s.alignPow) + s.size;
    if s.zerofill then Cursor(end, c.file, Max(c.vmEnd, end), c.fileEnd)
    else
      var fileEnd := RoundUp(c.file, s.alignPow) + s.size;
      Cursor(end, fileEnd, Max(c.vmEnd, end), Max(c.fileEnd, fileEnd))
  }

  function CursorAt(sections: seq<Section>, ids: seq<nat>, c: Cursor, n: nat): Cursor
    requires Indexes(sections, ids) && n <= |ids|
  {
    if n == 0 then c else Move(CursorAt(sections, ids, c, n - 1), sections[ids[n - 1]])
  }

  predicate PutAt(c: Cursor, s: Section) {
    && s.addr == RoundUp(c.vm, s.alignPow)
    && s.fileOff == if s.zerofill then 0 else RoundUp(c.file, s.alignPow)
  }

  ghost predicate AllPut(sections: seq<Section>, ids: seq<nat>, c: Cursor, upTo: nat)
    requires Indexes(sections, ids) && upTo <= |ids|
  {
    forall n :: 0 <= n < upTo ==> PutAt(CursorAt(sections, ids, c, n), sections[ids[n]])
  }

  /** `next_vm` and `next_file`. */
  datatype Bases = Bases(vm: nat, file: nat)

  function TextBase(kind: Kind): nat { if kind == Executable then TEXT_BASE else 0 }

  function Start(kind: Kind, name: string, next: Bases): Bases {
    if name == "__TEXT" then Bases(TextBase(kind), 0) else Bases(AlignUp(next.vm, PAGE), AlignUp(next.file, PAGE))
  }

  function First(kind: Kind, header: nat, name: string, next: Bases): Cursor {
    var b := Start(kind, name, next);
    if name == "__TEXT" then Cursor(b.vm + header, header, b.vm + header, header)
    else Cursor(b.vm, b.file, b.vm, b.file)
  }

  function Last(kind: Kind, header: nat, sections: seq<Section>, name: string, next: Bases): Cursor {
    var ids := Ids(sections, name);
    CursorAt(sections, ids, First(kind, header, name, next), |ids|)
  }

  function NextBases(kind: Kind, header: nat, sections: seq<Section>, name: string, next: Bases): Bases {
    if name == "__PAGEZERO" then next
    else if name == "__LINKEDIT" then Start(kind, name, next)
    else
      var c := Last(kind, header, sections, name, next);
      Bases(c.vmEnd, c.fileEnd)
  }

  function BasesAt(kind: Kind, header: nat, sections: seq<Section>, names: seq<string>, k: nat): Bases
    requires k <= |names|
  {
    if k == 0 then Bases(TextBase(kind), 0)
    else NextBases(kind, header, sections, names[k - 1], BasesAt(kind, header, sections, names, k - 1))
  }

  function Minus(a: nat, b: nat): nat { if a >= b then a - b else 0 }

  /** A segment's own fields. */
  function Shaped(kind: Kind, header: nat, sections: seq<Section>, name: string, next: Bases): Segment {
    var ids := Ids(sections, name);
    if name == "__PAGEZERO" then Segment(name, ids, 0, if kind == Executable then TEXT_BASE else 0, 0, 0)
    else
      var b, c := Start(kind, name, next), Last(kind, header, sections, name, next);
      if name == "__LINKEDIT" then Segment(name, ids, b.vm, Minus(c.vmEnd, b.vm), b.file, 0)
      else
        Segment(name, ids, b.vm, AlignUp(Minus(c.vmEnd, b.vm), PAGE),
                b.file, AlignUp(Minus(c.fileEnd, b.file), PAGE))
  }

  /** Segment `k` and its sections are where `assign_addresses` puts them. */
  ghost predicate LaidSegment(kind: Kind, header: nat, sections: seq<Section>, names: seq<string>, k: nat,
                              segment: Segment)
    requires k < |names|
  {
    var next := BasesAt(kind, header, sections, names, k);
    var ids := Ids(sections, names[k]);
    && segment == Shaped(kind, header, sections, names[k], next)
    && (names[k] != "__PAGEZERO" ==> AllPut(sections, ids, First(kind, header, names[k], next), |ids|))
  }

  function Names(segments: seq<Segment>): (names: seq<string>)
    ensures |names| == |segments| && forall k :: 0 <= k < |names| ==> names[k] == segments[k].name
  {
    seq(|segments|, k requires 0 <= k < |segments| => segments[k].name)
  }

  ghost predicate LaidOut(kind: Kind, header: nat, sections: seq<Section>, segments: seq<Segment>) {
    forall k :: 0 <= k < |segments| ==> LaidSegment(kind, header, sections, Names(segments), k, segments[k])
  }

  // ---- it depends only on what layout does not write ----------------------------------------------------

  predicate SameShape(a: Section, b: Section) { a == b.(addr := a.addr, fileOff := a.fileOff) }

  ghost predicate SameSkeleton(a: seq<Section>, b: seq<Section>) {
    |a| == |b| && forall i :: 0 <= i < |a| ==> SameShape(a[i], b[i])
  }

  lemma {:induction false} SameIds(a: seq<Section>, b: seq<Section>, name: string, upTo: nat)
    requires SameSkeleton(a, b) && upTo <= |a|
    ensures IdsOf(a, name, upTo) == IdsOf(b, name, upTo)
  {
    if upTo > 0 {
      SameIds(a, b, name, upTo - 1);
      assert SameShape(a[upTo - 1], b[upTo - 1]);
    }
  }

  lemma {:induction false} SameCursor(a: seq<Section>, b: seq<Section>, ids: seq<nat>, c: Cursor, n: nat)
    requires SameSkeleton(a, b) && Indexes(a, ids) && n <= |ids|
    ensures CursorAt(a, ids, c, n) == CursorAt(b, ids, c, n)
  {
    hide RoundUp;
    if n > 0 {
      SameCursor(a, b, ids, c, n - 1);
      assert SameShape(a[ids[n - 1]], b[ids[n - 1]]);
    }
  }

  lemma SameLast(kind: Kind, header: nat, a: seq<Section>, b: seq<Section>, name: string, next: Bases)
    requires SameSkeleton(a, b)
    ensures Ids(a, name) == Ids(b, name)
    ensures Last(kind, header, a, name, next) == Last(kind, header, b, name, next)
  {
    SameIds(a, b, name, |a|);
    var ids := Ids(a, name);
    SameCursor(a, b, ids, First(kind, header, name, next), |ids|);
  }

  lemma {:induction false} SameBases(kind: Kind, header: nat, a: seq<Section>, b: seq<Section>, names: seq<string>,
                                     k: nat)
    requires SameSkeleton(a, b) && k <= |names|
    ensures BasesAt(kind, header, a, names, k) == BasesAt(kind, header, b, names, k)
  {
    hide Last, Start, SameSkeleton;
    if k > 0 {
      SameBases(kind, header, a, b, names, k - 1);
      SameLast(kind, header, a, b, names[k - 1], BasesAt(kind, header, a, names, k - 1));
    }
  }

  /** Moving other segments' sections leaves a laid segment laid. */
  lemma LaidStays(kind: Kind, header: nat, a: seq<Section>, b: seq<Section>, names: seq<string>, k: nat,
                  segment: Segment)
    requires k < |names| && LaidSegment(kind, header, a, names, k, segment) && SameSkeleton(a, b)
    requires forall i :: 0 <= i < |a| && a[i].segment == names[k] ==> a[i] == b[i]
    ensures LaidSegment(kind, header, b, names, k, segment)
  {
    hide Last, Start, First, RoundUp, Move;
    SameBases(kind, header, a, b, names, k);
    var next := BasesAt(kind, header, a, names, k);
    SameLast(kind, header, a, b, names[k], next);
    var ids := Ids(a, names[k]);
    var c := First(kind, header, names[k], next);
    assert Shaped(kind, header, a, names[k], next) == Shaped(kind, header, b, names[k], next);
    if names[k] != "__PAGEZERO" {
      forall n | 0 <= n < |ids| ensures PutAt(CursorAt(b, ids, c, n), b[ids[n]]) {
        SameCursor(a, b, ids, c, n);
        assert PutAt(CursorAt(a, ids, c, n), a[ids[n]]);
      }
    }
  }

  /** Layout is determined by the skeleton: laying out twice changes nothing. */
  lemma LaidOutUnique(kind: Kind, header: nat, a: seq<Section>, b: seq<Section>, s: seq<Segment>, t: seq<Segment>)
    requires LaidOut(kind, header, a, s) && LaidOut(kind, header, b, t)
    requires SameSkeleton(a, b) && Names(s) == Names(t)
    requires forall i :: 0 <= i < |a| && a[i].segment == "__PAGEZERO" ==> a[i] == b[i]
    requires forall i :: 0 <= i < |a| ==> a[i].segment in Names(s)
    ensures a == b && s == t
  {
    forall k | 0 <= k < |s| ensures s[k] == t[k] {
      assert LaidSegment(kind, header, a, Names(s), k, s[k]) && LaidSegment(kind, header, b, Names(t), k, t[k]);
      SameSegment(kind, header, a, b, Names(s), k, s[k], t[k]);
    }
    forall i | 0 <= i < |a| ensures a[i] == b[i] {
      if a[i].segment != "__PAGEZERO" {
        var k :| 0 <= k < |s| && Names(s)[k] == a[i].segment;
        assert LaidSegment(kind, header, a, Names(s), k, s[k]) && LaidSegment(kind, header, b, Names(t), k, t[k]);
        SameSegment(kind, header, a, b, Names(s), k, s[k], t[k]);
      }
    }
  }

  lemma SameSegment(kind: Kind, header: nat, a: seq<Section>, b: seq<Section>, names: seq<string>, k: nat, x: Segment,
                    y: Segment)
    requires k < |names| && SameSkeleton(a, b)
    requires LaidSegment(kind, header, a, names, k, x) && LaidSegment(kind, header, b, names, k, y)
    ensures x == y
    ensures names[k] != "__PAGEZERO" ==> forall i :: 0 <= i < |a| && a[i].segment == names[k] ==> a[i] == b[i]
  {
    hide Last, Start, First, RoundUp, Move;
    SameBases(kind, header, a, b, names, k);
    var next := BasesAt(kind, header, a, names, k);
    SameLast(kind, header, a, b, names[k], next);
    var ids := Ids(a, names[k]);
    var c := First(kind, header, names[k], next);
    if names[k] != "__PAGEZERO" {
      forall i | 0 <= i < |a| && a[i].segment == names[k] ensures a[i] == b[i] {
        var n :| 0 <= n < |ids| && ids[n] == i;
        SameCursor(a, b, ids, c, n);
        assert PutAt(CursorAt(a, ids, c, n), a[ids[n]]) && PutAt(CursorAt(b, ids, c, n), b[ids[n]]);
        assert SameShape(a[i], b[i]);
      }
    }
  }

  // ---- properties of a segment's sections --------------------------------------------------------------

  predicate Ahead(a: Cursor, b: Cursor) {
    a.vm <= b.vm <= b.vmEnd && a.file <= b.file <= b.fileEnd && a.vmEnd <= b.vmEnd && a.fileEnd <= b.fileEnd
  }

  lemma MoveAhead(c: Cursor, s: Section)
    requires Ahead(c, c)
    ensures Ahead(c, Move(c, s))
  {
    hide RoundUp;
  }

  /** A section put at a cursor lies between that cursor and the next. */
  predicate Between(c: Cursor, s: Section, e: Cursor) {
    && Aligned(s.addr, s.alignPow) && c.vm <= s.addr && s.addr + s.size <= e.vm
    && (!s.zerofill ==> Aligned(s.fileOff, s.alignPow) && c.file <= s.fileOff && s.fileOff + s.size <= e.file)
  }

  lemma PutBetween(c: Cursor, s: Section)
    requires PutAt(c, s)
    ensures Between(c, s, Move(c, s))
  {
    hide RoundUp, Aligned;
  }

  /** Along the sections the cursors never go back, and the ends keep up with them. */
  lemma {:induction false} CursorGrows(sections: seq<Section>, ids: seq<nat>, c: Cursor, n: nat, m: nat)
    requires Indexes(sections, ids) && n <= m <= |ids| && Ahead(c, c)
    ensures Ahead(CursorAt(sections, ids, c, n), CursorAt(sections, ids, c, m))
    decreases m
  {
    hide Move;
    if n < m {
      CursorGrows(sections, ids, c, n, m - 1);
      MoveAhead(CursorAt(sections, ids, c, m - 1), sections[ids[m - 1]]);
    } else if n > 0 {
      CursorGrows(sections, ids, c, n - 1, n - 1);
      MoveAhead(CursorAt(sections, ids, c, n - 1), sections[ids[n - 1]]);
    }
  }

  lemma PutWithin(c: Cursor, a: Cursor, s: Section, e: Cursor)
    requires Ahead(c, a) && PutAt(a, s) && Ahead(Move(a, s), e)
    ensures Between(c, s, e) && e.vm <= e.vmEnd && e.file <= e.fileEnd
  {
    PutBetween(a, s);
    hide Move, Aligned, PutAt;
  }

  lemma PutApart(s: Section, e: Cursor, t: Section)
    requires s.addr + s.size <= e.vm && (!s.zerofill ==> s.fileOff + s.size <= e.file) && PutAt(e, t)
    ensures s.addr + s.size <= t.addr
    ensures !s.zerofill && !t.zerofill ==> s.fileOff + s.size <= t.fileOff
  {
    hide Aligned;
  }

  lemma PastFirst(sections: seq<Section>, ids: seq<nat>, c: Cursor, n: nat)
    requires Indexes(sections, ids) && n <= |ids| && Ahead(c, c)
    ensures Ahead(c, CursorAt(sections, ids, c, n))
  {
    CursorGrows(sections, ids, c, 0, n);
  }

  lemma InIndex(sections: seq<Section>, ids: seq<nat>, n: nat)
    requires Indexes(sections, ids) && n < |ids|
    ensures ids[n] < |sections|
  {
  }

  lemma PutOne(sections: seq<Section>, ids: seq<nat>, c: Cursor, n: nat)
    requires Indexes(sections, ids) && n < |ids| && AllPut(sections, ids, c, |ids|)
    ensures PutAt(CursorAt(sections, ids, c, n), sections[ids[n]])
    ensures CursorAt(sections, ids, c, n + 1) == Move(CursorAt(sections, ids, c, n), sections[ids[n]])
  {
    hide Move, PutAt;
  }

  /** Section `n` of a segment lies between the first cursor and any later one. */
  lemma {:induction false} PutInside(sections: seq<Section>, ids: seq<nat>, c: Cursor, n: nat, m: nat)
    requires Indexes(sections, ids) && n < m <= |ids| && Ahead(c, c)
    requires AllPut(sections, ids, c, |ids|)
    ensures var e := CursorAt(sections, ids, c, m);
      Between(c, sections[ids[n]], e) && e.vm <= e.vmEnd && e.file <= e.fileEnd
  {
    hide *;
    InIndex(sections, ids, n);
    PastFirst(sections, ids, c, n);
    PutOne(sections, ids, c, n);
    var next := n + 1;
    CursorGrows(sections, ids, c, next, m);
    PutWithin(c, CursorAt(sections, ids, c, n), sections[ids[n]], CursorAt(sections, ids, c, m));
  }

  /** Two sections of a segment are apart, in list order. */
  lemma {:induction false} PutInOrder(sections: seq<Section>, ids: seq<nat>, c: Cursor, n: nat, m: nat)
    requires Indexes(sections, ids) && n < m < |ids| && Ahead(c, c)
    requires AllPut(sections, ids, c, |ids|)
    ensures var s, t := sections[ids[n]], sections[ids[m]];
      s.addr + s.size <= t.addr && (!s.zerofill && !t.zerofill ==> s.fileOff + s.size <= t.fileOff)
  {
    hide RoundUp, Aligned, Move, PutAt, AllPut, CursorAt, Ahead;
    PutInside(sections, ids, c, n, m);
    PutOne(sections, ids, c, m);
    PutApart(sections[ids[n]], CursorAt(sections, ids, c, m), sections[ids[m]]);
  }

  /** No section before the end of the list is zerofill. */
  ghost predicate FileBackedUpTo(sections: seq<Section>, ids: seq<nat>, n: nat)
    requires Indexes(sections, ids) && n <= |ids|
  {
    forall m :: 0 <= m < n ==> !sections[ids[m]].zerofill
  }

  lemma ShiftDividesPage(alignPow: nat, base: nat)
    requires alignPow <= 14 && base % PAGE == 0
    ensures base % Shift(alignPow) == 0
  {
    Pow2Divides(alignPow, 14);
    assert Pow2(14) == PAGE by {
      assert Pow2(4) == 16;
      assert Pow2(8) == 256;
      assert Pow2(12) == 4096;
    }
    DividesTransitive(Shift(alignPow), PAGE, base);
  }

  /** Memory and file advance in step as long as sections are file backed. */
  lemma {:induction false} InStep(sections: seq<Section>, ids: seq<nat>, c: Cursor, vm: nat, file: nat, n: nat)
    requires Indexes(sections, ids) && n <= |ids| && FileBackedUpTo(sections, ids, n)
    requires forall m :: 0 <= m < n ==> sections[ids[m]].alignPow <= 14
    requires vm % PAGE == 0 && file % PAGE == 0 && vm <= c.vm && file <= c.file && c.vm - vm == c.file - file
    ensures var e := CursorAt(sections, ids, c, n);
      vm <= e.vm && file <= e.file && e.vm - vm == e.file - file
  {
    if n > 0 {
      InStep(sections, ids, c, vm, file, n - 1);
      var e, s := CursorAt(sections, ids, c, n - 1), sections[ids[n - 1]];
      SameRound(e, vm, file, s.alignPow);
    }
  }

  lemma SameRound(c: Cursor, vm: nat, file: nat, alignPow: nat)
    requires alignPow <= 14 && vm % PAGE == 0 && file % PAGE == 0
    requires vm <= c.vm && file <= c.file && c.vm - vm == c.file - file
    ensures RoundUp(c.vm, alignPow) - vm == RoundUp(c.file, alignPow) - file
  {
    ShiftDividesPage(alignPow, vm);
    ShiftDividesPage(alignPow, file);
    AlignUpShift(vm, c.vm - vm, Shift(alignPow));
    AlignUpShift(file, c.file - file, Shift(alignPow));
  }

  /** A file-backed section is as far into its segment in memory as in the file. */
  lemma PutInStep(sections: seq<Section>, ids: seq<nat>, c: Cursor, vm: nat, file: nat, n: nat)
    requires Indexes(sections, ids) && n < |ids| && FileBackedUpTo(sections, ids, n + 1)
    requires AllPut(sections, ids, c, |ids|)
    requires forall m :: 0 <= m <= n ==> sections[ids[m]].alignPow <= 14
    requires vm % PAGE == 0 && file % PAGE == 0 && vm <= c.vm && file <= c.file && c.vm - vm == c.file - file
    ensures sections[ids[n]].addr - vm == sections[ids[n]].fileOff - file
  {
    InStep(sections, ids, c, vm, file, n);
    assert PutAt(CursorAt(sections, ids, c, n), sections[ids[n]]);
    SameRound(CursorAt(sections, ids, c, n), vm, file, sections[ids[n]].alignPow);
  }

  // ---- the main results -------------------------------------------------------------------------------

  ghost predicate DistinctNames(names: seq<string>) {
    forall i, j :: 0 <= i < j < |names| ==> names[i] != names[j]
  }

  /** No name twice, `__TEXT` first, or second after a page zero, and `__LINKEDIT` last. */
  ghost predicate TextFirst(names: seq<string>) {
    && DistinctNames(names)
    && (forall k :: 0 <= k < |names| && names[k] == "__TEXT" ==> k == 0 || (k == 1 && names[0] == "__PAGEZERO"))
    && (forall k :: 0 <= k < |names| && names[k] == "__LINKEDIT" ==> k == |names| - 1)
  }

  /** The order the segments of an image should have: a page zero, if there is one, comes first. */
  ghost predicate SegmentOrder(names: seq<string>) {
    TextFirst(names) && forall k :: 0 <= k < |names| && names[k] == "__PAGEZERO" ==> k == 0
  }

  lemma StartAligned(kind: Kind, name: string, next: Bases)
    ensures Start(kind, name, next).vm % PAGE == 0 && Start(kind, name, next).file % PAGE == 0
  {
  }

  lemma FirstInStep(kind: Kind, header: nat, name: string, next: Bases)
    ensures var b, c := Start(kind, name, next), First(kind, header, name, next);
      b.vm <= c.vm == c.vmEnd && b.file <= c.file == c.fileEnd && c.vm - b.vm == c.file - b.file
  {
  }

  /** A section of a laid segment, by its place in the segment's list. */
  lemma PlaceInSegment(kind: Kind, header: nat, sections: seq<Section>, segments: seq<Segment>, k: nat, i: nat)
    returns (n: nat)
    requires LaidOut(kind, header, sections, segments)
    requires k < |segments| && i < |sections| && sections[i].segment == segments[k].name != "__PAGEZERO"
    ensures var names := Names(segments);
      var ids := Ids(sections, segments[k].name);
      var next := BasesAt(kind, header, sections, names, k);
      && n < |ids| && ids[n] == i && AllPut(sections, ids, First(kind, header, segments[k].name, next), |ids|)
      && segments[k] == Shaped(kind, header, sections, segments[k].name, next)
  {
    var names := Names(segments);
    hide BasesAt, Shaped, First, AllPut;
    assert LaidSegment(kind, header, sections, names, k, segments[k]);
    var ids := Ids(sections, names[k]);
    n :| 0 <= n < |ids| && ids[n] == i;
  }

  lemma ShapedStart(kind: Kind, header: nat, sections: seq<Section>, name: string, next: Bases)
    requires name != "__PAGEZERO"
    ensures var s, b := Shaped(kind, header, sections, name, next), Start(kind, name, next);
      s.vmAddr == b.vm && s.fileOff == b.file
  {
    hide Start, Last;
  }

  /** Sections before a file-backed one of the same segment are file backed. */
  lemma BackedBefore(sections: seq<Section>, name: string, n: nat)
    requires ZerofillLast(sections) && n < |Ids(sections, name)| && !sections[Ids(sections, name)[n]].zerofill
    ensures FileBackedUpTo(sections, Ids(sections, name), n + 1)
  {
    var ids := Ids(sections, name);
    forall m | 0 <= m < n ensures !sections[ids[m]].zerofill {
      assert ids[m] < ids[n];
    }
  }

  lemma PlacedInStep(kind: Kind, header: nat, sections: seq<Section>, segments: seq<Segment>, k: nat, i: nat)
    requires LaidOut(kind, header, sections, segments) && ZerofillLast(sections)
    requires k < |segments| && i < |sections| && sections[i].segment == segments[k].name != "__PAGEZERO"
    requires forall j :: 0 <= j < |sections| ==> sections[j].alignPow <= 14
    requires !sections[i].zerofill
    ensures sections[i].addr - segments[k].vmAddr == sections[i].fileOff - segments[k].fileOff
  {
    hide LaidOut, ZerofillLast, BasesAt, Shaped, First, Start, AllPut, FileBackedUpTo;
    var n := PlaceInSegment(kind, header, sections, segments, k, i);
    var name := segments[k].name;
    var next := BasesAt(kind, header, sections, Names(segments), k);
    var ids := Ids(sections, name);
    var b, c := Start(kind, name, next), First(kind, header, name, next);
    StartAligned(kind, name, next);
    FirstInStep(kind, header, name, next);
    ShapedStart(kind, header, sections, name, next);
    BackedBefore(sections, name, n);
    PutInStep(sections, ids, c, b.vm, b.file, n);
  }

  lemma PlacedApart(kind: Kind, header: nat, sections: seq<Section>, segments: seq<Segment>, k: nat, i: nat, j: nat)
    requires LaidOut(kind, header, sections, segments)
    requires k < |segments| && i < j < |sections| && segments[k].name != "__PAGEZERO"
    requires sections[i].segment == sections[j].segment == segments[k].name
    ensures sections[i].addr + sections[i].size <= sections[j].addr
    ensures !sections[i].zerofill && !sections[j].zerofill ==>
      sections[i].fileOff + sections[i].size <= sections[j].fileOff
  {
    var name := segments[k].name;
    var next := BasesAt(kind, header, sections, Names(segments), k);
    FirstInStep(kind, header, name, next);
    assert Ahead(First(kind, header, name, next), First(kind, header, name, next));
    hide LaidOut, BasesAt, Shaped, First, AllPut, Ahead;
    var n := PlaceInSegment(kind, header, sections, segments, k, i);
    var m := PlaceInSegment(kind, header, sections, segments, k, j);
    var ids := Ids(sections, name);
    assert n < m;
    PutInOrder(sections, ids, First(kind, header, name, next), n, m);
  }

  lemma ShapedHolds(kind: Kind, header: nat, sections: seq<Section>, name: string, next: Bases)
    requires name != "__PAGEZERO"
    ensures var s, c := Shaped(kind, header, sections, name, next), Last(kind, header, sections, name, next);
      && c.vmEnd <= s.vmAddr + s.vmSize
      && (name != "__LINKEDIT" ==> c.fileEnd <= s.fileOff + s.fileSize)
  {
    hide Last, Start;
  }

  lemma PlacedInside(kind: Kind, header: nat, sections: seq<Section>, segments: seq<Segment>, k: nat, i: nat)
    requires LaidOut(kind, header, sections, segments)
    requires k < |segments| && i < |sections| && sections[i].segment == segments[k].name != "__PAGEZERO"
    ensures Aligned(sections[i].addr, sections[i].alignPow)
    ensures segments[k].vmAddr <= sections[i].addr
    ensures sections[i].addr + sections[i].size <= segments[k].vmAddr + segments[k].vmSize
    ensures !sections[i].zerofill ==>
      Aligned(sections[i].fileOff, sections[i].alignPow) && segments[k].fileOff <= sections[i].fileOff
    ensures !sections[i].zerofill && segments[k].name != "__LINKEDIT" ==>
      sections[i].fileOff + sections[i].size <= segments[k].fileOff + segments[k].fileSize
    ensures segments[k].name == "__TEXT" ==>
      && segments[k].vmAddr + header <= sections[i].addr
      && (!sections[i].zerofill ==> segments[k].fileOff + header <= sections[i].fileOff)
  {
    var name := segments[k].name;
    var next := BasesAt(kind, header, sections, Names(segments), k);
    FirstInStep(kind, header, name, next);
    assert Ahead(First(kind, header, name, next), First(kind, header, name, next));
    var ids := Ids(sections, name);
    var c := First(kind, header, name, next);
    assert Last(kind, header, sections, name, next) == CursorAt(sections, ids, c, |ids|);
    var b := Start(kind, name, next);
    assert name == "__TEXT" ==> c.vm == b.vm + header && c.file == b.file + header;
    hide LaidOut, BasesAt, Shaped, First, AllPut, Ahead, Aligned, CursorAt, Last;
    var n := PlaceInSegment(kind, header, sections, segments, k, i);
    ShapedStart(kind, header, sections, name, next);
    ShapedHolds(kind, header, sections, name, next);
    PutInside(sections, ids, c, n, |ids|);
  }

  // ---- segments ---------------------------------------------------------------------------------------

  function PageUp(b: Bases): Bases { Bases(AlignUp(b.vm, PAGE), AlignUp(b.file, PAGE)) }

  predicate NotBefore(a: Bases, b: Bases) { a.vm <= b.vm && a.file <= b.file }

  /** With `__TEXT` first, every segment starts at the next page. */
  lemma StartIsNextPage(kind: Kind, header: nat, sections: seq<Section>, names: seq<string>, k: nat)
    requires TextFirst(names) && k < |names| && names[k] != "__PAGEZERO"
    ensures Start(kind, names[k], BasesAt(kind, header, sections, names, k)) ==
      PageUp(BasesAt(kind, header, sections, names, k))
  {
    if names[k] == "__TEXT" {
      if k == 1 {
        assert BasesAt(kind, header, sections, names, 1) == BasesAt(kind, header, sections, names, 0);
      }
      AlignUpLeast(TextBase(kind), PAGE, TextBase(kind));
      AlignUpLeast(0, PAGE, 0);
    }
  }

  /** The end of a segment is not before its start. */
  lemma LastPastStart(kind: Kind, header: nat, sections: seq<Section>, name: string, next: Bases)
    ensures var b, c := Start(kind, name, next), Last(kind, header, sections, name, next);
      b.vm <= c.vmEnd && b.file <= c.fileEnd
  {
    var ids := Ids(sections, name);
    FirstInStep(kind, header, name, next);
    PastFirst(sections, ids, First(kind, header, name, next), |ids|);
  }

  lemma {:induction false} BasesStep(kind: Kind, header: nat, sections: seq<Section>, names: seq<string>, k: nat)
    requires TextFirst(names) && k < |names|
    ensures var a, b := BasesAt(kind, header, sections, names, k), BasesAt(kind, header, sections, names, k + 1);
      && NotBefore(a, b)
      && (names[k] !in {"__PAGEZERO", "__LINKEDIT"} ==>
            var c := Last(kind, header, sections, names[k], a);
            b == Bases(c.vmEnd, c.fileEnd) && NotBefore(PageUp(a), b))
  {
    var a := BasesAt(kind, header, sections, names, k);
    if names[k] != "__PAGEZERO" {
      StartIsNextPage(kind, header, sections, names, k);
      LastPastStart(kind, header, sections, names[k], a);
    }
    hide Last, Start, TextFirst;
    var next := k + 1;
    assert BasesAt(kind, header, sections, names, next) == NextBases(kind, header, sections, names[k], a);
  }

  lemma {:induction false} BasesGrow(kind: Kind, header: nat, sections: seq<Section>, names: seq<string>, k: nat,
                                     m: nat)
    requires TextFirst(names) && k <= m <= |names|
    ensures NotBefore(BasesAt(kind, header, sections, names, k), BasesAt(kind, header, sections, names, m))
    decreases m
  {
    hide TextFirst, BasesAt;
    if k < m {
      BasesGrow(kind, header, sections, names, k, m - 1);
      BasesStep(kind, header, sections, names, m - 1);
    }
  }

  lemma PageUpKeepsOrder(a: Bases, b: Bases)
    requires NotBefore(a, b)
    ensures NotBefore(PageUp(a), PageUp(b))
  {
    AlignUpMonotone(a.vm, b.vm, PAGE);
    AlignUpMonotone(a.file, b.file, PAGE);
  }

  /** A segment that is neither page zero nor `__LINKEDIT` ends exactly at the page after its content. */
  lemma ShapedEnd(kind: Kind, header: nat, sections: seq<Section>, name: string, next: Bases)
    requires name !in {"__PAGEZERO", "__LINKEDIT"}
    ensures var s, c := Shaped(kind, header, sections, name, next), Last(kind, header, sections, name, next);
      PageUp(Bases(c.vmEnd, c.fileEnd)) == Bases(s.vmAddr + s.vmSize, s.fileOff + s.fileSize)
  {
    LastPastStart(kind, header, sections, name, next);
    StartAligned(kind, name, next);
    var b, c := Start(kind, name, next), Last(kind, header, sections, name, next);
    hide Last, Start;
    AlignUpShift(b.vm, c.vmEnd - b.vm, PAGE);
    AlignUpShift(b.file, c.fileEnd - b.file, PAGE);
  }

  lemma LaidAt(kind: Kind, header: nat, sections: seq<Section>, segments: seq<Segment>, k: nat)
    requires LaidOut(kind, header, sections, segments) && k < |segments|
    ensures segments[k] ==
      Shaped(kind, header, sections, segments[k].name, BasesAt(kind, header, sections, Names(segments), k))
  {
    hide Shaped, BasesAt, AllPut;
    assert LaidSegment(kind, header, sections, Names(segments), k, segments[k]);
  }

  ghost function ShapedAt(kind: Kind, header: nat, sections: seq<Section>, names: seq<string>, k: nat): Segment
    requires k < |names|
  {
    Shaped(kind, header, sections, names[k], BasesAt(kind, header, sections, names, k))
  }

  predicate OnPage(s: Segment) { s.vmAddr % PAGE == 0 && s.fileOff % PAGE == 0 }

  predicate Apart(s: Segment, t: Segment) {
    s.vmAddr + s.vmSize <= t.vmAddr && s.fileOff + s.fileSize <= t.fileOff
  }

  lemma ShapedOnPage(kind: Kind, header: nat, sections: seq<Section>, name: string, next: Bases)
    ensures OnPage(Shaped(kind, header, sections, name, next))
  {
    StartAligned(kind, name, next);
    hide Start, Last;
  }

  /** Where a later segment starts. */
  lemma StartsAt(kind: Kind, header: nat, sections: seq<Section>, names: seq<string>, m: nat)
    requires TextFirst(names) && m < |names| && names[m] != "__PAGEZERO"
    ensures var s, b := ShapedAt(kind, header, sections, names, m), PageUp(BasesAt(kind, header, sections, names, m));
      s.vmAddr == b.vm && s.fileOff == b.file
  {
    StartIsNextPage(kind, header, sections, names, m);
    ShapedStart(kind, header, sections, names[m], BasesAt(kind, header, sections, names, m));
    hide Shaped, Start, BasesAt, TextFirst;
  }

  /** Page zero, wherever it is listed, ends before every other segment starts. */
  lemma {:induction false} PageZeroApart(kind: Kind, header: nat, sections: seq<Section>, names: seq<string>, z: nat,
                                         m: nat)
    requires TextFirst(names) && z < |names| && m < |names| && names[z] == "__PAGEZERO" && names[m] != "__PAGEZERO"
    ensures Apart(ShapedAt(kind, header, sections, names, z), ShapedAt(kind, header, sections, names, m))
  {
    StartsAt(kind, header, sections, names, m);
    BasesGrow(kind, header, sections, names, 0, m);
    assert BasesAt(kind, header, sections, names, 0) == Bases(TextBase(kind), 0);
    hide TextFirst, Last, Start, BasesAt;
  }

  /** Where a segment ends: at the page after the bases it leaves behind. */
  lemma {:induction false} EndsAt(kind: Kind, header: nat, sections: seq<Section>, names: seq<string>, k: nat)
    requires TextFirst(names) && k < |names| && names[k] !in {"__PAGEZERO", "__LINKEDIT"}
    ensures var s := ShapedAt(kind, header, sections, names, k);
      PageUp(BasesAt(kind, header, sections, names, k + 1)) == Bases(s.vmAddr + s.vmSize, s.fileOff + s.fileSize)
  {
    ShapedEnd(kind, header, sections, names[k], BasesAt(kind, header, sections, names, k));
    hide TextFirst, BasesAt, Shaped, Last, PageUp, NextBases;
    BasesStep(kind, header, sections, names, k);
  }

  lemma ApartFrom(s: Segment, t: Segment, a: Bases, b: Bases)
    requires PageUp(a) == Bases(s.vmAddr + s.vmSize, s.fileOff + s.fileSize)
    requires t.vmAddr == PageUp(b).vm && t.fileOff == PageUp(b).file && NotBefore(PageUp(a), PageUp(b))
    ensures Apart(s, t)
  {
    hide PageUp;
  }

  lemma {:induction false} ContentApart(kind: Kind, header: nat, sections: seq<Section>, names: seq<string>, k: nat,
                                        m: nat)
    requires TextFirst(names) && k < m < |names| && names[k] != "__PAGEZERO" && names[m] != "__PAGEZERO"
    ensures Apart(ShapedAt(kind, header, sections, names, k), ShapedAt(kind, header, sections, names, m))
  {
    hide *;
    NotLast(names, k, m);
    EndsAt(kind, header, sections, names, k);
    StartsAt(kind, header, sections, names, m);
    var next := k + 1;
    var a, b := BasesAt(kind, header, sections, names, next), BasesAt(kind, header, sections, names, m);
    BasesGrow(kind, header, sections, names, next, m);
    PageUpKeepsOrder(a, b);
    ApartFrom(ShapedAt(kind, header, sections, names, k), ShapedAt(kind, header, sections, names, m), a, b);
  }

  lemma NotLast(names: seq<string>, k: nat, m: nat)
    requires TextFirst(names) && k < m < |names|
    ensures names[k] != "__LINKEDIT"
  {
  }

  /** Segments start on pages and do not overlap, in memory or in the file: page zero first, then as listed. */
  lemma SegmentsDisjoint(kind: Kind, header: nat, sections: seq<Section>, segments: seq<Segment>, k: nat, m: nat)
    requires LaidOut(kind, header, sections, segments) && TextFirst(Names(segments)) && k < m < |segments|
    ensures OnPage(segments[k]) && OnPage(segments[m])
    ensures if segments[m].name ==
      "__PAGEZERO" then Apart(segments[m], segments[k]) else Apart(segments[k], segments[m])
  {
    var names := Names(segments);
    assert names[k] != names[m];
    hide TextFirst, BasesAt, Shaped, LaidOut, Apart, OnPage;
    LaidAt(kind, header, sections, segments, k);
    LaidAt(kind, header, sections, segments, m);
    ShapedOnPage(kind, header, sections, names[k], BasesAt(kind, header, sections, names, k));
    ShapedOnPage(kind, header, sections, names[m], BasesAt(kind, header, sections, names, m));
    if names[k] == "__PAGEZERO" {
      PageZeroApart(kind, header, sections, names, k, m);
    } else if names[m] == "__PAGEZERO" {
      PageZeroApart(kind, header, sections, names, m, k);
    } else {
      ContentApart(kind, header, sections, names, k, m);
    }
  }

  // ---- sections, page zero included ---------------------------------------------------------------------

  /** `assign_addresses` skips a segment called `__PAGEZERO`: its sections keep the zeros they were made with. */
  ghost predicate PageZeroUntouched(sections: seq<Section>) {
    forall i :: 0 <= i < |sections| && sections[i].segment == "__PAGEZERO" ==>
      sections[i].addr == 0 && sections[i].fileOff == 0
  }

  predicate ApartInMemory(s: Section, t: Section) {
    s.addr + s.size <= t.addr || t.addr + t.size <= s.addr
  }

  predicate ApartInFile(s: Section, t: Section) {
    s.fileOff + s.size <= t.fileOff || t.fileOff + t.size <= s.fileOff
  }

  predicate InsideMemory(s: Section, g: Segment) {
    g.vmAddr <= s.addr && s.addr + s.size <= g.vmAddr + g.vmSize
  }

  predicate InsideFile(s: Section, g: Segment) {
    g.fileOff <= s.fileOff && s.fileOff + s.size <= g.fileOff + g.fileSize
  }

  function PageZeroSize(kind: Kind): nat { if kind == Executable then TEXT_BASE else 0 }

  lemma PageZeroShape(kind: Kind, header: nat, sections: seq<Section>, segments: seq<Segment>, k: nat)
    requires LaidOut(kind, header, sections, segments) && k < |segments| && segments[k].name == "__PAGEZERO"
    ensures segments[k].vmAddr == segments[k].fileOff == segments[k].fileSize == 0
    ensures segments[k].vmSize == PageZeroSize(kind)
  {
    LaidAt(kind, header, sections, segments, k);
    hide BasesAt, LaidOut;
  }

  /** Every file-backed section satisfies address minus segment address = file offset minus segment file offset. */
  lemma AddressFileCongruence(kind: Kind, header: nat, sections: seq<Section>, segments: seq<Segment>, k: nat, i: nat)
    requires LaidOut(kind, header, sections, segments) && ZerofillLast(sections) && PageZeroUntouched(sections)
    requires k < |segments| && i < |sections| && sections[i].segment == segments[k].name
    requires forall j :: 0 <= j < |sections| ==> sections[j].alignPow <= 14
    requires !sections[i].zerofill
    ensures sections[i].addr - segments[k].vmAddr == sections[i].fileOff - segments[k].fileOff
  {
    if segments[k].name == "__PAGEZERO" {
      PageZeroShape(kind, header, sections, segments, k);
    } else {
      PlacedInStep(kind, header, sections, segments, k, i);
    }
  }

  /** Two non-empty sections of one segment are disjoint exactly when the segment is not called `__PAGEZERO`. */
  lemma SectionsDisjoint(kind: Kind, header: nat, sections: seq<Section>, segments: seq<Segment>, k: nat, i: nat,
                         j: nat)
    requires LaidOut(kind, header, sections, segments) && PageZeroUntouched(sections)
    requires k < |segments| && i < j < |sections| && sections[i].segment == sections[j].segment == segments[k].name
    requires sections[i].size > 0 && sections[j].size > 0
    ensures ApartInMemory(sections[i], sections[j]) <==> segments[k].name != "__PAGEZERO"
    ensures !sections[i].zerofill && !sections[j].zerofill ==>
      (ApartInFile(sections[i], sections[j]) <==> segments[k].name != "__PAGEZERO")
  {
    if segments[k].name != "__PAGEZERO" {
      PlacedApart(kind, header, sections, segments, k, i, j);
    }
  }

  /**
   * A section is aligned.  It lies in its segment's memory, except for one in `__PAGEZERO` larger than page
   * zero; a non-empty file-backed one lies in its segment's file range exactly when the segment is neither
   * `__PAGEZERO` nor `__LINKEDIT`, whose file sizes are set to zero.
   */
  lemma SectionInside(kind: Kind, header: nat, sections: seq<Section>, segments: seq<Segment>, k: nat, i: nat)
    requires LaidOut(kind, header, sections, segments) && PageZeroUntouched(sections)
    requires k < |segments| && i < |sections| && sections[i].segment == segments[k].name
    ensures Aligned(sections[i].addr, sections[i].alignPow)
    ensures InsideMemory(sections[i], segments[k]) <==>
      (segments[k].name == "__PAGEZERO" ==> sections[i].size <= PageZeroSize(kind))
    ensures !sections[i].zerofill ==> Aligned(sections[i].fileOff, sections[i].alignPow)
    ensures !sections[i].zerofill && sections[i].size > 0 ==>
      (InsideFile(sections[i], segments[k]) <==> segments[k].name !in {"__PAGEZERO", "__LINKEDIT"})
    ensures segments[k].name == "__TEXT" ==> segments[k].vmAddr + header <= sections[i].addr
    ensures segments[k].name == "__TEXT" && !sections[i].zerofill ==>
      segments[k].fileOff + header <= sections[i].fileOff
  {
    hide LaidOut;
    if segments[k].name == "__PAGEZERO" {
      PageZeroShape(kind, header, sections, segments, k);
      ZeroAligned(sections[i].alignPow);
    } else {
      PlacedInside(kind, header, sections, segments, k, i);
      if segments[k].name == "__LINKEDIT" {
        LinkeditShape(kind, header, sections, segments, k);
      }
    }
  }

  lemma ZeroAligned(alignPow: nat)
    ensures Aligned(0, alignPow)
  {
  }

  lemma LinkeditShape(kind: Kind, header: nat, sections: seq<Section>, segments: seq<Segment>, k: nat)
    requires LaidOut(kind, header, sections, segments) && k < |segments| && segments[k].name == "__LINKEDIT"
    ensures segments[k].fileSize == 0
  {
    LaidAt(kind, header, sections, segments, k);
    hide BasesAt, LaidOut, Last, Start;
  }

  /** Sections outside `__PAGEZERO` are disjoint, in memory and in the file, in whatever segments they are. */
  lemma AllSectionsDisjoint(kind: Kind, header: nat, sections: seq<Section>, segments: seq<Segment>, i: nat, j: nat)
    requires LaidOut(kind, header, sections, segments) && TextFirst(Names(segments))
    requires i < |sections| && j < |sections| && i != j
    requires sections[i].segment in Names(segments) && sections[j].segment in Names(segments)
    requires sections[i].segment != "__PAGEZERO" && sections[j].segment != "__PAGEZERO"
    ensures ApartInMemory(sections[i], sections[j])
    ensures !sections[i].zerofill && !sections[j].zerofill ==> ApartInFile(sections[i], sections[j])
  {
    var k :| 0 <= k < |segments| && Names(segments)[k] == sections[i].segment;
    var m :| 0 <= m < |segments| && Names(segments)[m] == sections[j].segment;
    hide LaidOut, TextFirst;
    if k == m {
      PlacedApart(kind, header, sections, segments, k, if i < j then i else j, if i < j then j else i);
    } else if k < m {
      SegmentsApart(kind, header, sections, segments, k, m, i, j);
    } else {
      SegmentsApart(kind, header, sections, segments, m, k, j, i);
    }
  }

  lemma SegmentsApart(kind: Kind, header: nat, sections: seq<Section>, segments: seq<Segment>, k: nat, m: nat, i: nat,
                      j: nat)
    requires LaidOut(kind, header, sections, segments) && TextFirst(Names(segments)) && k < m < |segments|
    requires i < |sections| && j < |sections|
    requires sections[i].segment == segments[k].name != "__PAGEZERO"
    requires sections[j].segment == segments[m].name != "__PAGEZERO"
    ensures sections[i].addr + sections[i].size <= sections[j].addr
    ensures !sections[i].zerofill && !sections[j].zerofill ==>
      sections[i].fileOff + sections[i].size <= sections[j].fileOff
  {
    var names := Names(segments);
    assert names[k] != "__LINKEDIT";
    hide LaidOut, TextFirst, BasesAt, Shaped, Aligned;
    PlacedInside(kind, header, sections, segments, k, i);
    PlacedInside(kind, header, sections, segments, m, j);
    LaidAt(kind, header, sections, segments, k);
    LaidAt(kind, header, sections, segments, m);
    ContentApart(kind, header, sections, names, k, m);
  }

  /** Two sections of four bytes in `__PAGEZERO` of an executable both stay at address 0. */
  lemma PageZeroOverlaps(header: nat) returns (segments: seq<Segment>)
    ensures var s := Section("__PAGEZERO", "__a", false, 0, [], 4, 0, 4, 0, 0);
      var sections := [s, s.(name := "__b")];
      && LaidOut(Executable, header, sections, segments) && PageZeroUntouched(sections)
      && Names(segments) == ["__PAGEZERO", "__TEXT", "__LINKEDIT"]
      && !ApartInMemory(sections[0], sections[1]) && !ApartInFile(sections[0], sections[1])
  {
    var s := Section("__PAGEZERO", "__a", false, 0, [], 4, 0, 4, 0, 0);
    var sections := [s, s.(name := "__b")];
    var names := ["__PAGEZERO", "__TEXT", "__LINKEDIT"];
    segments := seq(3, k requires 0 <= k < 3 => ShapedAt(Executable, header, sections, names, k));
    hide BasesAt, Last, First, Start, RoundUp, AllPut;
    assert Names(segments) == names;
    forall k | 0 <= k < 3 ensures LaidSegment(Executable, header, sections, names, k, segments[k]) {
      if k > 0 {
        NothingToPut(Executable, header, sections, names, k);
      }
    }
  }

  lemma NothingToPut(kind: Kind, header: nat, sections: seq<Section>, names: seq<string>, k: nat)
    requires k < |names| && forall i :: 0 <= i < |sections| ==> sections[i].segment != names[k]
    ensures LaidSegment(kind, header, sections, names, k, ShapedAt(kind, header, sections, names, k))
  {
    hide BasesAt, Shaped, First, CursorAt;
    NoIds(sections, names[k], |sections|);
  }

  lemma {:induction false} NoIds(sections: seq<Section>, name: string, upTo: nat)
    requires upTo <= |sections| && forall i :: 0 <= i < |sections| ==> sections[i].segment != name
    ensures IdsOf(sections, name, upTo) == []
  {
    if upTo > 0 {
      NoIds(sections, name, upTo - 1);
    }
  }
}
