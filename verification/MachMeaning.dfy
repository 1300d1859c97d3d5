/** The Mach-O layout told by names, sizes and addresses. */
module MachMeaning {
  import opened Arith
  import opened MachLayout
  import opened MachBuild

  // ---- the order of sections ---------------------------------------------------------------------------

  lemma {:induction false} PositionAt(order: seq<string>, name: string, k: nat)
    requires k < |order| && order[k] == name && forall j :: 0 <= j < k ==> order[j] != name
    ensures Position(order, name) == k
  {
    if k > 0 {
      assert order[0] != name && order[1..][k - 1] == name;
      PositionAt(order[1..], name, k - 1);
    }
  }

  lemma {:induction false} PositionNone(order: seq<string>, name: string)
    requires name !in order
    ensures Position(order, name) == |order|
  {
    if order != [] {
      PositionNone(order[1..], name);
    }
  }

  /** Executables begin with page zero; then code, constant data, data, and the linker's own tables. */
  function SegmentPlace(kind: Kind, segment: string): nat {
    if kind == Executable && segment == "__PAGEZERO" then 0
    else if segment == "__TEXT" then 1
    else if segment == "__DATA_CONST" then 2
    else if segment == "__DATA" then 3
    else if segment == "__LINKEDIT" then 4
    else 5
  }

  /** Known sections of the standard segments come in this order, and before all others. */
  function SectionPlace(segment: string, name: string): nat {
    if segment == "__TEXT" then
      if name == "__text" then 0
      else if name == "__thunks" then 1
      else if name == "__stubs" then 2
      else if name == "__stub_helper" then 3
      else if name == "__cstring" then 4
      else if name == "__const" then 5
      else if name == "__literal16" then 6
      else if name == "__unwind_info" then 7
      else if name == "__eh_frame" then 8
      else 9
    else if segment == "__DATA_CONST" then
      if name == "__got" then 0 else if name == "__const" then 1 else 2
    else if segment == "__DATA" then
      if name == "__la_symbol_ptr" then 0
      else if name == "__data" then 1
      else if name == "__thread_vars" then 2
      else if name == "__thread_ptrs" then 3
      else if name == "__thread_data" then 4
      else if name == "__thread_bss" then 5
      else if name == "__common" then 6
      else if name == "__bss" then 7
      else 8
    else 0
  }

  ghost predicate AllDistinct(order: seq<string>) {
    forall i, j :: 0 <= i < j < |order| ==> order[i] != order[j]
  }

  /** A place function that numbers a list of distinct names, and gives all others its length. */
  lemma PlaceIs(order: seq<string>, name: string, place: nat)
    requires AllDistinct(order)
    requires forall k :: 0 <= k < |order| && order[k] == name ==> place == k
    requires name !in order ==> place == |order|
    ensures Position(order, name) == place
  {
    if name in order {
      var k :| 0 <= k < |order| && order[k] == name;
      PositionAt(order, name, k);
    } else {
      PositionNone(order, name);
    }
  }

  lemma TextPlace(name: string)
    ensures Position(SectionOrder("__TEXT"), name) == SectionPlace("__TEXT", name)
  {
    var o := SectionOrder("__TEXT");
    assert |o| == 9;
    assert AllDistinct(o);
    PlaceIs(o, name, SectionPlace("__TEXT", name));
  }

  lemma DataPlace(name: string)
    ensures Position(SectionOrder("__DATA"), name) == SectionPlace("__DATA", name)
  {
    var o := SectionOrder("__DATA");
    assert |o| == 8;
    assert AllDistinct(o);
    PlaceIs(o, name, SectionPlace("__DATA", name));
  }

  lemma SectionPlaceExactly(segment: string, name: string)
    ensures Position(SectionOrder(segment), name) == SectionPlace(segment, name)
  {
    if segment == "__TEXT" {
      TextPlace(name);
    } else if segment == "__DATA" {
      DataPlace(name);
    } else if segment == "__DATA_CONST" {
      var o := SectionOrder(segment);
      assert |o| == 2 && AllDistinct(o);
      PlaceIs(o, name, SectionPlace(segment, name));
    }
  }

  lemma SegmentPlaceExactly(kind: Kind, segment: string)
    ensures Position(StandardNames(kind), segment) == SegmentPlace(kind, segment) - if kind == Executable then 0 else 1
  {
    var o := StandardNames(kind);
    assert |o| == if kind == Executable then 5 else 4;
    assert AllDistinct(o);
    PlaceIs(o, segment, SegmentPlace(kind, segment) - if kind == Executable then 0 else 1);
  }

  /** Segments by place and name, then contents before zerofill, then sections by place and name. */
  predicate ComesBefore(kind: Kind, a: Section, b: Section) {
    var p, q := SegmentPlace(kind, a.segment), SegmentPlace(kind, b.segment);
    var m, n := SectionPlace(a.segment, a.name), SectionPlace(b.segment, b.name);
    || p < q
    || (p == q && CompareNames(a.segment, b.segment) < 0)
    || (&& a.segment == b.segment
        && (|| (!a.zerofill && b.zerofill)
            || (a.zerofill == b.zerofill && m < n)
            || (a.zerofill == b.zerofill && m == n && CompareNames(a.name, b.name) < 0)))
  }

  lemma ComparesSo(kind: Kind, a: Section, b: Section)
    ensures Compare(kind, a, b) < 0 <==> ComesBefore(kind, a, b)
  {
    SegmentPlaceExactly(kind, a.segment);
    SegmentPlaceExactly(kind, b.segment);
    SectionPlaceExactly(a.segment, a.name);
    SectionPlaceExactly(b.segment, b.name);
    NamesTotal(a.segment, b.segment);
    hide Position, SegmentPlace, SectionPlace, SectionOrder, StandardNames, CompareNames;
  }

  /** The first difference, at `k`, is a smaller character. */
  ghost predicate SmallerAt(a: string, b: string, k: nat) {
    k < |a| && k < |b| && a[k] < b[k] && forall j :: 0 <= j < k ==> a[j] == b[j]
  }

  ghost predicate ProperPrefix(a: string, b: string) {
    |a| < |b| && forall j :: 0 <= j < |a| ==> a[j] == b[j]
  }

  /** Names compare as `str::cmp` does: the first different character decides, and a prefix comes first. */
  lemma {:induction false} NamesCompareSo(a: string, b: string)
    ensures CompareNames(a, b) < 0 <==> ProperPrefix(a, b) || exists k: nat :: SmallerAt(a, b, k)
    decreases |a|
  {
    if a != "" && b != "" && a[0] == b[0] {
      NamesCompareSo(a[1..], b[1..]);
      PrefixExtends(a, b);
      forall k: nat ensures SmallerAt(a, b, k + 1) <==> SmallerAt(a[1..], b[1..], k) {
        SmallerExtends(a, b, k);
      }
      hide ProperPrefix;
      if k: nat :| SmallerAt(a, b, k) {
        var m := k - 1;
        SmallerExtends(a, b, m);
      }
      if k: nat :| SmallerAt(a[1..], b[1..], k) {
        SmallerExtends(a, b, k);
        var m := k + 1;
        assert SmallerAt(a, b, m);
      }
    } else if a != "" && b != "" && a[0] < b[0] {
      assert SmallerAt(a, b, 0);
    }
  }

  lemma PrefixExtends(a: string, b: string)
    requires a != "" && b != "" && a[0] == b[0]
    ensures ProperPrefix(a, b) <==> ProperPrefix(a[1..], b[1..])
  {
    var x, y := a[1..], b[1..];
    if ProperPrefix(x, y) {
      forall j | 0 <= j < |a| ensures a[j] == b[j] {
        if j > 0 {
          var m := j - 1;
          assert x[m] == a[j] && y[m] == b[j];
        }
      }
    }
  }

  lemma SmallerExtends(a: string, b: string, k: nat)
    requires a != "" && b != "" && a[0] == b[0]
    ensures SmallerAt(a, b, k + 1) <==> SmallerAt(a[1..], b[1..], k)
  {
    var x, y := a[1..], b[1..];
    if SmallerAt(x, y, k) {
      forall j | 0 <= j < k + 1 ensures a[j] == b[j] {
        if j > 0 {
          var m := j - 1;
          assert x[m] == a[j] && y[m] == b[j];
        }
      }
    }
  }

  /** In a sorted list no section comes before an earlier one. */
  lemma SortedMeans(kind: Kind, sections: seq<Section>, i: nat, j: nat)
    requires SortedSections(kind, sections) && i < j < |sections|
    ensures !ComesBefore(kind, sections[j], sections[i])
  {
    ComparesSo(kind, sections[j], sections[i]);
    CompareTotal(kind, sections[j], sections[i]);
    hide Compare, ComesBefore;
  }

  // ---- the list of segments ---------------------------------------------------------------------------------

  /** `__LINKEDIT` is last; the standard segments are there as needed, and every other one a section names. */
  lemma SegmentListMeans(kind: Kind, sections: seq<Section>, names: seq<string>, x: string)
    requires SegmentList(kind, sections, names)
    ensures names != [] && names[|names| - 1] == "__LINKEDIT"
    ensures x in names <==>
      || x == "__TEXT" || x == "__LINKEDIT" || (x == "__PAGEZERO" && kind == Executable) || Used(sections, x)
  {
    var custom: seq<string> :| IsCustom(kind, sections, custom)
      && names == StandardPart(kind, Used(sections, "__DATA_CONST"), Used(sections, "__DATA")) + custom
                  + ["__LINKEDIT"];
    StandardPartShape(kind, Used(sections, "__DATA_CONST"), Used(sections, "__DATA"));
    StandardIs(kind, x);
    hide StandardPart, StrictNames, Used, StandardNames;
  }

  lemma StandardIs(kind: Kind, x: string)
    ensures x in StandardNames(kind) <==>
      || x == "__TEXT" || x == "__DATA_CONST" || x == "__DATA" || x == "__LINKEDIT"
      || (x == "__PAGEZERO" && kind == Executable)
  {
  }

  // ---- addresses ------------------------------------------------------------------------------------------------

  /** The first address from `from` on with this alignment, a power of two of at most 63. */
  predicate FirstAligned(x: nat, from: nat, alignPow: nat) {
    var a := Pow2(if alignPow <= 63 then alignPow else 63);
    x % a == 0 && from <= x < from + a
  }

  /** The first page of 16 KiB from `from` on. */
  predicate FirstPage(x: nat, from: nat) { x % 0x4000 == 0 && from <= x < from + 0x4000 }

  lemma RoundUpIs(from: nat, alignPow: nat)
    ensures FirstAligned(RoundUp(from, alignPow), from, alignPow)
  {
  }

  /** Where the first `n` sections of the list end in memory. */
  ghost function MemoryEnd(sections: seq<Section>, ids: seq<nat>, n: nat, start: nat): nat
    requires Indexes(sections, ids) && n <= |ids|
  {
    if n == 0 then start else sections[ids[n - 1]].addr + sections[ids[n - 1]].size
  }

  /** Where the last of them with contents ends in the file. */
  ghost function FileEnd(sections: seq<Section>, ids: seq<nat>, n: nat, start: nat): nat
    requires Indexes(sections, ids) && n <= |ids|
  {
    if n == 0 then start
    else if sections[ids[n - 1]].zerofill then FileEnd(sections, ids, n - 1, start)
    else sections[ids[n - 1]].fileOff + sections[ids[n - 1]].size
  }

  lemma {:induction false} CursorIs(sections: seq<Section>, ids: seq<nat>, c: Cursor, n: nat)
    requires Indexes(sections, ids) && n <= |ids| && AllPut(sections, ids, c, |ids|)
    requires c.vm == c.vmEnd && c.file == c.fileEnd
    ensures var m, f := MemoryEnd(sections, ids, n, c.vm), FileEnd(sections, ids, n, c.file);
      CursorAt(sections, ids, c, n) == Cursor(m, f, m, f)
  {
    hide *;
    if n == 0 {
      EndsNone(sections, ids, c);
    } else {
      CursorIs(sections, ids, c, n - 1);
      PutIs(sections, ids, c, n - 1);
      MoveIs(CursorAt(sections, ids, c, n - 1), sections[ids[n - 1]]);
      EndsNext(sections, ids, c, n - 1);
    }
  }

  lemma EndsNone(sections: seq<Section>, ids: seq<nat>, c: Cursor)
    requires Indexes(sections, ids)
    ensures MemoryEnd(sections, ids, 0, c.vm) == c.vm && FileEnd(sections, ids, 0, c.file) == c.file
    ensures CursorAt(sections, ids, c, 0) == c
  {
  }

  lemma PutIs(sections: seq<Section>, ids: seq<nat>, c: Cursor, n: nat)
    requires Indexes(sections, ids) && n < |ids| && AllPut(sections, ids, c, |ids|)
    ensures ids[n] < |sections| && PutAt(CursorAt(sections, ids, c, n), sections[ids[n]])
  {
    hide PutAt, CursorAt;
  }

  lemma MoveIs(at: Cursor, s: Section)
    requires PutAt(at, s) && at.vm == at.vmEnd && at.file == at.fileEnd
    ensures var m, f := s.addr + s.size, if s.zerofill then at.file else s.fileOff + s.size;
      Move(at, s) == Cursor(m, f, m, f)
  {
    hide RoundUp;
    Rounds(at.vm, s.alignPow);
    Rounds(at.file, s.alignPow);
  }

  lemma Rounds(from: nat, alignPow: nat)
    ensures from <= RoundUp(from, alignPow)
  {
  }

  lemma EndsNext(sections: seq<Section>, ids: seq<nat>, c: Cursor, n: nat)
    requires Indexes(sections, ids) && n < |ids|
    ensures ids[n] < |sections|
    ensures CursorAt(sections, ids, c, n + 1) == Move(CursorAt(sections, ids, c, n), sections[ids[n]])
    ensures var s := sections[ids[n]];
      && MemoryEnd(sections, ids, n + 1, c.vm) == s.addr + s.size
      && FileEnd(sections, ids, n + 1, c.file) ==
           if s.zerofill then FileEnd(sections, ids, n, c.file) else s.fileOff + s.size
  {
    hide Move;
  }

  /** What comes before a segment's sections: the header in `__TEXT`. */
  function Front(header: nat, name: string): nat { if name == "__TEXT" then header else 0 }

  /** A section stands at the first aligned address after the one before it, and so in the file if it has contents. */
  ghost predicate StandsNext(header: nat, sections: seq<Section>, segment: Segment, n: nat)
    requires n < |segment.ids| && Indexes(sections, segment.ids)
  {
    var s, front := sections[segment.ids[n]], Front(header, segment.name);
    && FirstAligned(s.addr, MemoryEnd(sections, segment.ids, n, segment.vmAddr + front), s.alignPow)
    && if s.zerofill then s.fileOff == 0
       else FirstAligned(s.fileOff, FileEnd(sections, segment.ids, n, segment.fileOff + front), s.alignPow)
  }

  lemma FirstIs(kind: Kind, header: nat, name: string, next: Bases)
    ensures var b, c := Start(kind, name, next), First(kind, header, name, next);
      c.vm == c.vmEnd == b.vm + Front(header, name) && c.file == c.fileEnd == b.file + Front(header, name)
  {
  }

  /** The sections of a laid out segment. */
  lemma SectionMeans(kind: Kind, header: nat, sections: seq<Section>, segments: seq<Segment>, k: nat, n: nat)
    requires LaidOut(kind, header, sections, segments) && k < |segments| && segments[k].name != "__PAGEZERO"
    ensures segments[k].ids == Ids(sections, segments[k].name) && Indexes(sections, segments[k].ids)
    ensures n < |segments[k].ids| ==> StandsNext(header, sections, segments[k], n)
  {
    hide *;
    LaidIs(kind, header, sections, segments, k);
    var name, ids := segments[k].name, segments[k].ids;
    var next := BasesAt(kind, header, sections, Names(segments), k);
    var c := First(kind, header, name, next);
    FirstIs(kind, header, name, next);
    if n < |ids| {
      CursorIs(sections, ids, c, n);
      PutIs(sections, ids, c, n);
      PutStands(header, sections, segments[k], n, CursorAt(sections, ids, c, n));
    }
  }

  /** What the layout says about a segment other than page zero. */
  lemma LaidIs(kind: Kind, header: nat, sections: seq<Section>, segments: seq<Segment>, k: nat)
    requires LaidOut(kind, header, sections, segments) && k < |segments| && segments[k].name != "__PAGEZERO"
    ensures |Names(segments)| == |segments|
    ensures var s, next := segments[k], BasesAt(kind, header, sections, Names(segments), k);
      && s == Shaped(kind, header, sections, s.name, next) && s.ids == Ids(sections, s.name)
      && Indexes(sections, s.ids) && Start(kind, s.name, next) == Bases(s.vmAddr, s.fileOff)
      && AllPut(sections, s.ids, First(kind, header, s.name, next), |s.ids|)
  {
    assert LaidSegment(kind, header, sections, Names(segments), k, segments[k]);
    hide LaidOut, BasesAt, First, Start, Last, AllPut;
  }

  lemma PutStands(header: nat, sections: seq<Section>, segment: Segment, n: nat, at: Cursor)
    requires n < |segment.ids| && Indexes(sections, segment.ids) && PutAt(at, sections[segment.ids[n]])
    requires at.vm == MemoryEnd(sections, segment.ids, n, segment.vmAddr + Front(header, segment.name))
    requires at.file == FileEnd(sections, segment.ids, n, segment.fileOff + Front(header, segment.name))
    ensures StandsNext(header, sections, segment, n)
  {
    hide RoundUp, FirstAligned, MemoryEnd, FileEnd;
    RoundUpIs(at.vm, sections[segment.ids[n]].alignPow);
    RoundUpIs(at.file, sections[segment.ids[n]].alignPow);
  }

  /** Where the segments before place `k` end, page zero apart; `__LINKEDIT` leaves everything where it starts. */
  ghost function EndsBefore(kind: Kind, header: nat, sections: seq<Section>, segments: seq<Segment>, k: nat): (nat, nat)
    requires k <= |segments| && forall m :: 0 <= m < |segments| ==> Indexes(sections, segments[m].ids)
  {
    if k == 0 then (if kind == Executable then 0x1_0000_0000 else 0, 0)
    else
      var s := segments[k - 1];
      if s.name == "__PAGEZERO" then EndsBefore(kind, header, sections, segments, k - 1)
      else if s.name == "__LINKEDIT" then (s.vmAddr, s.fileOff)
      else
        (MemoryEnd(sections, s.ids, |s.ids|, s.vmAddr + Front(header, s.name)),
         FileEnd(sections, s.ids, |s.ids|, s.fileOff + Front(header, s.name)))
  }

  /**
   * Page zero covers the first four gigabytes of an executable and nothing of the file; `__TEXT` starts behind
   * it, with the file; every other segment starts on the first page after the one before it.
   */
  ghost predicate SegmentStands(kind: Kind, header: nat, sections: seq<Section>, segments: seq<Segment>, k: nat)
    requires k < |segments| && forall m :: 0 <= m < |segments| ==> Indexes(sections, segments[m].ids)
  {
    var s, end := segments[k], EndsBefore(kind, header, sections, segments, k);
    if s.name == "__PAGEZERO" then
      s.vmAddr == 0 && s.vmSize == (if kind == Executable then 0x1_0000_0000 else 0) && s.fileOff == s.fileSize == 0
    else
      var m := MemoryEnd(sections, s.ids, |s.ids|, s.vmAddr + Front(header, s.name));
      var f := FileEnd(sections, s.ids, |s.ids|, s.fileOff + Front(header, s.name));
      && (if s.name == "__TEXT" then s.vmAddr == (if kind == Executable then 0x1_0000_0000 else 0) && s.fileOff == 0
          else FirstPage(s.vmAddr, end.0) && FirstPage(s.fileOff, end.1))
      && s.vmAddr <= m && s.fileOff <= f
      && (if s.name == "__LINKEDIT" then s.vmSize == m - s.vmAddr && s.fileSize == 0
          else FirstPage(s.vmSize, m - s.vmAddr) && FirstPage(s.fileSize, f - s.fileOff))
  }

  lemma PageIs(from: nat)
    ensures FirstPage(AlignUp(from, PAGE), from)
  {
  }

  lemma LaidIds(kind: Kind, header: nat, sections: seq<Section>, segments: seq<Segment>)
    requires LaidOut(kind, header, sections, segments)
    ensures forall m :: 0 <= m < |segments| ==> Indexes(sections, segments[m].ids)
  {
    forall m | 0 <= m < |segments| ensures Indexes(sections, segments[m].ids) {
      assert LaidSegment(kind, header, sections, Names(segments), m, segments[m]);
    }
  }

  lemma LastIs(kind: Kind, header: nat, sections: seq<Section>, segments: seq<Segment>, k: nat)
    requires LaidOut(kind, header, sections, segments) && k < |segments| && segments[k].name != "__PAGEZERO"
    requires forall m :: 0 <= m < |segments| ==> Indexes(sections, segments[m].ids)
    ensures var s, next := segments[k], BasesAt(kind, header, sections, Names(segments), k);
      var m := MemoryEnd(sections, s.ids, |s.ids|, s.vmAddr + Front(header, s.name));
      var f := FileEnd(sections, s.ids, |s.ids|, s.fileOff + Front(header, s.name));
      && Last(kind, header, sections, s.name, next) == Cursor(m, f, m, f)
      && Start(kind, s.name, next) == Bases(s.vmAddr, s.fileOff)
      && s == Shaped(kind, header, sections, s.name, next)
  {
    hide *;
    LaidIs(kind, header, sections, segments, k);
    var name, ids := segments[k].name, segments[k].ids;
    var next := BasesAt(kind, header, sections, Names(segments), k);
    FirstIs(kind, header, name, next);
    CursorIs(sections, ids, First(kind, header, name, next), |ids|);
    LastCursor(kind, header, sections, name, next);
  }

  lemma LastCursor(kind: Kind, header: nat, sections: seq<Section>, name: string, next: Bases)
    ensures var ids := Ids(sections, name);
      Indexes(sections, ids) &&
      Last(kind, header, sections, name, next) == CursorAt(sections, ids, First(kind, header, name, next), |ids|)
  {
    hide First, CursorAt;
  }

  lemma {:induction false} EndsAre(kind: Kind, header: nat, sections: seq<Section>, segments: seq<Segment>, k: nat)
    requires LaidOut(kind, header, sections, segments) && k <= |segments|
    requires forall m :: 0 <= m < |segments| ==> Indexes(sections, segments[m].ids)
    ensures var e := EndsBefore(kind, header, sections, segments, k);
      BasesAt(kind, header, sections, Names(segments), k) == Bases(e.0, e.1)
  {
    hide *;
    if k == 0 {
      BasesNone(kind, header, sections, segments);
    } else {
      EndsAre(kind, header, sections, segments, k - 1);
      if segments[k - 1].name != "__PAGEZERO" {
        LastIs(kind, header, sections, segments, k - 1);
      }
      BasesNext(kind, header, sections, segments, k - 1);
    }
  }

  lemma BasesNone(kind: Kind, header: nat, sections: seq<Section>, segments: seq<Segment>)
    requires forall m :: 0 <= m < |segments| ==> Indexes(sections, segments[m].ids)
    ensures var e := EndsBefore(kind, header, sections, segments, 0);
      BasesAt(kind, header, sections, Names(segments), 0) == Bases(e.0, e.1)
  {
  }

  lemma BasesNext(kind: Kind, header: nat, sections: seq<Section>, segments: seq<Segment>, k: nat)
    requires k < |segments| == |Names(segments)|
    requires forall m :: 0 <= m < |segments| ==> Indexes(sections, segments[m].ids)
    requires var e := EndsBefore(kind, header, sections, segments, k);
      BasesAt(kind, header, sections, Names(segments), k) == Bases(e.0, e.1)
    requires segments[k].name != "__PAGEZERO" ==>
      var s, next := segments[k], BasesAt(kind, header, sections, Names(segments), k);
      var m := MemoryEnd(sections, s.ids, |s.ids|, s.vmAddr + Front(header, s.name));
      var f := FileEnd(sections, s.ids, |s.ids|, s.fileOff + Front(header, s.name));
      && Last(kind, header, sections, s.name, next) == Cursor(m, f, m, f)
      && Start(kind, s.name, next) == Bases(s.vmAddr, s.fileOff)
    ensures var e := EndsBefore(kind, header, sections, segments, k + 1);
      BasesAt(kind, header, sections, Names(segments), k + 1) == Bases(e.0, e.1)
  {
    hide Last, Start, MemoryEnd, FileEnd, Front;
  }

  /** Every laid out segment stands so. */
  lemma SegmentMeans(kind: Kind, header: nat, sections: seq<Section>, segments: seq<Segment>, k: nat)
    requires LaidOut(kind, header, sections, segments) && k < |segments|
    ensures forall m :: 0 <= m < |segments| ==> Indexes(sections, segments[m].ids)
    ensures SegmentStands(kind, header, sections, segments, k)
  {
    hide *;
    LaidIds(kind, header, sections, segments);
    EndsAre(kind, header, sections, segments, k);
    if segments[k].name == "__PAGEZERO" {
      PageZeroStands(kind, header, sections, segments, k);
    } else {
      LastIs(kind, header, sections, segments, k);
      GrowsTo(kind, header, sections, segments, k, |segments[k].ids|);
      ShapedStands(kind, header, sections, segments, k, BasesAt(kind, header, sections, Names(segments), k));
    }
  }

  lemma PageZeroStands(kind: Kind, header: nat, sections: seq<Section>, segments: seq<Segment>, k: nat)
    requires LaidOut(kind, header, sections, segments) && k < |segments| && segments[k].name == "__PAGEZERO"
    requires forall m :: 0 <= m < |segments| ==> Indexes(sections, segments[m].ids)
    ensures SegmentStands(kind, header, sections, segments, k)
  {
    assert LaidSegment(kind, header, sections, Names(segments), k, segments[k]);
    hide LaidOut, BasesAt, EndsBefore, MemoryEnd, FileEnd, Last, Start;
  }

  lemma ShapedStands(kind: Kind, header: nat, sections: seq<Section>, segments: seq<Segment>, k: nat, next: Bases)
    requires k < |segments| && segments[k].name != "__PAGEZERO"
    requires forall m :: 0 <= m < |segments| ==> Indexes(sections, segments[m].ids)
    requires var e := EndsBefore(kind, header, sections, segments, k); next == Bases(e.0, e.1)
    requires var s := segments[k];
      var m := MemoryEnd(sections, s.ids, |s.ids|, s.vmAddr + Front(header, s.name));
      var f := FileEnd(sections, s.ids, |s.ids|, s.fileOff + Front(header, s.name));
      && Last(kind, header, sections, s.name, next) == Cursor(m, f, m, f)
      && Start(kind, s.name, next) == Bases(s.vmAddr, s.fileOff)
      && s == Shaped(kind, header, sections, s.name, next) && s.vmAddr <= m && s.fileOff <= f
    ensures SegmentStands(kind, header, sections, segments, k)
  {
    hide EndsBefore, Last, FirstPage, MemoryEnd, FileEnd, Front, AlignUp, Ids;
    var s := segments[k];
    PageIs(next.vm);
    PageIs(next.file);
    PageIs(MemoryEnd(sections, s.ids, |s.ids|, s.vmAddr + Front(header, s.name)) - s.vmAddr);
    PageIs(FileEnd(sections, s.ids, |s.ids|, s.fileOff + Front(header, s.name)) - s.fileOff);
  }

  /** A segment's contents end no earlier than it starts. */
  lemma {:induction false} GrowsTo(kind: Kind, header: nat, sections: seq<Section>, segments: seq<Segment>, k: nat,
                                   n: nat)
    requires LaidOut(kind, header, sections, segments) && k < |segments| && segments[k].name != "__PAGEZERO"
    requires Indexes(sections, segments[k].ids) && n <= |segments[k].ids|
    ensures var s := segments[k];
      && s.vmAddr <= MemoryEnd(sections, s.ids, n, s.vmAddr + Front(header, s.name))
      && s.fileOff <= FileEnd(sections, s.ids, n, s.fileOff + Front(header, s.name))
  {
    hide *;
    var s := segments[k];
    if n == 0 {
      GrowsNone(sections, s.ids, s.vmAddr, s.fileOff, Front(header, s.name));
    } else {
      GrowsTo(kind, header, sections, segments, k, n - 1);
      SectionMeans(kind, header, sections, segments, k, n - 1);
      GrowsNext(header, sections, s, n - 1);
    }
  }

  lemma GrowsNone(sections: seq<Section>, ids: seq<nat>, vm: nat, file: nat, front: nat)
    requires Indexes(sections, ids)
    ensures vm <= MemoryEnd(sections, ids, 0, vm + front) && file <= FileEnd(sections, ids, 0, file + front)
  {
  }

  lemma GrowsNext(header: nat, sections: seq<Section>, s: Segment, n: nat)
    requires n < |s.ids| && Indexes(sections, s.ids) && StandsNext(header, sections, s, n)
    requires s.vmAddr <= MemoryEnd(sections, s.ids, n, s.vmAddr + Front(header, s.name))
    requires s.fileOff <= FileEnd(sections, s.ids, n, s.fileOff + Front(header, s.name))
    ensures s.vmAddr <= MemoryEnd(sections, s.ids, n + 1, s.vmAddr + Front(header, s.name))
    ensures s.fileOff <= FileEnd(sections, s.ids, n + 1, s.fileOff + Front(header, s.name))
  {
    hide Front;
  }

  // ---- inside a section ----------------------------------------------------------------------------------------

  /** Each atom at the first aligned offset after the one before it, the first at 0. */
  ghost predicate AtomStands(s: Section, n: nat)
    requires n < |s.atoms|
  {
    var from := if n == 0 then 0 else s.atoms[n - 1].offset + s.atoms[n - 1].size;
    FirstAligned(s.atoms[n].offset, from, s.atoms[n].alignPow)
  }

  /** The synthetic data follow, aligned to 8 in `__DATA,__data` and as the section elsewhere, and end it. */
  ghost predicate ExtraStands(s: Section) {
    var end := if s.atoms == [] then 0 else s.atoms[|s.atoms| - 1].offset + s.atoms[|s.atoms| - 1].size;
    if s.extra == 0 then s.size == end
    else
      && s.size == s.extraOffset + s.extra
      && if s.atoms == [] then s.extraOffset == 0
         else FirstAligned(s.extraOffset, end, if s.segment == "__DATA" && s.name == "__data" then 3 else s.alignPow)
  }

  lemma FilledMeans(s: Section, n: nat)
    requires Filled(s)
    ensures n < |s.atoms| ==> AtomStands(s, n)
    ensures ExtraStands(s)
  {
    hide RoundUp, FirstAligned, Packed;
    if n < |s.atoms| {
      assert s.atoms[n].offset == RoundUp(EndOf(s.atoms, n), s.atoms[n].alignPow);
      RoundUpIs(EndOf(s.atoms, n), s.atoms[n].alignPow);
    }
    hide Tight;
    RoundUpIs(EndOf(s.atoms, |s.atoms|), ExtraAlign(s));
  }
}
