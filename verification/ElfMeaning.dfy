/** The static ELF layout told by flags, sizes and addresses. */
module ElfMeaning {
  import opened Wrappers
  import opened Bytes
  import opened Elf
  import opened Arith
  import opened ElfLayout
  import opened ElfPlacement
  import opened ElfFields
  import opened ElfLink

  // ---- the order of output sections ---------------------------------------------------------------------

  /** Bit 0 of the flags is SHF_WRITE, bit 2 SHF_EXECINSTR. */
  predicate MayWrite(o: Out) { o.flags % 2 == 1 }

  predicate MayRun(o: Out) { o.flags / 4 % 2 == 1 }

  predicate SameClass(a: Out, b: Out) {
    && MayRun(a) == MayRun(b)
    && (MayRun(a) || MayWrite(a) == MayWrite(b))
    && (MayRun(a) || !MayWrite(a) || a.nobits == b.nobits)
  }

  /** Code, then read-only data, then data, then bss. */
  predicate EarlierClass(a: Out, b: Out) {
    || (MayRun(a) && !MayRun(b))
    || (!MayRun(a) && !MayRun(b) && !MayWrite(a) && MayWrite(b))
    || (!MayRun(a) && !MayRun(b) && MayWrite(a) && MayWrite(b) && !a.nobits && b.nobits)
  }

  /** In the order, earlier classes come first and sections of one class keep the order of their creation. */
  lemma OrderMeans(outs: seq<Out>, order: seq<nat>, p: nat, q: nat)
    requires Ordered(outs, order) && p < q < |order|
    ensures order[p] < |outs| && order[q] < |outs|
    ensures EarlierClass(outs[order[p]], outs[order[q]])
      || (SameClass(outs[order[p]], outs[order[q]]) && order[p] < order[q])
  {
    assert Precedes(outs, order[p], order[q]);
  }

  // ---- merging ---------------------------------------------------------------------------------------------

  predicate SameKind(p: Part, q: Part) { p.name == q.name && p.flags == q.flags && p.entsize == q.entsize }

  /** Parts share an output section exactly when name, flags and entry size agree, and it has those. */
  lemma MergeMeans(parts: seq<Part>, outs: seq<Out>, place: seq<Place>, i: nat, j: nat)
    requires MergeOf(parts, outs, place) && i < |parts| && j < |parts|
    ensures |place| == |parts| && place[i].0 < |outs|
    ensures var o := outs[place[i].0];
      o.name == parts[i].name && o.flags == parts[i].flags && o.entsize == parts[i].entsize
    ensures place[i].0 == place[j].0 <==> SameKind(parts[i], parts[j])
  {
    assert Holds(outs[place[i].0], parts[i], place[i].1) && Holds(outs[place[j].0], parts[j], place[j].1);
    hide Padded, Tight, Apart;
  }

  // ---- addresses --------------------------------------------------------------------------------------------

  /** The first multiple of `align`, at least 1, from `from` on. */
  predicate FirstMultiple(x: nat, from: nat, align: nat) {
    var a := if align == 0 then 1 else align;
    x % a == 0 && from <= x < from + a
  }

  lemma NextMultipleIs(from: nat, align: nat)
    ensures FirstMultiple(NextMultiple(from, align), from, align)
  {
  }

  predicate WritableAtRun(o: Out) { MayWrite(o) || o.nobits }

  /** No section before place `p` of the order is writable at run time. */
  ghost predicate FirstWritable(outs: seq<Out>, order: seq<nat>, p: nat)
    requires p < |order| && Indexes(outs, order)
  {
    WritableAtRun(outs[order[p]]) && forall q :: 0 <= q < p ==> !WritableAtRun(outs[order[q]])
  }

  /** Where the section before place `p` ends; the headers before the first one: 64 bytes and 56 for each segment. */
  ghost function EndBefore(placed: seq<Out>, order: seq<nat>, phnum: nat, p: nat): (nat, nat)
    requires p <= |order| && Indexes(placed, order)
  {
    if p == 0 then (64 + 56 * phnum, 0x40_0000 + 64 + 56 * phnum)
    else
      var o := placed[order[p - 1]];
      if o.nobits then (o.fileOff, o.vaddr + o.bssSize) else (o.fileOff + |o.data|, o.vaddr + |o.data|)
  }

  /** At the next multiple of its alignment; the first writable section from a new page on. */
  ghost predicate StandsNext(placed: seq<Out>, order: seq<nat>, phnum: nat, p: nat)
    requires p < |order| && Indexes(placed, order)
  {
    var o, end := placed[order[p]], EndBefore(placed, order, phnum, p);
    if FirstWritable(placed, order, p) then
      exists file, vaddr ::
        && FirstMultiple(file, end.0, 0x1000) && FirstMultiple(vaddr, end.1, 0x1000)
        && FirstMultiple(o.fileOff, file, o.align) && FirstMultiple(o.vaddr, vaddr, o.align)
    else FirstMultiple(o.fileOff, end.0, o.align) && FirstMultiple(o.vaddr, end.1, o.align)
  }

  lemma WritableIs(o: Out)
    ensures WritableAtRun(o) <==> Writable(o)
  {
  }

  /** The cursors of the loop are the ends of the sections placed so far. */
  lemma {:induction false} RunIs(outs: seq<Out>, placed: seq<Out>, order: seq<nat>, phnum: nat, n: nat)
    requires Indexes(outs, order) && Indexes(placed, order) && SameOuts(placed, outs) && n <= |order|
    requires Follows(outs, placed, order, HeaderEnd(phnum), |order|)
    ensures var run := RunAt(outs, order, HeaderEnd(phnum), n);
      && run.c == Cursor(EndBefore(placed, order, phnum, n).0, EndBefore(placed, order, phnum, n).1)
      && (run.open <==> exists q :: 0 <= q < n && WritableAtRun(placed[order[q]]))
  {
    hide *;
    if n == 0 {
      RunStarts(outs, placed, order, phnum);
    } else {
      RunIs(outs, placed, order, phnum, n - 1);
      RunSteps(outs, placed, order, phnum, n - 1);
      WritableIs(placed[order[n - 1]]);
    }
  }

  lemma RunStarts(outs: seq<Out>, placed: seq<Out>, order: seq<nat>, phnum: nat)
    requires Indexes(outs, order) && Indexes(placed, order)
    ensures RunAt(outs, order, HeaderEnd(phnum), 0) ==
      Run(Cursor(EndBefore(placed, order, phnum, 0).0, EndBefore(placed, order, phnum, 0).1), false)
  {
  }

  lemma RunSteps(outs: seq<Out>, placed: seq<Out>, order: seq<nat>, phnum: nat, p: nat)
    requires Indexes(outs, order) && Indexes(placed, order) && SameOuts(placed, outs) && p < |order|
    requires Follows(outs, placed, order, HeaderEnd(phnum), |order|)
    ensures order[p] < |placed|
    ensures var end := EndBefore(placed, order, phnum, p + 1);
      RunAt(outs, order, HeaderEnd(phnum), p + 1) ==
        Run(Cursor(end.0, end.1), RunAt(outs, order, HeaderEnd(phnum), p).open || Writable(placed[order[p]]))
  {
    var o, was := placed[order[p]], outs[order[p]];
    assert SameContent(o, was);
    assert StandsAt(o, SpotAt(outs, order, HeaderEnd(phnum), p));
    hide NextMultiple, HeaderEnd, PageBreak;
  }

  /** Every output section stands right after the one before it in the order. */
  lemma PlacementMeans(outs: seq<Out>, placed: seq<Out>, order: seq<nat>, phnum: nat, p: nat)
    requires Indexes(outs, order) && Indexes(placed, order) && SameOuts(placed, outs) && p < |order|
    requires Follows(outs, placed, order, HeaderEnd(phnum), |order|)
    ensures StandsNext(placed, order, phnum, p)
  {
    RunIs(outs, placed, order, phnum, p);
    var o, was := placed[order[p]], outs[order[p]];
    assert SameContent(o, was);
    WritableIs(o);
    var run := RunAt(outs, order, HeaderEnd(phnum), p);
    var c := run.c;
    assert StandsAt(o, SpotAt(outs, order, HeaderEnd(phnum), p));
    var from := From(run, was);
    assert o.fileOff == NextMultiple(from.file, o.align) && o.vaddr == NextMultiple(from.vaddr, o.align);
    NextMultipleIs(from.file, o.align);
    NextMultipleIs(from.vaddr, o.align);
    NextMultipleIs(c.file, 0x1000);
    NextMultipleIs(c.vaddr, 0x1000);
    hide NextMultiple, FirstMultiple, RunAt, EndBefore, WritableAtRun;
    assert FirstWritable(placed, order, p) <==> Writable(was) && !run.open;
  }

  // ---- relocated fields -----------------------------------------------------------------------------------------

  /** The byte `b` of part `i` stands this far into its output section, whose address is known. */
  lemma AddressMeans(parts: seq<Part>, outs: seq<Out>, place: seq<Place>, i: nat, r: Reloc)
    requires Placing(parts, outs, place) && i < |parts| && ValidReloc(parts, parts[i], r)
    ensures var patch := PatchOf(parts, outs, place, i, r);
      && patch.p == outs[place[i].0].vaddr + place[i].1 + r.offset
      && patch.spot == place[i].1 + r.offset && patch.kind == r.kind && patch.addend == r.addend
      && (r.target.Fixed? ==> patch.s == r.target.address)
      && (r.target.InPart? ==>
            patch.s == outs[place[r.target.part].0].vaddr + place[r.target.part].1 + r.target.value)
  {
  }

  /** What the four bytes `w` of a field mean. */
  function Meaning(kind: Kind, w: nat): int {
    if kind == Abs32 then w else if w < 0x8000_0000 then w else w - 0x1_0000_0000
  }

  /** A value is accepted exactly when some content of the field means it. */
  lemma AcceptedMeans(r: Patch)
    ensures Accepted(r) <==>
      r.kind == Abs64 || exists w: nat :: w < 0x1_0000_0000 && Meaning(r.kind, w) == Value(r)
  {
    var w := Value(r) % 0x1_0000_0000;
    if Accepted(r) && r.kind != Abs64 {
      assert Meaning(r.kind, w) == Value(r);
    }
  }

  /** And the value is S + A, or for a PC-relative field what must be added to P to give S + A. */
  lemma ValueMeans(r: Patch)
    ensures if r.kind == Pc32 then r.p + Value(r) == r.s + r.addend else Value(r) == r.s + r.addend
  {
  }
}
