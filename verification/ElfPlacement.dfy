/** Static ELF layout: the order of output sections, their addresses and their file offsets. */
module ElfPlacement {
  import opened Wrappers
  import opened Arith
  import opened ElfLayout

  // ---- the order of output sections -----------------------------------------------------------------

  /** `output_rank`: text, read-only data, data, bss. */
  function Rank(o: Out): nat {
    if Has(o.flags, SHF_EXECINSTR) then 0 else if !Has(o.flags, SHF_WRITE) then 1 else if !o.nobits then 2 else 3
  }

  predicate Precedes(outs: seq<Out>, a: nat, b: nat)
    requires a < |outs| && b < |outs|
  {
    Rank(outs[a]) < Rank(outs[b]) || (Rank(outs[a]) == Rank(outs[b]) && a < b)
  }

  /** Every output section once, by rank and then by creation. */
  ghost predicate Ordered(outs: seq<Out>, order: seq<nat>) {
    && (forall p :: 0 <= p < |order| ==> order[p] < |outs|)
    && (forall p, q :: 0 <= p < q < |order| ==> Precedes(outs, order[p], order[q]))
    && (forall i :: 0 <= i < |outs| ==> i in order)
  }

  /** The stable sort by rank. */
  method SortByRank(outs: seq<Out>) returns (order: seq<nat>)
    ensures Ordered(outs, order)
  {
    order := [];
    for r := 0 to 4
      invariant forall p :: 0 <= p < |order| ==> order[p] < |outs| && Rank(outs[order[p]]) < r
      invariant forall p, q :: 0 <= p < q < |order| ==> Precedes(outs, order[p], order[q])
      invariant forall i :: 0 <= i < |outs| && Rank(outs[i]) < r ==> i in order
    {
      for k := 0 to |outs|
        invariant forall p :: 0 <= p < |order| ==>
          order[p] < |outs| && (Rank(outs[order[p]]) < r || (Rank(outs[order[p]]) == r && order[p] < k))
        invariant forall p, q :: 0 <= p < q < |order| ==> Precedes(outs, order[p], order[q])
        invariant forall i :: 0 <= i < |outs| && (Rank(outs[i]) < r || (Rank(outs[i]) == r && i < k)) ==> i in order
      {
        if Rank(outs[k]) == r {
          order := order + [k];
        }
      }
    }
  }

  // ---- addresses and file offsets --------------------------------------------------------------------

  function FileLength(o: Out): nat { if o.nobits then 0 else |o.data| }

  predicate Writable(o: Out) { Has(o.flags, SHF_WRITE) || o.nobits }

  datatype Cursor = Cursor(file: nat, vaddr: nat)

  predicate InStep(c: Cursor) { c.vaddr == BASE_VADDR + c.file }

  /** Where the next section goes: on a fresh page when the writable segment opens, then aligned. */
  function PageBreak(c: Cursor): Cursor { Cursor(NextMultiple(c.file, PAGE), NextMultiple(c.vaddr, PAGE)) }

  function AlignFor(c: Cursor, o: Out): Cursor { Cursor(NextMultiple(c.file, o.align), NextMultiple(c.vaddr, o.align)) }

  lemma StaysInStep(c: Cursor, align: nat)
    requires InStep(c) && OnMultiple(BASE_VADDR, align)
    ensures InStep(Cursor(NextMultiple(c.file, align), NextMultiple(c.vaddr, align)))
  {
    AlignUpShift(BASE_VADDR, c.file, AtLeastOne(align));
  }

  predicate SameContent(a: Out, b: Out) { a == b.(vaddr := a.vaddr, fileOff := a.fileOff) }

  ghost predicate SameOuts(a: seq<Out>, b: seq<Out>) {
    |a| == |b| && forall i :: 0 <= i < |a| ==> SameContent(a[i], b[i])
  }

  /** One placed section: aligned, and past `c`. */
  predicate Put(o: Out, c: Cursor) {
    && OnMultiple(o.vaddr, o.align) && OnMultiple(o.fileOff, o.align)
    && c.vaddr <= o.vaddr && c.file <= o.fileOff
  }

  predicate EndsBy(o: Out, c: Cursor) {
    o.vaddr + OutLength(o) <= c.vaddr && o.fileOff + FileLength(o) <= c.file
  }

  predicate After(o: Out, o': Out) {
    o.vaddr + OutLength(o) <= o'.vaddr && o.fileOff + FileLength(o) <= o'.fileOff
  }

  /** The first `n` sections in order are placed, apart, and end by the cursors. */
  ghost predicate Laid(outs: seq<Out>, order: seq<nat>, n: nat, c: Cursor) {
    && n <= |order| && (forall p :: 0 <= p < |order| ==> order[p] < |outs|)
    && (forall p :: 0 <= p < n ==> OnMultiple(outs[order[p]].vaddr, outs[order[p]].align))
    && (forall p :: 0 <= p < n ==> OnMultiple(outs[order[p]].fileOff, outs[order[p]].align))
    && (forall p :: 0 <= p < n ==> EndsBy(outs[order[p]], c))
    && (forall p, q :: 0 <= p < q < n ==> After(outs[order[p]], outs[order[q]]))
  }

  lemma PlaceOf(outs: seq<Out>, order: seq<nat>, i: nat) returns (p: nat)
    requires Ordered(outs, order) && i < |outs|
    ensures p < |order| && order[p] == i
  {
    assert i in order;
    p :| 0 <= p < |order| && order[p] == i;
  }

  lemma OrderDistinct(outs: seq<Out>, order: seq<nat>, p: nat, q: nat)
    requires Ordered(outs, order) && p < q < |order|
    ensures order[p] != order[q]
  {
    assert Precedes(outs, order[p], order[q]);
  }

  /** Placing the next section at or past the cursors keeps the picture. */
  lemma LaidNext(outs: seq<Out>, order: seq<nat>, n: nat, c: Cursor, o: Out, e: Cursor)
    requires Laid(outs, order, n, c) && n < |order| && (forall p :: 0 <= p < n ==> order[p] != order[n])
    requires Put(o, c) && EndsBy(o, e) && c.vaddr <= e.vaddr && c.file <= e.file
    ensures Laid(outs[order[n] := o], order, n + 1, e)
  {
    hide OnMultiple, OutLength, FileLength;
    var after := outs[order[n] := o];
    assert forall p :: 0 <= p < n ==> after[order[p]] == outs[order[p]];
  }

  predicate Precursor(c: Cursor, e: Cursor) { c.vaddr <= e.vaddr && c.file <= e.file }

  // ---- the loop as a function ---------------------------------------------------------------------

  ghost predicate Indexes(outs: seq<Out>, order: seq<nat>) {
    forall p :: 0 <= p < |order| ==> order[p] < |outs|
  }

  /** The cursors, and whether the writable segment has been opened. */
  datatype Run = Run(c: Cursor, open: bool)

  /** Where section `o` goes from `c`, and the cursors after it. */
  function Placed(c: Cursor, o: Out): Out {
    var at := AlignFor(c, o);
    o.(fileOff := at.file, vaddr := at.vaddr)
  }

  function Leave(o: Out): Cursor {
    if o.nobits then Cursor(o.fileOff, o.vaddr + o.bssSize) else Cursor(o.fileOff + |o.data|, o.vaddr + |o.data|)
  }

  /** The first writable section takes a fresh page. */
  function From(r: Run, o: Out): Cursor {
    if Writable(o) && !r.open then PageBreak(r.c) else r.c
  }

  function Past(r: Run, o: Out): Run {
    Run(Leave(Placed(From(r, o), o)), r.open || Writable(o))
  }

  /** After the first `n` sections in order. */
  ghost function RunAt(outs: seq<Out>, order: seq<nat>, start: Cursor, n: nat): Run
    requires Indexes(outs, order) && n <= |order|
  {
    if n == 0 then Run(start, false) else Past(RunAt(outs, order, start, n - 1), outs[order[n - 1]])
  }

  /** The file offset and address of the section at place `n` of the order. */
  ghost function SpotAt(outs: seq<Out>, order: seq<nat>, start: Cursor, n: nat): Cursor
    requires Indexes(outs, order) && n < |order|
  {
    AlignFor(From(RunAt(outs, order, start, n), outs[order[n]]), outs[order[n]])
  }

  predicate StandsAt(o: Out, at: Cursor) { o.fileOff == at.file && o.vaddr == at.vaddr }

  ghost predicate Follows(given: seq<Out>, outs: seq<Out>, order: seq<nat>, start: Cursor, n: nat)
    requires Indexes(given, order) && Indexes(outs, order) && n <= |order|
  {
    forall p :: 0 <= p < n ==> StandsAt(outs[order[p]], SpotAt(given, order, start, p))
  }

  /** The layout loop after `n` sections. */
  ghost predicate Progress(given: seq<Out>, outs: seq<Out>, order: seq<nat>, n: nat, c: Cursor) {
    Ordered(given, order) && SameOuts(outs, given) && Laid(outs, order, n, c)
  }

  lemma LaidFurther(outs: seq<Out>, order: seq<nat>, n: nat, c: Cursor, e: Cursor)
    requires Laid(outs, order, n, c) && Precursor(c, e)
    ensures Laid(outs, order, n, e)
  {
    hide OnMultiple;
  }

  lemma BreakKeeps(given: seq<Out>, outs: seq<Out>, order: seq<nat>, n: nat, c: Cursor)
    requires Progress(given, outs, order, n, c)
    ensures Progress(given, outs, order, n, PageBreak(c)) && Precursor(c, PageBreak(c))
  {
    hide NextMultiple, OnMultiple, Laid, Ordered, SameOuts;
    LaidFurther(outs, order, n, c, PageBreak(c));
  }

  lemma PlacedFacts(c: Cursor, o: Out)
    ensures var r := Placed(c, o);
      Put(r, c) && EndsBy(r, Leave(r)) && Precursor(c, Leave(r)) && SameContent(r, o)
  {
    hide OnMultiple;
  }

  lemma PlaceKeeps(given: seq<Out>, outs: seq<Out>, order: seq<nat>, n: nat, c: Cursor)
    requires Progress(given, outs, order, n, c) && n < |order|
    ensures order[n] < |outs|
    ensures var o := Placed(c, outs[order[n]]); Progress(given, outs[order[n] := o], order, n + 1, Leave(o))
  {
    var was := outs[order[n]];
    assert SameContent(was, given[order[n]]);
    PlacedFacts(c, was);
    var o := Placed(c, was);
    forall p | 0 <= p < n ensures order[p] != order[n] {
      OrderDistinct(given, order, p, n);
    }
    hide Placed, Leave, Ordered;
    LaidNext(outs, order, n, c, o, Leave(o));
    SameAfter(given, outs, order[n], o);
  }

  /** Placing what the function places, where it places it. */
  lemma FollowsNext(given: seq<Out>, outs: seq<Out>, order: seq<nat>, start: Cursor, n: nat)
    requires Ordered(given, order) && SameOuts(outs, given) && Indexes(outs, order) && Indexes(given, order)
    requires n < |order|
    requires Follows(given, outs, order, start, n)
    ensures order[n] < |outs|
    ensures var r := RunAt(given, order, start, n);
      var o := Placed(From(r, outs[order[n]]), outs[order[n]]);
      && Indexes(outs[order[n] := o], order) && Follows(given, outs[order[n] := o], order, start, n + 1)
      && RunAt(given, order, start, n + 1) == Run(Leave(o), r.open || Writable(outs[order[n]]))
  {
    hide *;
    var r := RunAt(given, order, start, n);
    SameAt(given, outs, order, n);
    SameSpot(r, outs[order[n]], given[order[n]]);
    RunNext(given, order, start, n);
    var o := Placed(From(r, outs[order[n]]), outs[order[n]]);
    forall p | 0 <= p < n ensures order[p] != order[n] {
      OrderDistinct(given, order, p, n);
    }
    FollowsPush(given, outs, order, start, n, o);
  }

  lemma SameAt(given: seq<Out>, outs: seq<Out>, order: seq<nat>, n: nat)
    requires SameOuts(outs, given) && Indexes(given, order) && n < |order|
    ensures order[n] < |outs| == |given| && SameContent(outs[order[n]], given[order[n]])
  {
  }

  lemma RunNext(outs: seq<Out>, order: seq<nat>, start: Cursor, n: nat)
    requires Indexes(outs, order) && n < |order|
    ensures order[n] < |outs|
    ensures RunAt(outs, order, start, n + 1) == Past(RunAt(outs, order, start, n), outs[order[n]])
    ensures SpotAt(outs, order, start, n) ==
      AlignFor(From(RunAt(outs, order, start, n), outs[order[n]]), outs[order[n]])
  {
    hide Past, From, AlignFor;
  }

  lemma FollowsPush(given: seq<Out>, outs: seq<Out>, order: seq<nat>, start: Cursor, n: nat, o: Out)
    requires Indexes(outs, order) && Indexes(given, order) && n < |order| && Follows(given, outs, order, start, n)
    requires (forall p :: 0 <= p < n ==> order[p] != order[n]) && StandsAt(o, SpotAt(given, order, start, n))
    ensures Indexes(outs[order[n] := o], order) && Follows(given, outs[order[n] := o], order, start, n + 1)
  {
    hide SpotAt, StandsAt;
  }

  lemma SameSpot(r: Run, a: Out, b: Out)
    requires SameContent(a, b)
    ensures From(r, a) == From(r, b) && Past(r, a) == Past(r, b)
    ensures Past(r, a) == Run(Leave(Placed(From(r, a), a)), r.open || Writable(a))
    ensures StandsAt(Placed(From(r, a), a), AlignFor(From(r, b), b))
  {
    hide NextMultiple;
  }

  lemma SameAfter(given: seq<Out>, outs: seq<Out>, i: nat, o: Out)
    requires SameOuts(outs, given) && i < |outs| && SameContent(o, outs[i])
    ensures SameOuts(outs[i := o], given)
  {
    assert SameContent(outs[i], given[i]);
  }

  /** Sections before the first writable one end by a page edge, all others start past it. */
  ghost predicate Divided(outs: seq<Out>, order: seq<nat>, n: nat, rw: Option<nat>, edge: Cursor, c: Cursor)
    requires n <= |order| && forall p :: 0 <= p < |order| ==> order[p] < |outs|
  {
    match rw
    case None => forall p :: 0 <= p < n ==> !Writable(outs[order[p]])
    case Some(f) =>
      && f < n && Writable(outs[order[f]]) && Precursor(edge, c)
      && OnMultiple(edge.vaddr, PAGE) && OnMultiple(edge.file, PAGE)
      && (forall p :: 0 <= p < f ==> !Writable(outs[order[p]]) && EndsBy(outs[order[p]], edge))
      && (forall q :: f <= q < n ==> edge.vaddr <= outs[order[q]].vaddr && edge.file <= outs[order[q]].fileOff)
  }

  lemma DividedOpens(outs: seq<Out>, order: seq<nat>, n: nat, edge: Cursor, o: Out)
    requires n < |order| && (forall p :: 0 <= p < |order| ==> order[p] < |outs|)
    requires (forall p :: 0 <= p < n ==> order[p] != order[n]) && Writable(o)
    requires Divided(outs, order, n, None, edge, edge) && Laid(outs, order, n, edge)
    requires OnMultiple(edge.vaddr, PAGE) && OnMultiple(edge.file, PAGE) && Put(o, edge) && Precursor(edge, Leave(o))
    ensures Divided(outs[order[n] := o], order, n + 1, Some(n), edge, Leave(o))
  {
    hide OnMultiple, Writable, EndsBy, Leave;
  }

  lemma DividedStays(outs: seq<Out>, order: seq<nat>, n: nat, rw: Option<nat>, edge: Cursor, c: Cursor, o: Out)
    requires n < |order| && (forall p :: 0 <= p < |order| ==> order[p] < |outs|)
    requires forall p :: 0 <= p < n ==> order[p] != order[n]
    requires Divided(outs, order, n, rw, edge, c) && (rw.None? ==> !Writable(o))
    requires Put(o, c) && Precursor(c, Leave(o))
    ensures Divided(outs[order[n] := o], order, n + 1, rw, edge, Leave(o))
  {
    hide OnMultiple, Writable, EndsBy, Leave;
  }

  lemma BreakOnPage(c: Cursor)
    ensures OnMultiple(PageBreak(c).vaddr, PAGE) && OnMultiple(PageBreak(c).file, PAGE)
  {
    hide OnMultiple;
  }

  lemma ProgressFacts(given: seq<Out>, outs: seq<Out>, order: seq<nat>, n: nat, c: Cursor)
    requires Progress(given, outs, order, n, c)
    ensures n <= |order| && Indexes(outs, order) && Indexes(given, order) && Laid(outs, order, n, c)
    ensures forall p :: 0 <= p < |order| ==> order[p] < |outs|
    ensures forall p, q :: 0 <= p < q < |order| ==> order[p] != order[q]
    ensures SameOuts(outs, given) && Ordered(given, order)
  {
    hide OnMultiple;
    forall p, q | 0 <= p < q < |order| ensures order[p] != order[q] {
      OrderDistinct(given, order, p, q);
    }
  }

  lemma ProgressStart(given: seq<Out>, order: seq<nat>, c: Cursor)
    requires Ordered(given, order)
    ensures Progress(given, given, order, 0, c) && Divided(given, order, 0, None, c, c)
    ensures Indexes(given, order) && Follows(given, given, order, c, 0) && RunAt(given, order, c, 0) == Run(c, false)
  {
  }

  /** Every section placed so far starts past `start`: the file and program headers stay free. */
  ghost predicate Clear(outs: seq<Out>, order: seq<nat>, n: nat, start: Cursor, c: Cursor)
    requires n <= |order| && forall p :: 0 <= p < |order| ==> order[p] < |outs|
  {
    Precursor(start, c) && forall p :: 0 <= p < n ==>
      start.vaddr <= outs[order[p]].vaddr && start.file <= outs[order[p]].fileOff
  }

  lemma ClearStart(outs: seq<Out>, order: seq<nat>, c: Cursor)
    requires forall p :: 0 <= p < |order| ==> order[p] < |outs|
    ensures Clear(outs, order, 0, c, c)
  {
  }

  lemma ClearNext(outs: seq<Out>, order: seq<nat>, n: nat, start: Cursor, was: Cursor, c: Cursor, o: Out)
    requires n < |order| && (forall p :: 0 <= p < |order| ==> order[p] < |outs|)
    requires forall p :: 0 <= p < n ==> order[p] != order[n]
    requires Clear(outs, order, n, start, was) && Precursor(was, c) && Put(o, c) && Precursor(c, Leave(o))
    ensures Clear(outs[order[n] := o], order, n + 1, start, Leave(o))
  {
    hide OnMultiple, Leave;
  }

  lemma PrecursorSelf(c: Cursor)
    ensures Precursor(c, c)
  {
  }

  function HeaderEnd(phnum: nat): Cursor { Cursor(64 + 56 * phnum, BASE_VADDR + 64 + 56 * phnum) }

  /** The layout loop, from the cursors after the headers. */
  method PlaceFrom(outs: seq<Out>, order: seq<nat>, start: Cursor)
    returns (placed: seq<Out>, rw: Option<nat>, ghost edge: Cursor, ghost end: Cursor)
    requires Ordered(outs, order)
    ensures Progress(outs, placed, order, |order|, end) && Indexes(outs, order) && Indexes(placed, order)
    ensures Follows(outs, placed, order, start, |order|) && Run(end, rw.Some?) == RunAt(outs, order, start, |order|)
    ensures forall p :: 0 <= p < |order| ==> order[p] < |placed|
    ensures Divided(placed, order, |order|, rw, edge, end) && Clear(placed, order, |order|, start, end)
  {
    hide *;
    var c := start;
    placed, rw, edge := outs, None, c;
    ProgressStart(outs, order, c);
    ProgressFacts(outs, outs, order, 0, c);
    ClearStart(outs, order, c);
    for n := 0 to |order|
      invariant Progress(outs, placed, order, n, c) && Indexes(outs, order) && Indexes(placed, order)
      invariant forall p :: 0 <= p < |order| ==> order[p] < |placed|
      invariant Follows(outs, placed, order, start, n) && Run(c, rw.Some?) == RunAt(outs, order, start, n)
      invariant Divided(placed, order, n, rw, if rw.None? then c else edge, c)
      invariant Clear(placed, order, n, start, c)
    {
      ProgressFacts(outs, placed, order, n, c);
      PrecursorSelf(c);
      var opens := Writable(placed[order[n]]) && rw == None;
      ghost var before, run := c, Run(c, rw.Some?);
      if opens {
        BreakKeeps(outs, placed, order, n, c);
        BreakOnPage(c);
        DividedEdge(placed, order, n, c, PageBreak(c));
        c := PageBreak(c);
        edge := c;
        ProgressFacts(outs, placed, order, n, c);
      }
      FromIs(run, placed[order[n]]);
      FollowsNext(outs, placed, order, start, n);
      PlacedFacts(c, placed[order[n]]);
      PlaceKeeps(outs, placed, order, n, c);
      var o := Placed(c, placed[order[n]]);
      PlacedWritable(c, placed[order[n]]);
      ClearNext(placed, order, n, start, before, c, o);
      if opens {
        DividedOpens(placed, order, n, c, o);
        rw := Some(n);
      } else {
        DividedStays(placed, order, n, rw, if rw.None? then c else edge, c, o);
        DividedEdgeAny(placed[order[n] := o], order, n + 1, rw, if rw.None? then c else edge, Leave(o));
      }
      placed := placed[order[n] := o];
      c := Leave(o);
      ProgressFacts(outs, placed, order, n + 1, c);
    }
    end := c;
    edge := if rw.None? then c else edge;
  }

  lemma FromIs(r: Run, o: Out)
    ensures From(r, o) == if Writable(o) && !r.open then PageBreak(r.c) else r.c
  {
  }

  lemma PlacedWritable(c: Cursor, o: Out)
    ensures Writable(Placed(c, o)) == Writable(o)
  {
  }

  lemma DividedEdge(outs: seq<Out>, order: seq<nat>, n: nat, c: Cursor, e: Cursor)
    requires n <= |order| && forall p :: 0 <= p < |order| ==> order[p] < |outs|
    requires Divided(outs, order, n, None, c, c)
    ensures Divided(outs, order, n, None, e, e)
  {
  }

  lemma DividedEdgeAny(outs: seq<Out>, order: seq<nat>, n: nat, rw: Option<nat>, edge: Cursor, e: Cursor)
    requires n <= |order| && forall p :: 0 <= p < |order| ==> order[p] < |outs|
    requires Divided(outs, order, n, rw, edge, e)
    ensures Divided(outs, order, n, rw, if rw.None? then e else edge, e)
  {
  }

  // ---- address minus file offset ---------------------------------------------------------------------

  /** Contents at file offset f are mapped at BASE + f. */
  ghost predicate Congruent(outs: seq<Out>, order: seq<nat>, start: Cursor)
    requires Indexes(outs, order)
  {
    forall p :: 0 <= p < |order| && !outs[order[p]].nobits ==> InStep(SpotAt(outs, order, start, p))
  }

  /** Every alignment of a section with contents divides the base address. */
  ghost predicate ContentsDivide(outs: seq<Out>) {
    forall i :: 0 <= i < |outs| && !outs[i].nobits ==> OnMultiple(BASE_VADDR, outs[i].align)
  }

  /** Every NOBITS section comes after every section with contents. */
  ghost predicate NobitsBehind(outs: seq<Out>) {
    forall i, j :: 0 <= i < |outs| && 0 <= j < |outs| && outs[i].nobits && !outs[j].nobits ==> Precedes(outs, j, i)
  }

  /** NOBITS sections are writable and not executable, as compilers emit them. */
  ghost predicate PlainNobits(outs: seq<Out>) {
    forall i :: 0 <= i < |outs| && outs[i].nobits ==>
      Has(outs[i].flags, SHF_WRITE) && !Has(outs[i].flags, SHF_EXECINSTR)
  }

  lemma PlainIsBehind(outs: seq<Out>)
    requires PlainNobits(outs)
    ensures NobitsBehind(outs)
  {
    hide Has;
  }

  lemma BehindInOrder(outs: seq<Out>, order: seq<nat>, p: nat, q: nat)
    requires Ordered(outs, order) && p < q < |order| && NobitsBehind(outs) && !outs[order[q]].nobits
    ensures !outs[order[p]].nobits
  {
    hide Rank;
    assert Precedes(outs, order[p], order[q]);
  }

  /** As long as sections have contents and divide the base, the cursors stay in step. */
  lemma {:induction false} RunInStep(outs: seq<Out>, order: seq<nat>, start: Cursor, n: nat)
    requires Indexes(outs, order) && n <= |order| && InStep(start) && ContentsDivide(outs)
    requires forall p :: 0 <= p < n ==> !outs[order[p]].nobits
    ensures InStep(RunAt(outs, order, start, n).c)
  {
    if n > 0 {
      RunInStep(outs, order, start, n - 1);
      StepInStep(RunAt(outs, order, start, n - 1), outs[order[n - 1]]);
    }
  }

  lemma StepInStep(r: Run, o: Out)
    requires InStep(r.c) && !o.nobits && OnMultiple(BASE_VADDR, o.align)
    ensures InStep(AlignFor(From(r, o), o)) && InStep(Past(r, o).c)
  {
    BaseOnPage();
    StaysInStep(r.c, PAGE);
    StaysInStep(From(r, o), o.align);
    hide OnMultiple, NextMultiple;
  }

  lemma BaseOnPage()
    ensures OnMultiple(BASE_VADDR, PAGE)
  {
  }

  lemma CongruentHolds(outs: seq<Out>, order: seq<nat>, start: Cursor)
    requires Ordered(outs, order) && Indexes(outs, order) && InStep(start)
    requires ContentsDivide(outs) && NobitsBehind(outs)
    ensures Congruent(outs, order, start)
  {
    hide SpotAt, RunAt, OnMultiple, AlignFor;
    forall q | 0 <= q < |order| && !outs[order[q]].nobits ensures InStep(SpotAt(outs, order, start, q)) {
      forall p | 0 <= p < q ensures !outs[order[p]].nobits {
        BehindInOrder(outs, order, p, q);
      }
      SpotInStep(outs, order, start, q);
    }
  }

  lemma SpotInStep(outs: seq<Out>, order: seq<nat>, start: Cursor, q: nat)
    requires Indexes(outs, order) && q < |order| && InStep(start) && ContentsDivide(outs)
    requires forall p :: 0 <= p <= q ==> !outs[order[p]].nobits
    ensures InStep(SpotAt(outs, order, start, q))
  {
    hide OnMultiple, AlignFor, From;
    RunInStep(outs, order, start, q);
    StepInStep(RunAt(outs, order, start, q), outs[order[q]]);
  }

  /** Congruence asks every contents alignment to divide the base, whatever the NOBITS sections do. */
  lemma CongruentDivides(outs: seq<Out>, order: seq<nat>, start: Cursor)
    requires Ordered(outs, order) && Indexes(outs, order) && Congruent(outs, order, start)
    ensures ContentsDivide(outs)
  {
    hide OnMultiple, RunAt, From;
    forall i | 0 <= i < |outs| && !outs[i].nobits ensures OnMultiple(BASE_VADDR, outs[i].align) {
      var p := PlaceOf(outs, order, i);
      assert InStep(SpotAt(outs, order, start, p));
      AlignedDifference(From(RunAt(outs, order, start, p), outs[i]), outs[i]);
    }
  }

  lemma AlignedDifference(c: Cursor, o: Out)
    requires InStep(AlignFor(c, o))
    ensures OnMultiple(BASE_VADDR, o.align)
  {
    var at := AlignFor(c, o);
    SumDivides(at.vaddr, at.file, AtLeastOne(o.align));
  }

  /** With NOBITS behind contents the layout is congruent exactly when contents alignments divide the base. */
  lemma CongruentExactly(outs: seq<Out>, order: seq<nat>, start: Cursor)
    requires Ordered(outs, order) && Indexes(outs, order) && InStep(start) && NobitsBehind(outs)
    ensures Congruent(outs, order, start) <==> ContentsDivide(outs)
  {
    if ContentsDivide(outs) {
      CongruentHolds(outs, order, start);
    }
    if Congruent(outs, order, start) {
      CongruentDivides(outs, order, start);
    }
  }

  /** In particular for plain NOBITS sections. */
  lemma PlainCongruentExactly(outs: seq<Out>, order: seq<nat>, start: Cursor)
    requires Ordered(outs, order) && Indexes(outs, order) && InStep(start) && PlainNobits(outs)
    ensures Congruent(outs, order, start) <==> ContentsDivide(outs)
  {
    PlainIsBehind(outs);
    hide Congruent, ContentsDivide, NobitsBehind, Ordered;
    CongruentExactly(outs, order, start);
  }

  /** The gap between the cursors at a section is no wider than the padding its alignment makes anyway. */
  ghost predicate GapFits(outs: seq<Out>, order: seq<nat>, start: Cursor, p: nat)
    requires Indexes(outs, order) && p < |order|
  {
    var c := From(RunAt(outs, order, start, p), outs[order[p]]);
    Max(c.vaddr, BASE_VADDR + c.file) <= NextMultiple(Min(c.vaddr, BASE_VADDR + c.file), outs[order[p]].align)
  }

  ghost predicate GapsFit(outs: seq<Out>, order: seq<nat>, start: Cursor)
    requires Indexes(outs, order)
  {
    forall p :: 0 <= p < |order| && !outs[order[p]].nobits ==> GapFits(outs, order, start, p)
  }

  /** Two numbers round up to the same multiple exactly when none lies between them. */
  lemma SameRounding(v: nat, w: nat, align: nat)
    ensures NextMultiple(v, align) == NextMultiple(w, align) <==> Max(v, w) <= NextMultiple(Min(v, w), align)
  {
    var a, lo, hi := AtLeastOne(align), Min(v, w), Max(v, w);
    AlignUpMonotone(lo, hi, a);
    if hi <= NextMultiple(lo, align) {
      AlignUpLeast(hi, a, NextMultiple(lo, align));
    }
  }

  lemma AlignedInStep(c: Cursor, o: Out)
    requires OnMultiple(BASE_VADDR, o.align)
    ensures InStep(AlignFor(c, o)) <==>
      Max(c.vaddr, BASE_VADDR + c.file) <= NextMultiple(Min(c.vaddr, BASE_VADDR + c.file), o.align)
  {
    AlignUpShift(BASE_VADDR, c.file, AtLeastOne(o.align));
    SameRounding(c.vaddr, BASE_VADDR + c.file, o.align);
  }

  /**
   * For given sizes, wherever NOBITS sections are: the layout is congruent exactly when contents alignments
   * divide the base and the gap NOBITS leaves between the cursors fits the padding before every contents.
   */
  lemma CongruentAtSizes(outs: seq<Out>, order: seq<nat>, start: Cursor)
    requires Ordered(outs, order) && Indexes(outs, order)
    ensures Congruent(outs, order, start) <==>
      (ContentsDivide(outs) && GapsFit(outs, order, start))
  {
    hide SpotAt, GapFits, ContentsDivide, Ordered;
    if Congruent(outs, order, start) {
      CongruentDivides(outs, order, start);
    }
    if ContentsDivide(outs) {
      forall p | 0 <= p < |order| && !outs[order[p]].nobits
        ensures InStep(SpotAt(outs, order, start, p)) <==> GapFits(outs, order, start, p)
      {
        GapDecides(outs, order, start, p);
      }
    }
  }

  lemma GapDecides(outs: seq<Out>, order: seq<nat>, start: Cursor, p: nat)
    requires Indexes(outs, order) && p < |order| && ContentsDivide(outs) && !outs[order[p]].nobits
    ensures InStep(SpotAt(outs, order, start, p)) <==> GapFits(outs, order, start, p)
  {
    assert OnMultiple(BASE_VADDR, outs[order[p]].align);
    hide OnMultiple, RunAt, From, AlignFor, ContentsDivide, InStep;
    AlignedInStep(From(RunAt(outs, order, start, p), outs[order[p]]), outs[order[p]]);
  }

  // ---- a larger NOBITS section shifts what follows in memory only ----------------------------------------

  /** The same sections with other NOBITS sizes. */
  predicate Resized(a: seq<Out>, b: seq<Out>) {
    |a| == |b| && forall i :: 0 <= i < |a| ==> b[i] == a[i].(bssSize := b[i].bssSize) && (a[i].nobits || a[i] == b[i])
  }

  lemma ResizedOrder(a: seq<Out>, b: seq<Out>, order: seq<nat>)
    requires Resized(a, b)
    ensures Ordered(a, order) <==> Ordered(b, order)
    ensures Indexes(a, order) <==> Indexes(b, order)
  {
    forall i, j | 0 <= i < |a| && 0 <= j < |a| ensures Precedes(a, i, j) <==> Precedes(b, i, j) {
      SameRank(a[i], b[i]);
      SameRank(a[j], b[j]);
    }
    hide Precedes;
  }

  lemma SameRank(a: Out, b: Out)
    requires b == a.(bssSize := b.bssSize)
    ensures Rank(a) == Rank(b)
  {
  }

  /** A multiple of the page size and of every alignment. */
  ghost function Common(outs: seq<Out>): (m: nat)
    ensures m > 0
  {
    if outs == [] then PAGE
    else
      var rest, a := Common(outs[..|outs| - 1]), AtLeastOne(outs[|outs| - 1].align);
      Positive(rest, a);
      rest * a
  }

  lemma Positive(a: nat, b: nat)
    requires a > 0 && b > 0
    ensures a * b > 0
  {
  }

  lemma {:induction false} CommonDivides(outs: seq<Out>)
    ensures OnMultiple(Common(outs), PAGE)
    ensures forall i :: 0 <= i < |outs| ==> OnMultiple(Common(outs), outs[i].align)
  {
    if outs != [] {
      var n := |outs| - 1;
      var rest, a := Common(outs[..n]), AtLeastOne(outs[n].align);
      CommonDivides(outs[..n]);
      TimesDivides(rest, a, PAGE);
      MultipleDivides(a, rest);
      assert a * rest == rest * a;
      forall i | 0 <= i < |outs| ensures OnMultiple(Common(outs), outs[i].align) {
        if i < n {
          assert outs[..n][i] == outs[i];
          TimesDivides(rest, a, outs[i].align);
        }
      }
    }
  }

  lemma TimesDivides(m: nat, a: nat, align: nat)
    requires OnMultiple(m, align) && a > 0
    ensures OnMultiple(m * a, align)
  {
    var p := AtLeastOne(align);
    var q := m / p;
    assert m == p * q;
    assert m * a == p * (q * a) by { assert (p * q) * a == p * (q * a); }
    MultipleDivides(p, q * a);
  }

  function Up(c: Cursor, m: nat): Cursor { c.(vaddr := c.vaddr + m) }

  lemma RoundUpShifted(c: Cursor, m: nat, align: nat)
    requires OnMultiple(m, align)
    ensures NextMultiple(c.vaddr + m, align) == NextMultiple(c.vaddr, align) + m
  {
    AlignUpShift(m, c.vaddr, AtLeastOne(align));
  }

  lemma StepShifted(r: Run, o: Out, m: nat)
    requires OnMultiple(m, PAGE) && OnMultiple(m, o.align)
    ensures From(Run(Up(r.c, m), r.open), o) == Up(From(r, o), m)
    ensures AlignFor(Up(From(r, o), m), o) == Up(AlignFor(From(r, o), o), m)
    ensures Past(Run(Up(r.c, m), r.open), o) == Run(Up(Past(r, o).c, m), Past(r, o).open)
  {
    RoundUpShifted(r.c, m, PAGE);
    RoundUpShifted(From(r, o), m, o.align);
    hide OnMultiple, NextMultiple;
  }

  function Enlarged(outs: seq<Out>, i: nat, m: nat): seq<Out>
    requires i < |outs|
  {
    outs[i := outs[i].(bssSize := outs[i].bssSize + m)]
  }

  /** Before the enlarged section nothing changes; after it addresses move by the same amount. */
  lemma {:induction false} RunShifted(outs: seq<Out>, order: seq<nat>, start: Cursor, p: nat, m: nat, n: nat)
    requires Ordered(outs, order) && Indexes(outs, order) && p < |order| && n <= |order| && outs[order[p]].nobits
    requires OnMultiple(m, PAGE) && forall i :: 0 <= i < |outs| ==> OnMultiple(m, outs[i].align)
    ensures Indexes(Enlarged(outs, order[p], m), order)
    ensures var r := RunAt(outs, order, start, n);
      RunAt(Enlarged(outs, order[p], m), order, start, n) == if n <= p then r else Run(Up(r.c, m), r.open)
    decreases n
  {
    hide *;
    EnlargedIndexes(outs, order, p, m);
    var big := Enlarged(outs, order[p], m);
    if n == 0 {
      RunNone(outs, order, start);
      RunNone(big, order, start);
    } else {
      var k := n - 1;
      RunShifted(outs, order, start, p, m, k);
      RunNext(outs, order, start, k);
      RunNext(big, order, start, k);
      if k < p {
        OrderDistinct(outs, order, k, p);
      } else if k > p {
        OrderDistinct(outs, order, p, k);
      }
      var r := RunAt(outs, order, start, k);
      EnlargedAt(outs, order[p], m, order[k]);
      StepShifted(r, outs[order[k]], m);
      EnlargedStep(r, outs[order[p]], m);
    }
  }

  lemma RunNone(outs: seq<Out>, order: seq<nat>, start: Cursor)
    requires Indexes(outs, order)
    ensures RunAt(outs, order, start, 0) == Run(start, false)
  {
  }

  lemma EnlargedIndexes(outs: seq<Out>, order: seq<nat>, p: nat, m: nat)
    requires Indexes(outs, order) && p < |order|
    ensures forall k :: 0 <= k < |order| ==> order[k] < |outs|
    ensures Indexes(Enlarged(outs, order[p], m), order) && |Enlarged(outs, order[p], m)| == |outs|
  {
  }

  lemma EnlargedAt(outs: seq<Out>, i: nat, m: nat, k: nat)
    requires i < |outs| && k < |outs|
    ensures |Enlarged(outs, i, m)| == |outs|
    ensures Enlarged(outs, i, m)[k] == if k == i then outs[i].(bssSize := outs[i].bssSize + m) else outs[k]
  {
  }

  lemma EnlargedStep(r: Run, o: Out, m: nat)
    requires o.nobits
    ensures Past(r, o.(bssSize := o.bssSize + m)) == Run(Up(Past(r, o).c, m), Past(r, o).open)
  {
    hide NextMultiple;
  }

  /** Contents behind an enlarged NOBITS section move in memory and not in the file. */
  lemma SpotShifted(outs: seq<Out>, order: seq<nat>, start: Cursor, p: nat, m: nat, q: nat)
    requires Ordered(outs, order) && Indexes(outs, order) && p < q < |order| && outs[order[p]].nobits
    requires OnMultiple(m, PAGE) && forall i :: 0 <= i < |outs| ==> OnMultiple(m, outs[i].align)
    ensures Indexes(Enlarged(outs, order[p], m), order)
    ensures SpotAt(Enlarged(outs, order[p], m), order, start, q) == Up(SpotAt(outs, order, start, q), m)
  {
    hide *;
    RunShifted(outs, order, start, p, m, q);
    OrderDistinct(outs, order, p, q);
    EnlargedIndexes(outs, order, p, m);
    EnlargedAt(outs, order[p], m, order[q]);
    RunNext(outs, order, start, q);
    RunNext(Enlarged(outs, order[p], m), order, start, q);
    StepShifted(RunAt(outs, order, start, q), outs[order[q]], m);
  }

  /** One of two sizes of a NOBITS section before contents breaks congruence. */
  lemma NobitsBreaks(outs: seq<Out>, order: seq<nat>, start: Cursor, p: nat, q: nat)
    requires Ordered(outs, order) && Indexes(outs, order) && p < q < |order|
    requires outs[order[p]].nobits && !outs[order[q]].nobits
    ensures var big := Enlarged(outs, order[p], Common(outs));
      && Resized(outs, outs) && Resized(outs, big) && Indexes(big, order)
      && !(Congruent(outs, order, start) && Congruent(big, order, start))
  {
    var m := Common(outs);
    CommonDivides(outs);
    SpotShifted(outs, order, start, p, m, q);
    OrderDistinct(outs, order, p, q);
    var big := Enlarged(outs, order[p], m);
    assert !big[order[q]].nobits;
    hide SpotAt, Common, OnMultiple, Ordered;
  }

  /**
   * The layout is congruent for every choice of NOBITS sizes exactly when contents alignments divide the
   * base and every NOBITS section comes after every section with contents.
   */
  lemma CongruentForAllSizes(outs: seq<Out>, order: seq<nat>, start: Cursor)
    requires Ordered(outs, order) && Indexes(outs, order) && InStep(start)
    ensures (forall t :: Resized(outs, t) ==> Indexes(t, order) && Congruent(t, order, start))
       <==> (ContentsDivide(outs) && NobitsBehind(outs))
  {
    hide Congruent, Precedes, OnMultiple;
    if ContentsDivide(outs) && NobitsBehind(outs) {
      forall t | Resized(outs, t) ensures Indexes(t, order) && Congruent(t, order, start) {
        ResizedOrder(outs, t, order);
        ResizedConditions(outs, t);
        CongruentHolds(t, order, start);
      }
    }
    if forall t :: Resized(outs, t) ==> Indexes(t, order) && Congruent(t, order, start) {
      assert Resized(outs, outs);
      CongruentDivides(outs, order, start);
      forall i, j | 0 <= i < |outs| && 0 <= j < |outs| && outs[i].nobits && !outs[j].nobits
        ensures Precedes(outs, j, i)
      {
        var p := PlaceOf(outs, order, i);
        var q := PlaceOf(outs, order, j);
        if p < q {
          NobitsBreaks(outs, order, start, p, q);
        }
      }
    }
  }

  lemma ResizedConditions(a: seq<Out>, b: seq<Out>)
    requires Resized(a, b) && ContentsDivide(a) && NobitsBehind(a)
    ensures ContentsDivide(b) && NobitsBehind(b)
  {
    hide OnMultiple;
    forall i, j | 0 <= i < |b| && 0 <= j < |b| && b[i].nobits && !b[j].nobits ensures Precedes(b, j, i) {
      assert Precedes(a, j, i);
      SameRank(a[i], b[i]);
      SameRank(a[j], b[j]);
    }
  }

  /** The loop on an executable NOBITS section and the text behind it: the text's address is one too high. */
  lemma ExecutableNobitsShifts()
    ensures var bss := Out(".x", 7, 0, 1, true, 1, [], 0, 0);
      var text := Out(".text", 6, 0, 1, false, 0, [0x90], 0, 0);
      var outs, order, start := [bss, text], [0, 1], HeaderEnd(3);
      && Ordered(outs, order) && Indexes(outs, order) && ContentsDivide(outs) && !NobitsBehind(outs)
      && SpotAt(outs, order, start, 1) == Cursor(0x1000, BASE_VADDR + 0x1000 + 1)
      && !Congruent(outs, order, start)
  {
    var bss := Out(".x", 7, 0, 1, true, 1, [], 0, 0);
    var text := Out(".text", 6, 0, 1, false, 0, [0x90], 0, 0);
    var outs, order, start := [bss, text], [0, 1], HeaderEnd(3);
    assert Has(7, SHF_EXECINSTR) && Has(6, SHF_EXECINSTR) && Has(7, SHF_WRITE) && !Has(6, SHF_WRITE);
    assert RunAt(outs, order, start, 0) == Run(start, false);
    assert From(Run(start, false), bss) == Cursor(0x1000, BASE_VADDR + 0x1000);
    assert RunAt(outs, order, start, 1) == Run(Cursor(0x1000, BASE_VADDR + 0x1000 + 1), true);
    assert !outs[order[1]].nobits;
  }

  // ---- the whole layout -----------------------------------------------------------------------------------

  /**
   * Sections are aligned and disjoint in memory and in the file, past the headers; the writable ones
   * start on a page of their own; and each stands where the loop's function puts it, so that contents
   * at file offset f are at BASE + f under exactly the conditions proved above.
   */
  method PlaceOutputs(outs: seq<Out>, phnum: nat)
    returns (placed: seq<Out>, order: seq<nat>, rw: Option<nat>, ghost edge: Cursor, ghost end: Cursor)
    ensures Ordered(outs, order) && SameOuts(placed, outs) && Indexes(outs, order) && Indexes(placed, order)
    ensures Laid(placed, order, |order|, end) && Divided(placed, order, |order|, rw, edge, end)
    ensures Clear(placed, order, |order|, HeaderEnd(phnum), end)
    ensures Follows(outs, placed, order, HeaderEnd(phnum), |order|)
    ensures Run(end, rw.Some?) == RunAt(outs, order, HeaderEnd(phnum), |order|)
    ensures NobitsBehind(outs) ==> (MappedInStep(placed) <==> ContentsDivide(outs))
    ensures MappedInStep(placed) <==> (ContentsDivide(outs) && GapsFit(outs, order, HeaderEnd(phnum)))
  {
    order := SortByRank(outs);
    var header := 64 + 56 * phnum;
    placed, rw, edge, end := PlaceFrom(outs, order, Cursor(header, BASE_VADDR + header));
    hide *;
    HeaderInStep(phnum);
    ProgressFacts(outs, placed, order, |order|, end);
    MappedExactly(outs, placed, order, HeaderEnd(phnum));
  }

  lemma HeaderInStep(phnum: nat)
    ensures HeaderEnd(phnum) == Cursor(64 + 56 * phnum, BASE_VADDR + (64 + 56 * phnum)) && InStep(HeaderEnd(phnum))
  {
  }

  lemma MappedExactly(outs: seq<Out>, placed: seq<Out>, order: seq<nat>, start: Cursor)
    requires Ordered(outs, order) && SameOuts(placed, outs) && Indexes(outs, order) && Indexes(placed, order)
    requires Follows(outs, placed, order, start, |order|) && InStep(start)
    ensures NobitsBehind(outs) ==> (MappedInStep(placed) <==> ContentsDivide(outs))
    ensures MappedInStep(placed) <==> (ContentsDivide(outs) && GapsFit(outs, order, start))
  {
    hide *;
    MappedIsCongruent(outs, placed, order, start);
    if NobitsBehind(outs) {
      CongruentExactly(outs, order, start);
    }
    CongruentAtSizes(outs, order, start);
  }

  /** Contents at file offset f are mapped at BASE + f, read off the placed sections. */
  ghost predicate MappedInStep(placed: seq<Out>) {
    forall i :: 0 <= i < |placed| && !placed[i].nobits ==> placed[i].vaddr == BASE_VADDR + placed[i].fileOff
  }

  lemma MappedIsCongruent(outs: seq<Out>, placed: seq<Out>, order: seq<nat>, start: Cursor)
    requires Ordered(outs, order) && SameOuts(placed, outs) && Indexes(outs, order) && Indexes(placed, order)
    requires Follows(outs, placed, order, start, |order|)
    ensures MappedInStep(placed) <==> Congruent(outs, order, start)
  {
    hide SpotAt;
    forall p | 0 <= p < |order|
      ensures StandsAt(placed[order[p]], SpotAt(outs, order, start, p))
      ensures placed[order[p]].nobits == outs[order[p]].nobits
    {
      assert SameContent(placed[order[p]], outs[order[p]]);
    }
    if Congruent(outs, order, start) {
      forall i | 0 <= i < |placed| && !placed[i].nobits ensures placed[i].vaddr == BASE_VADDR + placed[i].fileOff {
        var p := PlaceOf(outs, order, i);
      }
    }
  }

  // ---- the placement is determined by the merged sections ---------------------------------------------------

  /** A section not among the first `p` comes at place `p` or after what is there. */
  lemma NotBefore(outs: seq<Out>, order: seq<nat>, p: nat, i: nat)
    requires Ordered(outs, order) && p <= |order| && i < |outs| && forall k :: 0 <= k < p ==> order[k] != i
    ensures p < |order| && order[p] < |outs| && (order[p] == i || Precedes(outs, order[p], i))
  {
    var q := PlaceOf(outs, order, i);
    hide Precedes;
    assert p <= q && (q == p || Precedes(outs, order[p], order[q]));
  }

  /** Orders that agree up to a place agree at it. */
  lemma OrderNext(outs: seq<Out>, a: seq<nat>, b: seq<nat>, p: nat)
    requires Ordered(outs, a) && Ordered(outs, b) && p < |a| && p <= |b|
    requires forall k :: 0 <= k < p ==> a[k] == b[k]
    ensures p < |b| && a[p] == b[p]
  {
    forall k | 0 <= k < p ensures a[k] != a[p] {
      OrderDistinct(outs, a, k, p);
    }
    NotBefore(outs, b, p, a[p]);
    forall k | 0 <= k < p ensures b[k] != b[p] {
      OrderDistinct(outs, b, k, p);
    }
    NotBefore(outs, a, p, b[p]);
  }

  lemma {:induction false} OrderPrefix(outs: seq<Out>, a: seq<nat>, b: seq<nat>, n: nat)
    requires Ordered(outs, a) && Ordered(outs, b) && n <= |a|
    ensures n <= |b| && forall k :: 0 <= k < n ==> a[k] == b[k]
  {
    hide Ordered;
    if n > 0 {
      OrderPrefix(outs, a, b, n - 1);
      OrderNext(outs, a, b, n - 1);
    }
  }

  /** There is one order. */
  lemma OrderUnique(outs: seq<Out>, a: seq<nat>, b: seq<nat>)
    requires Ordered(outs, a) && Ordered(outs, b)
    ensures a == b
  {
    OrderPrefix(outs, a, b, |a|);
    OrderPrefix(outs, b, a, |b|);
  }

  /** And one placement. */
  lemma PlacementDetermined(outs: seq<Out>, x: seq<Out>, a: seq<nat>, y: seq<Out>, b: seq<nat>, start: Cursor)
    requires Ordered(outs, a) && Indexes(outs, a) && Indexes(x, a) && SameOuts(x, outs)
    requires Follows(outs, x, a, start, |a|)
    requires Ordered(outs, b) && Indexes(outs, b) && Indexes(y, b) && SameOuts(y, outs)
    requires Follows(outs, y, b, start, |b|)
    ensures a == b && x == y
  {
    OrderUnique(outs, a, b);
    hide SpotAt;
    forall i | 0 <= i < |x| ensures x[i] == y[i] {
      var p := PlaceOf(outs, a, i);
      assert StandsAt(x[a[p]], SpotAt(outs, a, start, p)) && StandsAt(y[a[p]], SpotAt(outs, a, start, p));
      assert SameContent(x[i], outs[i]) && SameContent(y[i], outs[i]);
    }
  }
}
