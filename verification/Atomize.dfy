/** Splitting a regular Mach-O section into atoms at its ordinary symbols. */
module Atomize {
  import opened Wrappers
  import opened Arith
  import opened Bytes

  /** A symbol of the section: its index in the object, its offset, `.alt_entry`, external or private extern. */
  datatype Sym = Sym(index: nat, offset: nat, alt: bool, global: bool)

  datatype Sect = Sect(data: seq<byte>, align: nat)

  datatype Alt = Alt(sym: nat, local: nat, explicit: bool)

  datatype Atom = Atom(start: nat, size: nat, align: nat, data: seq<byte>, alts: seq<Alt>)

  /** `owners` maps a symbol to an atom number, `altEntries` to an atom number and an offset in it. */
  datatype Out = Out(atoms: seq<Atom>, owners: seq<(nat, nat)>, altEntries: seq<(nat, nat, nat)>)

  ghost predicate Sorted(syms: seq<Sym>) {
    forall i, j :: 0 <= i < j < |syms| ==> syms[i].offset <= syms[j].offset
  }

  /** No ordinary symbol lies past the end of the section. */
  ghost predicate Fits(sect: Sect, syms: seq<Sym>) {
    forall k :: 0 <= k < |syms| && !syms[k].alt ==> syms[k].offset <= |sect.data|
  }

  // ---- alignment -------------------------------------------------------------------------

  function TrailingZeros(n: nat): nat
    requires n > 0
  {
    if n % 2 == 1 then 0 else 1 + TrailingZeros(n / 2)
  }

  function AtomAlignment(sectionAlign: nat, offset: nat): nat {
    Min(Min(sectionAlign, if offset == 0 then 0xFFFF_FFFF else TrailingZeros(offset)), 255)
  }

  lemma {:induction false} HalfDivides(n: nat, k: nat)
    requires k > 0 && n % 2 == 0
    ensures n % Pow2(k) == 0 <==> n / 2 % Pow2(k - 1) == 0
  {
    var m, p := n / 2, Pow2(k - 1);
    assert n == 2 * m && Pow2(k) == 2 * p;
    if n % (2 * p) == 0 {
      var q := n / (2 * p);
      assert m == p * q;
      MultipleDivides(p, q);
    }
    if m % p == 0 {
      var q := m / p;
      assert n == (2 * p) * q;
      MultipleDivides(2 * p, q);
    }
  }

  lemma OddNotDivided(n: nat, k: nat)
    requires k > 0 && n % Pow2(k) == 0
    ensures n % 2 == 0
  {
    var p := Pow2(k - 1);
    assert Pow2(k) == 2 * p;
    MultipleDivides(2, p);
    DividesTransitive(2, 2 * p, n);
  }

  /** A power of two divides a number exactly up to its trailing zeros. */
  lemma {:induction false} TrailingZerosExact(n: nat, k: nat)
    requires n > 0
    ensures n % Pow2(k) == 0 <==> k <= TrailingZeros(n)
  {
    if k > 0 {
      if n % 2 == 0 {
        HalfDivides(n, k);
        TrailingZerosExact(n / 2, k - 1);
      } else {
        if n % Pow2(k) == 0 {
          OddNotDivided(n, k);
        }
      }
    }
  }

  /** `atom_alignment_pow2` is the greatest alignment the section's own guarantees at the offset. */
  lemma AtomAlignmentExact(sectionAlign: nat, offset: nat, k: nat)
    requires offset < 0x1_0000_0000
    ensures k <= AtomAlignment(sectionAlign, offset) <==>
      k <= sectionAlign && k <= 255 && offset % Pow2(k) == 0
  {
    if offset > 0 {
      TrailingZerosExact(offset, k);
    }
  }

  // ---- tiling ---------------------------------------------------------------------------------

  /** The atoms are adjacent slices of the section's bytes from 0 to `cover`. */
  ghost predicate Tiled(sect: Sect, atoms: seq<Atom>, cover: nat)
    decreases |atoms|
  {
    if atoms == [] then cover == 0
    else
      var last := atoms[|atoms| - 1];
      && last.start + last.size == cover <= |sect.data|
      && last.data == sect.data[last.start..cover]
      && last.align == AtomAlignment(sect.align, last.start)
      && Tiled(sect, atoms[..|atoms| - 1], last.start)
  }

  function AtomBytes(atoms: seq<Atom>): seq<byte> {
    if atoms == [] then [] else AtomBytes(atoms[..|atoms| - 1]) + atoms[|atoms| - 1].data
  }

  lemma {:induction false} TiledBytes(sect: Sect, atoms: seq<Atom>, cover: nat)
    requires Tiled(sect, atoms, cover)
    ensures cover <= |sect.data| && AtomBytes(atoms) == sect.data[..cover]
    decreases |atoms|
  {
    if atoms != [] {
      var last := atoms[|atoms| - 1];
      TiledBytes(sect, atoms[..|atoms| - 1], last.start);
      assert sect.data[..last.start] + sect.data[last.start..cover] == sect.data[..cover];
    }
  }

  /** Adjacent: the first atom starts at 0 and each next one where the one before ends. */
  lemma {:induction false} TiledAdjacent(sect: Sect, atoms: seq<Atom>, cover: nat, k: nat)
    requires Tiled(sect, atoms, cover) && k < |atoms|
    ensures atoms[k].start == if k == 0 then 0 else atoms[k - 1].start + atoms[k - 1].size
    ensures atoms[k].start + atoms[k].size == if k + 1 < |atoms| then atoms[k + 1].start else cover
    ensures atoms[k].start + atoms[k].size <= |sect.data|
    ensures atoms[k].data == sect.data[atoms[k].start..atoms[k].start + atoms[k].size]
    ensures atoms[k].align == AtomAlignment(sect.align, atoms[k].start)
    decreases |atoms|
  {
    var n := |atoms| - 1;
    if k < n {
      TiledAdjacent(sect, atoms[..n], atoms[n].start, k);
    }
    if k == n && k > 0 {
      TiledAdjacent(sect, atoms[..n], atoms[n].start, k - 1);
    }
  }

  // ---- what is recorded for symbols ---------------------------------------------------------------

  type Place = (nat, nat, bool)   // a symbol's index, its offset in the section and whether it is an alternate entry

  function PlaceOf(s: Sym): Place { (s.index, s.offset, s.alt) }

  ghost predicate OrdinaryAt(syms: seq<Sym>, offset: nat) {
    exists k :: 0 <= k < |syms| && !syms[k].alt && syms[k].offset == offset
  }

  /** A later ordinary symbol has the same offset. */
  ghost predicate Shadowed(syms: seq<Sym>, k: nat)
    requires k < |syms|
  {
    exists m :: k < m < |syms| && !syms[m].alt && syms[m].offset == syms[k].offset
  }

  ghost predicate NoOrdinary(syms: seq<Sym>) {
    forall k :: 0 <= k < |syms| ==> syms[k].alt
  }

  /**
   * The symbols recorded as entries of an atom: global alternate entries, unless they lie at or past
   * the end of the section away from every ordinary symbol, and all but the last of the ordinary
   * symbols of one offset.
   */
  ghost predicate Entered(syms: seq<Sym>, size: nat, k: nat)
    requires k < |syms|
  {
    var s := syms[k];
    s.global && if s.alt then s.offset < size || NoOrdinary(syms) || OrdinaryAt(syms, s.offset) else Shadowed(syms, k)
  }

  ghost function Entries(syms: seq<Sym>, size: nat, lo: nat, hi: nat): seq<Place>
    requires lo <= hi <= |syms|
    decreases hi
  {
    if lo == hi then []
    else Entries(syms, size, lo, hi - 1) +
         if Entered(syms, size, hi - 1) then [PlaceOf(syms[hi - 1])] else []
  }

  function Ordinary(syms: seq<Sym>, lo: nat, hi: nat): seq<Place>
    requires lo <= hi <= |syms|
    decreases hi
  {
    if lo == hi then []
    else Ordinary(syms, lo, hi - 1) +
         if !syms[hi - 1].alt && syms[hi - 1].global then [PlaceOf(syms[hi - 1])] else []
  }

  lemma {:induction false} EntriesJoin(syms: seq<Sym>, size: nat, lo: nat, mid: nat, hi: nat)
    requires lo <= mid <= hi <= |syms|
    ensures Entries(syms, size, lo, hi) == Entries(syms, size, lo, mid) + Entries(syms, size, mid, hi)
    decreases hi
  {
    hide Entered;
    if mid < hi {
      EntriesJoin(syms, size, lo, mid, hi - 1);
    }
  }

  lemma {:induction false} OrdinaryJoin(syms: seq<Sym>, lo: nat, mid: nat, hi: nat)
    requires lo <= mid <= hi <= |syms|
    ensures Ordinary(syms, lo, hi) == Ordinary(syms, lo, mid) + Ordinary(syms, mid, hi)
    decreases hi
  {
    if mid < hi {
      OrdinaryJoin(syms, lo, mid, hi - 1);
    }
  }

  lemma {:induction false} NoneEntered(syms: seq<Sym>, size: nat, lo: nat, hi: nat)
    requires lo <= hi <= |syms| && forall k :: lo <= k < hi ==> !Entered(syms, size, k)
    ensures Entries(syms, size, lo, hi) == []
    decreases hi
  {
    hide Entered;
    if lo < hi {
      NoneEntered(syms, size, lo, hi - 1);
    }
  }

  lemma {:induction false} NoneOrdinary(syms: seq<Sym>, lo: nat, hi: nat)
    requires lo <= hi <= |syms| && forall k :: lo <= k < hi ==> syms[k].alt
    ensures Ordinary(syms, lo, hi) == []
    decreases hi
  {
    if lo < hi {
      NoneOrdinary(syms, lo, hi - 1);
    }
  }

  /** Where an atom's entries say their symbols are. */
  function PlacesOf(alts: seq<Alt>, start: nat): seq<Place> {
    if alts == [] then []
    else
      var last := alts[|alts| - 1];
      PlacesOf(alts[..|alts| - 1], start) + [(last.sym, start + last.local, last.explicit)]
  }

  function Places(atoms: seq<Atom>): seq<Place> {
    if atoms == [] then []
    else Places(atoms[..|atoms| - 1]) + PlacesOf(atoms[|atoms| - 1].alts, atoms[|atoms| - 1].start)
  }

  function NumberedOf(alts: seq<Alt>, n: nat): seq<(nat, nat, nat)> {
    if alts == [] then []
    else NumberedOf(alts[..|alts| - 1], n) + [(alts[|alts| - 1].sym, n, alts[|alts| - 1].local)]
  }

  /** The same entries as a table from symbols to atoms. */
  function Numbered(atoms: seq<Atom>): seq<(nat, nat, nat)> {
    if atoms == [] then []
    else Numbered(atoms[..|atoms| - 1]) + NumberedOf(atoms[|atoms| - 1].alts, |atoms| - 1)
  }

  ghost predicate InRange(atoms: seq<Atom>, owners: seq<(nat, nat)>) {
    forall j :: 0 <= j < |owners| ==> owners[j].1 < |atoms|
  }

  /** Where the owned atoms start. */
  function Starts(atoms: seq<Atom>, owners: seq<(nat, nat)>): seq<Place>
    requires InRange(atoms, owners)
  {
    if owners == [] then []
    else
      var n := |owners| - 1;
      Starts(atoms, owners[..n]) + [(owners[n].0, atoms[owners[n].1].start, false)]
  }

  lemma {:induction false} StartsStay(atoms: seq<Atom>, atom: Atom, owners: seq<(nat, nat)>)
    requires InRange(atoms, owners)
    ensures InRange(atoms + [atom], owners) && Starts(atoms + [atom], owners) == Starts(atoms, owners)
  {
    if owners != [] {
      StartsStay(atoms, atom, owners[..|owners| - 1]);
    }
  }

  /** The symbols before `i` are accounted for and the bytes before `cover` belong to atoms. */
  ghost predicate Cut(sect: Sect, syms: seq<Sym>, i: nat, cover: nat, out: Out) {
    && i <= |syms|
    && Tiled(sect, out.atoms, cover)
    && out.altEntries == Numbered(out.atoms)
    && Places(out.atoms) == Entries(syms, |sect.data|, 0, i)
    && InRange(out.atoms, out.owners)
    && Starts(out.atoms, out.owners) == Ordinary(syms, 0, i)
  }

  /** Entries lie inside their atom, unless no ordinary symbol cuts the section. */
  ghost predicate EntriesInside(syms: seq<Sym>, a: Atom) {
    forall k :: 0 <= k < |a.alts| ==> a.alts[k].local == 0 || a.alts[k].local < a.size || NoOrdinary(syms)
  }

  ghost predicate StartsAtom(atoms: seq<Atom>, offset: nat) {
    exists n :: 0 <= n < |atoms| && atoms[n].start == offset
  }

  /** Atoms start at 0 and at the offsets of the ordinary symbols before `i`, local ones included, and nowhere else. */
  ghost predicate AtBoundaries(syms: seq<Sym>, i: nat, atoms: seq<Atom>) {
    && i <= |syms|
    && (if atoms == [] then i < |syms| && syms[i].offset == 0 else atoms[0].start == 0)
    && (forall n :: 0 < n < |atoms| ==> OrdinaryAt(syms, atoms[n].start))
    && (forall n, m :: 0 <= n < m < |atoms| ==> atoms[n].start < atoms[m].start)
    && (i < |syms| ==> forall n :: 0 <= n < |atoms| ==> atoms[n].start < syms[i].offset)
    && (forall k :: 0 <= k < i && !syms[k].alt ==> StartsAtom(atoms, syms[k].offset))
    && (forall n :: 0 <= n < |atoms| ==> EntriesInside(syms, atoms[n]))
  }

  lemma PushBoundary(syms: seq<Sym>, i: nat, next: nat, atoms: seq<Atom>, atom: Atom)
    requires AtBoundaries(syms, i, atoms) && i < next <= |syms| && OrdinaryAt(syms, syms[i].offset)
    requires atom.start == syms[i].offset && EntriesInside(syms, atom)
    requires next < |syms| ==> syms[i].offset < syms[next].offset
    requires forall k :: i <= k < next && !syms[k].alt ==> syms[k].offset == syms[i].offset
    ensures AtBoundaries(syms, next, atoms + [atom])
  {
    hide OrdinaryAt, EntriesInside;
    var more := atoms + [atom];
    assert more[|atoms|] == atom;
    forall k | 0 <= k < next && !syms[k].alt ensures StartsAtom(more, syms[k].offset) {
      if k < i {
        var n :| 0 <= n < |atoms| && atoms[n].start == syms[k].offset;
        assert more[n].start == syms[k].offset;
      }
    }
  }

  // ---- the pieces of the loop -----------------------------------------------------------------------

  /** `find_next_atom_boundary`: the first place at the next offset that has an ordinary symbol. */
  method FindNextBoundary(syms: seq<Sym>, from: nat) returns (r: Option<nat>)
    requires Sorted(syms) && from <= |syms|
    ensures r.None? ==> forall k :: from <= k < |syms| ==> syms[k].alt
    ensures r.Some? ==> from <= r.value < |syms|
    ensures r.Some? ==> forall k :: from <= k < r.value ==> syms[k].alt && syms[k].offset < syms[r.value].offset
    ensures r.Some? ==> exists k :: r.value <= k < |syms| && !syms[k].alt && syms[k].offset == syms[r.value].offset
  {
    var k := from;
    while k < |syms| && syms[k].alt
      invariant from <= k <= |syms|
      invariant forall m :: from <= m < k ==> syms[m].alt
    {
      k := k + 1;
    }
    if k == |syms| {
      return None;
    }
    var boundary := syms[k].offset;
    var start := from;
    while syms[start].offset != boundary
      invariant from <= start <= k
      invariant forall m :: from <= m < start ==> syms[m].offset != boundary
      decreases k - start
    {
      start := start + 1;
    }
    assert forall m :: from <= m < start ==> syms[m].offset < boundary;
    return Some(start);
  }

  /** The atom at `i` covers the symbols up to `next`: one offset with ordinary symbols, then alternates. */
  ghost predicate Run(syms: seq<Sym>, i: nat, sameEnd: nat, next: nat) {
    && i < sameEnd <= next <= |syms|
    && (forall k :: 0 <= k < i ==> syms[k].offset < syms[i].offset)
    && (forall k :: i <= k < sameEnd ==> syms[k].offset == syms[i].offset)
    && (forall k :: sameEnd <= k < |syms| ==> syms[k].offset > syms[i].offset)
    && (forall k :: sameEnd <= k < next ==> syms[k].alt)
    && (next < |syms| ==> forall k :: 0 <= k < next ==> syms[k].offset < syms[next].offset)
    && (exists k :: i <= k < sameEnd && !syms[k].alt)
    && (next < |syms| ==> OrdinaryAt(syms, syms[next].offset))
  }

  ghost predicate Canonical(syms: seq<Sym>, i: nat, sameEnd: nat, c: nat) {
    i <= c < sameEnd <= |syms| && !syms[c].alt && forall k :: c < k < sameEnd ==> syms[k].alt
  }

  /** The test the entry loop applies, apart from stopping at the atom's end. */
  predicate Folds(syms: seq<Sym>, start: nat, c: nat, k: nat)
    requires k < |syms|
  {
    syms[k].global && (syms[k].alt || (syms[k].offset == start && k != c))
  }

  function NextOffset(syms: seq<Sym>, size: nat, next: nat): nat
    requires next <= |syms|
  {
    if next < |syms| then syms[next].offset else size
  }

  lemma OrdinaryOnlyAt(syms: seq<Sym>, i: nat, sameEnd: nat, next: nat, k: nat)
    requires Sorted(syms) && Run(syms, i, sameEnd, next) && sameEnd <= k < next
    ensures !OrdinaryAt(syms, syms[k].offset)
  {
    forall m | 0 <= m < |syms| && !syms[m].alt ensures syms[m].offset != syms[k].offset {
      if m < i {
        assert syms[m].offset < syms[i].offset < syms[k].offset;
      } else if m >= next {
        assert syms[k].offset < syms[next].offset <= syms[m].offset;
      } else {
        assert m < sameEnd;
      }
    }
  }

  /** The loop's tests decide exactly what is to be entered. */
  lemma FoldsExactly(sect: Sect, syms: seq<Sym>, i: nat, sameEnd: nat, next: nat, c: nat, k: nat)
    requires Sorted(syms) && Fits(sect, syms) && Run(syms, i, sameEnd, next) && Canonical(syms, i, sameEnd, c)
    requires i <= k < next
    ensures var end := NextOffset(syms, |sect.data|, next);
      Entered(syms, |sect.data|, k) <==>
      Folds(syms, syms[i].offset, c, k) && !(syms[k].offset > syms[i].offset && syms[k].offset >= end)
  {
    assert !NoOrdinary(syms);
    if k < sameEnd {
      assert OrdinaryAt(syms, syms[k].offset);
      if !syms[k].alt {
        if k == c {
          assert !Shadowed(syms, k);
        } else {
          assert k < c;
          assert Shadowed(syms, k);
        }
      }
    } else {
      OrdinaryOnlyAt(syms, i, sameEnd, next, k);
      if next < |syms| {
        BoundaryFits(sect, syms, next);
      }
    }
  }

  lemma BoundaryFits(sect: Sect, syms: seq<Sym>, i: nat)
    requires Fits(sect, syms) && BoundaryStart(syms, i)
    ensures syms[i].offset <= |sect.data|
  {
  }

  /** The first symbol of an offset that has an ordinary one. */
  ghost predicate BoundaryStart(syms: seq<Sym>, i: nat) {
    && i < |syms| && OrdinaryAt(syms, syms[i].offset)
    && forall k :: 0 <= k < i ==> syms[k].offset < syms[i].offset
  }

  /** The end of the symbols at the offset of `i`, and the last ordinary one among them. */
  method SameOffset(syms: seq<Sym>, i: nat) returns (sameEnd: nat, c: nat)
    requires Sorted(syms) && BoundaryStart(syms, i)
    ensures i < sameEnd <= |syms| && Canonical(syms, i, sameEnd, c)
    ensures forall k :: i <= k < sameEnd ==> syms[k].offset == syms[i].offset
    ensures forall k :: sameEnd <= k < |syms| ==> syms[k].offset > syms[i].offset
  {
    sameEnd := i;
    while sameEnd < |syms| && syms[sameEnd].offset <= syms[i].offset
      invariant i <= sameEnd <= |syms|
      invariant forall k :: i <= k < sameEnd ==> syms[k].offset == syms[i].offset
    {
      sameEnd := sameEnd + 1;
    }
    ghost var m :| 0 <= m < |syms| && !syms[m].alt && syms[m].offset == syms[i].offset;
    c := sameEnd - 1;
    while syms[c].alt
      invariant i <= m <= c < sameEnd
      invariant forall k :: c < k < sameEnd ==> syms[k].alt
      decreases c
    {
      c := c - 1;
    }
  }

  lemma RunFrom(syms: seq<Sym>, i: nat, sameEnd: nat, c: nat, boundary: Option<nat>)
    requires Sorted(syms) && BoundaryStart(syms, i) && Canonical(syms, i, sameEnd, c) && sameEnd <= |syms|
    requires forall k :: i <= k < sameEnd ==> syms[k].offset == syms[i].offset
    requires forall k :: sameEnd <= k < |syms| ==> syms[k].offset > syms[i].offset
    requires boundary.None? ==> forall k :: sameEnd <= k < |syms| ==> syms[k].alt
    requires boundary.Some? ==> sameEnd <= boundary.value < |syms| && OrdinaryAt(syms, syms[boundary.value].offset)
    requires boundary.Some? ==>
      forall k :: sameEnd <= k < boundary.value ==> syms[k].alt && syms[k].offset < syms[boundary.value].offset
    ensures var next := if boundary.Some? then boundary.value else |syms|;
      Run(syms, i, sameEnd, next) && (next < |syms| ==> BoundaryStart(syms, next))
  {
    var next := if boundary.Some? then boundary.value else |syms|;
    if next < |syms| {
      forall k | 0 <= k < next ensures syms[k].offset < syms[next].offset {
        if k < sameEnd {
          assert syms[k].offset <= syms[i].offset < syms[next].offset;
        }
      }
    }
  }

  lemma PlacesPush(alts: seq<Alt>, alt: Alt, start: nat)
    ensures PlacesOf(alts + [alt], start) == PlacesOf(alts, start) + [(alt.sym, start + alt.local, alt.explicit)]
  {
    assert (alts + [alt])[..|alts|] == alts;
  }

  /** The loop that collects an atom's entries. */
  method CollectEntries(sect: Sect, syms: seq<Sym>, i: nat, ghost sameEnd: nat, next: nat, c: nat, end: nat)
    returns (alts: seq<Alt>)
    requires Sorted(syms) && Run(syms, i, sameEnd, next) && Canonical(syms, i, sameEnd, c)
    requires Fits(sect, syms) ==> end == NextOffset(syms, |sect.data|, next)
    ensures Fits(sect, syms) ==> PlacesOf(alts, syms[i].offset) == Entries(syms, |sect.data|, i, next)
    ensures forall n :: 0 <= n < |alts| ==> alts[n].local == 0 || syms[i].offset + alts[n].local < end
  {
    alts := [];
    var start := syms[i].offset;
    ghost var fits := Fits(sect, syms);
    ghost var size := |sect.data|;
    if fits {
      forall k | i <= k < next
        ensures Entered(syms, size, k) <==>
          Folds(syms, start, c, k) && !(syms[k].offset > start && syms[k].offset >= end) {
        FoldsExactly(sect, syms, i, sameEnd, next, c, k);
      }
    }
    assert forall k :: i <= k < next ==> syms[k].offset >= start;
    hide Run, Canonical, Fits, Entered, Folds;
    var k := i;
    while k < next && !(syms[k].offset > start && syms[k].offset >= end)
      invariant i <= k <= next
      invariant fits ==> PlacesOf(alts, start) == Entries(syms, size, i, k)
      invariant forall n :: 0 <= n < |alts| ==> alts[n].local == 0 || start + alts[n].local < end
    {
      if Folds(syms, start, c, k) {
        var alt := Alt(syms[k].index, syms[k].offset - start, syms[k].alt);
        PlacesPush(alts, alt, start);
        alts := alts + [alt];
      }
      k := k + 1;
    }
    if fits {
      assert forall m :: k <= m < next ==> !Entered(syms, size, m);
      NoneEntered(syms, size, k, next);
      EntriesJoin(syms, size, i, k, next);
    }
  }

  /** The loop that records the ordinary symbols of the atom's offset. */
  method RecordOwners(syms: seq<Sym>, i: nat, sameEnd: nat, atoms: seq<Atom>, owners: seq<(nat, nat)>)
    returns (r: seq<(nat, nat)>)
    requires i < sameEnd <= |syms| && atoms != [] && InRange(atoms, owners)
    requires atoms[|atoms| - 1].start == syms[i].offset
    requires forall k :: i <= k < sameEnd ==> syms[k].offset == syms[i].offset
    ensures InRange(atoms, r) && Starts(atoms, r) == Starts(atoms, owners) + Ordinary(syms, i, sameEnd)
  {
    r := owners;
    for k := i to sameEnd
      invariant InRange(atoms, r) && Starts(atoms, r) == Starts(atoms, owners) + Ordinary(syms, i, k)
    {
      if !syms[k].alt && syms[k].global {
        var more := r + [(syms[k].index, |atoms| - 1)];
        assert more[..|r|] == r;
        r := more;
      }
    }
  }

  /** `build_slice_atom`; `None` where the source's slice would panic. */
  function BuildSlice(sect: Sect, start: nat, size: nat, alts: seq<Alt>): Option<Atom> {
    if start > |sect.data| then None
    else Some(Atom(start, size, AtomAlignment(sect.align, start),
                   sect.data[start..Min(start + size, |sect.data|)], alts))
  }

  /** Adding an atom whose entries are those of its run. */
  lemma PushAtom(sect: Sect, syms: seq<Sym>, i: nat, next: nat, cover: nat, out: Out, atom: Atom,
                 owners: seq<(nat, nat)>)
    requires i <= next <= |syms| && cover <= |sect.data| && atom.start <= cover
    requires Cut(sect, syms, i, atom.start, out)
    requires BuildSlice(sect, atom.start, cover - atom.start, atom.alts) == Some(atom)
    requires PlacesOf(atom.alts, atom.start) == Entries(syms, |sect.data|, i, next)
    requires InRange(out.atoms + [atom], owners)
    requires Starts(out.atoms + [atom], owners) == Ordinary(syms, 0, i) + Ordinary(syms, i, next)
    ensures Cut(sect, syms, next, cover,
                Out(out.atoms + [atom], owners, out.altEntries + NumberedOf(atom.alts, |out.atoms|)))
  {
    hide *;
    CutTables(sect, syms, i, atom.start, out);
    TiledPush(sect, out.atoms, atom, cover);
    ListsPush(out.atoms, atom);
    EntriesJoin(syms, |sect.data|, 0, i, next);
    OrdinaryJoin(syms, 0, i, next);
    CutOf(sect, syms, next, cover,
          Out(out.atoms + [atom], owners, out.altEntries + NumberedOf(atom.alts, |out.atoms|)));
  }

  lemma TiledPush(sect: Sect, atoms: seq<Atom>, atom: Atom, cover: nat)
    requires Tiled(sect, atoms, atom.start) && atom.start <= cover <= |sect.data|
    requires BuildSlice(sect, atom.start, cover - atom.start, atom.alts) == Some(atom)
    ensures Tiled(sect, atoms + [atom], cover)
  {
    hide AtomAlignment;
    var more := atoms + [atom];
    assert more[..|atoms|] == atoms && more[|more| - 1] == atom;
  }

  lemma ListsPush(atoms: seq<Atom>, atom: Atom)
    ensures Places(atoms + [atom]) == Places(atoms) + PlacesOf(atom.alts, atom.start)
    ensures Numbered(atoms + [atom]) == Numbered(atoms) + NumberedOf(atom.alts, |atoms|)
  {
    hide PlacesOf, NumberedOf;
    var more := atoms + [atom];
    assert more[..|atoms|] == atoms && more[|more| - 1] == atom;
  }

  lemma CutTables(sect: Sect, syms: seq<Sym>, i: nat, cover: nat, out: Out)
    requires Cut(sect, syms, i, cover, out)
    ensures i <= |syms| && Tiled(sect, out.atoms, cover)
    ensures out.altEntries == Numbered(out.atoms) && InRange(out.atoms, out.owners)
    ensures Places(out.atoms) == Entries(syms, |sect.data|, 0, i)
    ensures Starts(out.atoms, out.owners) == Ordinary(syms, 0, i)
  {
    hide Tiled, Entries, Ordinary, Places, Starts, Numbered;
  }

  lemma CutOf(sect: Sect, syms: seq<Sym>, i: nat, cover: nat, out: Out)
    requires i <= |syms| && Tiled(sect, out.atoms, cover)
    requires out.altEntries == Numbered(out.atoms) && InRange(out.atoms, out.owners)
    requires Places(out.atoms) == Entries(syms, |sect.data|, 0, i)
    requires Starts(out.atoms, out.owners) == Ordinary(syms, 0, i)
    ensures Cut(sect, syms, i, cover, out)
  {
    hide Tiled, Entries, Ordinary, Places, Starts, Numbered;
  }

  method FindRun(syms: seq<Sym>, i: nat) returns (sameEnd: nat, c: nat, next: nat)
    requires Sorted(syms) && BoundaryStart(syms, i)
    ensures Run(syms, i, sameEnd, next) && Canonical(syms, i, sameEnd, c)
    ensures next < |syms| ==> BoundaryStart(syms, next)
  {
    sameEnd, c := SameOffset(syms, i);
    var boundary := FindNextBoundary(syms, sameEnd);
    RunFrom(syms, i, sameEnd, c, boundary);
    next := if boundary.Some? then boundary.value else |syms|;
  }

  lemma RunFacts(sect: Sect, syms: seq<Sym>, i: nat, sameEnd: nat, next: nat)
    requires Run(syms, i, sameEnd, next) && BoundaryStart(syms, i) && (next < |syms| ==> BoundaryStart(syms, next))
    ensures i < sameEnd <= next <= |syms|
    ensures forall k :: i <= k < sameEnd ==> syms[k].offset == syms[i].offset
    ensures Ordinary(syms, i, next) == Ordinary(syms, i, sameEnd)
    ensures forall k :: i <= k < next && !syms[k].alt ==> syms[k].offset == syms[i].offset
    ensures Fits(sect, syms) ==> syms[i].offset <= NextOffset(syms, |sect.data|, next) <= |sect.data|
  {
    NoneOrdinary(syms, sameEnd, next);
    OrdinaryJoin(syms, i, sameEnd, next);
    if Fits(sect, syms) {
      BoundaryFits(sect, syms, i);
      if next < |syms| {
        BoundaryFits(sect, syms, next);
      }
    }
  }

  lemma NextFurther(syms: seq<Sym>, i: nat, sameEnd: nat, next: nat)
    requires Run(syms, i, sameEnd, next) && BoundaryStart(syms, i)
    ensures i < next <= |syms| && OrdinaryAt(syms, syms[i].offset)
    ensures next < |syms| ==> syms[i].offset < syms[next].offset
  {
  }

  /** One turn of the loop: the atom at the boundary `i`. */
  method CutAtom(sect: Sect, syms: seq<Sym>, i: nat, out: Out) returns (r: Option<Out>, next: nat)
    requires Sorted(syms) && BoundaryStart(syms, i)
    requires InRange(out.atoms, out.owners) && AtBoundaries(syms, i, out.atoms)
    requires Fits(sect, syms) ==> Cut(sect, syms, i, syms[i].offset, out)
    ensures r.Some? ==> AtBoundaries(syms, next, r.value.atoms)
    ensures r.None? ==> !Fits(sect, syms)
    ensures r.Some? ==> i < next <= |syms| && (next < |syms| ==> BoundaryStart(syms, next))
    ensures r.Some? ==> InRange(r.value.atoms, r.value.owners)
    ensures r.Some? ==> forall k :: i <= k < next && !syms[k].alt ==> syms[k].offset <= |sect.data|
    ensures r.Some? && Fits(sect, syms) ==> Cut(sect, syms, next, NextOffset(syms, |sect.data|, next), r.value)
  {
    hide *;
    var sameEnd, c;
    sameEnd, c, next := FindRun(syms, i);
    RunFacts(sect, syms, i, sameEnd, next);
    NextFurther(syms, i, sameEnd, next);
    var start, nextOffset := syms[i].offset, NextOffset(syms, |sect.data|, next);
    var size := if nextOffset >= start then nextOffset - start else 0;
    var alts := CollectEntries(sect, syms, i, sameEnd, next, c, start + size);
    var atom := BuildSlice(sect, start, size, alts);
    SliceIs(sect, syms, start, size, alts);
    if atom == None {
      return None, next;
    }
    var atoms := out.atoms + [atom.value];
    PushBoundary(syms, i, next, out.atoms, atom.value);
    StartsStay(out.atoms, atom.value, out.owners);
    var owners := RecordOwners(syms, i, sameEnd, atoms, out.owners);
    if Fits(sect, syms) {
      CutTables(sect, syms, i, start, out);
      PushAtom(sect, syms, i, next, nextOffset, out, atom.value, owners);
    }
    r := Some(Out(atoms, owners, out.altEntries + NumberedOf(alts, |out.atoms|)));
  }

  lemma SliceIs(sect: Sect, syms: seq<Sym>, start: nat, size: nat, alts: seq<Alt>)
    ensures var atom := BuildSlice(sect, start, size, alts);
      if start > |sect.data| then atom == None
      else atom.Some? && atom.value.start == start && atom.value.size == size && atom.value.alts == alts
    ensures var atom := BuildSlice(sect, start, size, alts);
      atom.Some? && (forall n :: 0 <= n < |alts| ==> alts[n].local == 0 || start + alts[n].local < start + size) ==>
        EntriesInside(syms, atom.value)
  {
    hide AtomAlignment, NoOrdinary;
  }

  /** Every entry is at the offset of one of the first `hi` symbols. */
  ghost predicate AtSymbols(syms: seq<Sym>, hi: nat, alts: seq<Alt>) {
    hi <= |syms| && forall n :: 0 <= n < |alts| ==> exists k :: 0 <= k < hi && alts[n].local == syms[k].offset
  }

  /** The entries of a head atom, or of the only atom of a section without ordinary symbols. */
  method CollectGlobals(sect: Sect, syms: seq<Sym>, hi: nat) returns (alts: seq<Alt>)
    requires hi <= |syms|
    ensures Fits(sect, syms) && (forall k :: 0 <= k < hi ==> (Entered(syms, |sect.data|, k) <==> syms[k].global)) ==>
      PlacesOf(alts, 0) == Entries(syms, |sect.data|, 0, hi)
    ensures AtSymbols(syms, hi, alts)
  {
    alts := [];
    ghost var wanted := forall k :: 0 <= k < hi ==> (Entered(syms, |sect.data|, k) <==> syms[k].global);
    hide Entered;
    for k := 0 to hi
      invariant wanted ==> PlacesOf(alts, 0) == Entries(syms, |sect.data|, 0, k)
      invariant AtSymbols(syms, k, alts)
    {
      if syms[k].global {
        var alt := Alt(syms[k].index, syms[k].offset, syms[k].alt);
        PlacesPush(alts, alt, 0);
        alts := alts + [alt];
      }
    }
  }

  const NOTHING := Out([], [], [])

  lemma StartsNothing(sect: Sect, syms: seq<Sym>)
    ensures Cut(sect, syms, 0, 0, NOTHING)
  {
  }

  lemma HeadFacts(sect: Sect, syms: seq<Sym>, first: nat)
    requires BoundaryStart(syms, first) && forall k :: 0 <= k < first ==> syms[k].alt
    ensures first < |syms| && Ordinary(syms, 0, first) == Ordinary(syms, 0, 0) == []
    ensures Cut(sect, syms, 0, 0, NOTHING) && NOTHING == Out([], [], []) && InRange([], [])
    ensures syms[first].offset == 0 ==> first == 0 && AtBoundaries(syms, 0, [])
    ensures Fits(sect, syms) ==> syms[first].offset <= |sect.data|
    ensures Fits(sect, syms) ==> forall k :: 0 <= k < first ==> (Entered(syms, |sect.data|, k) <==> syms[k].global)
  {
    StartsNothing(sect, syms);
    NoneOrdinary(syms, 0, first);
    if Fits(sect, syms) {
      BoundaryFits(sect, syms, first);
    }
  }

  lemma HeadInside(syms: seq<Sym>, first: nat, alts: seq<Alt>)
    requires BoundaryStart(syms, first)
    requires AtSymbols(syms, first, alts)
    ensures forall n :: 0 <= n < |alts| ==> alts[n].local < syms[first].offset
  {
    hide OrdinaryAt;
  }

  lemma HeadBoundary(syms: seq<Sym>, first: nat, atom: Atom)
    requires BoundaryStart(syms, first) && forall k :: 0 <= k < first ==> syms[k].alt
    requires atom.start == 0 < syms[first].offset && EntriesInside(syms, atom)
    ensures AtBoundaries(syms, first, [atom]) && InRange([atom], []) && Starts([atom], []) == []
  {
    hide OrdinaryAt, EntriesInside;
  }

  /** The unowned atom before the first ordinary symbol. */
  method CutHead(sect: Sect, syms: seq<Sym>, first: nat) returns (out: Out)
    requires Sorted(syms) && BoundaryStart(syms, first) && forall k :: 0 <= k < first ==> syms[k].alt
    ensures InRange(out.atoms, out.owners) && AtBoundaries(syms, first, out.atoms)
    ensures Fits(sect, syms) ==> Cut(sect, syms, first, syms[first].offset, out)
  {
    hide *;
    out := NOTHING;
    HeadFacts(sect, syms, first);
    var firstOffset := syms[first].offset;
    if firstOffset > 0 {
      var alts := CollectGlobals(sect, syms, first);
      var atom := BuildSlice(sect, 0, firstOffset, alts);
      HeadInside(syms, first, alts);
      SliceIs(sect, syms, 0, firstOffset, alts);
      out := Out([atom.value], [], NumberedOf(alts, 0));
      HeadBoundary(syms, first, atom.value);
      if Fits(sect, syms) {
        assert NOTHING.atoms + [atom.value] == [atom.value];
        assert NOTHING.altEntries + NumberedOf(alts, 0) == NumberedOf(alts, 0);
        PushAtom(sect, syms, 0, first, firstOffset, NOTHING, atom.value, []);
      }
    }
  }

  /** The single atom of a section without ordinary symbols. */
  method CutWhole(sect: Sect, syms: seq<Sym>) returns (out: Out)
    requires NoOrdinary(syms)
    ensures Cut(sect, syms, |syms|, |sect.data|, out) && AtBoundaries(syms, |syms|, out.atoms)
  {
    StartsNothing(sect, syms);
    var alts := CollectGlobals(sect, syms, |syms|);
    NoneOrdinary(syms, 0, |syms|);
    assert Fits(sect, syms);
    hide Entered;
    var atom := BuildSlice(sect, 0, |sect.data|, alts).value;
    out := Out([atom], [], NumberedOf(alts, 0));
    PushAtom(sect, syms, 0, |syms|, |sect.data|, NOTHING, atom, []);
  }

  /** The head atom and the loop over the boundaries. */
  method CutFrom(sect: Sect, syms: seq<Sym>, first: nat) returns (r: Option<Out>)
    requires Sorted(syms) && BoundaryStart(syms, first) && forall k :: 0 <= k < first ==> syms[k].alt
    ensures r.Some? <==> Fits(sect, syms)
    ensures r.Some? ==> Cut(sect, syms, |syms|, |sect.data|, r.value) && AtBoundaries(syms, |syms|, r.value.atoms)
  {
    hide *;
    var out := CutHead(sect, syms, first);
    var i := first;
    StartsAt(sect, syms, first);
    while i < |syms|
      invariant i <= |syms| && (i < |syms| ==> BoundaryStart(syms, i))
      invariant InRange(out.atoms, out.owners) && AtBoundaries(syms, i, out.atoms)
      invariant forall k :: 0 <= k < i && !syms[k].alt ==> syms[k].offset <= |sect.data|
      invariant Fits(sect, syms) ==> Cut(sect, syms, i, NextOffset(syms, |sect.data|, i), out)
    {
      StartsAt(sect, syms, i);
      var step, next := CutAtom(sect, syms, i, out);
      if step == None {
        return None;
      }
      out, i := step.value, next;
    }
    AllFit(sect, syms);
    return Some(out);
  }

  lemma StartsAt(sect: Sect, syms: seq<Sym>, i: nat)
    requires BoundaryStart(syms, i)
    ensures i < |syms| && NextOffset(syms, |sect.data|, i) == syms[i].offset
  {
  }

  lemma AllFit(sect: Sect, syms: seq<Sym>)
    requires forall k :: 0 <= k < |syms| && !syms[k].alt ==> syms[k].offset <= |sect.data|
    ensures Fits(sect, syms) && NextOffset(syms, |sect.data|, |syms|) == |sect.data|
  {
  }

  /**
   * `atomize_regular_section` on a section split at symbols.  It panics exactly when an ordinary symbol
   * lies past the end; otherwise the atoms tile the section, every ordinary global symbol owns the atom
   * that starts at its offset, and the entries give back the offsets of the symbols to be entered.
   * Atoms start at 0 and at ordinary symbols, local ones included, and nowhere else.
   */
  method AtomizeSplit(sect: Sect, syms: seq<Sym>) returns (r: Option<Out>)
    requires Sorted(syms)
    ensures r.Some? <==> Fits(sect, syms)
    ensures r.Some? ==> Cut(sect, syms, |syms|, |sect.data|, r.value) && AtBoundaries(syms, |syms|, r.value.atoms)
  {
    var first := FindNextBoundary(syms, 0);
    if first == None {
      var whole := CutWhole(sect, syms);
      return Some(whole);
    }
    assert BoundaryStart(syms, first.value);
    hide *;
    r := CutFrom(sect, syms, first.value);
  }

  // ---- what the lists say about one symbol -------------------------------------------------------------

  ghost predicate DistinctIndices(syms: seq<Sym>) {
    forall i, j :: 0 <= i < j < |syms| ==> syms[i].index != syms[j].index
  }

  /** The symbol is listed exactly once, at its own offset and as what it is. */
  ghost predicate OnceIn(places: seq<Place>, sym: Sym) {
    exists j :: 0 <= j < |places| && places[j] == PlaceOf(sym)
      && forall m :: 0 <= m < |places| && m != j ==> places[m].0 != sym.index
  }

  lemma OncePush(places: seq<Place>, sym: Sym, extra: Place)
    requires OnceIn(places, sym) && extra.0 != sym.index
    ensures OnceIn(places + [extra], sym)
  {
    var j :| 0 <= j < |places| && places[j] == PlaceOf(sym)
      && forall m :: 0 <= m < |places| && m != j ==> places[m].0 != sym.index;
    assert (places + [extra])[j] == PlaceOf(sym);
  }

  lemma {:induction false} EntriesFrom(syms: seq<Sym>, size: nat, lo: nat, hi: nat, j: nat)
    requires lo <= hi <= |syms| && j < |Entries(syms, size, lo, hi)|
    ensures exists k :: lo <= k < hi && Entered(syms, size, k) && Entries(syms, size, lo, hi)[j] == PlaceOf(syms[k])
    decreases hi
  {
    hide Entered;
    if j < |Entries(syms, size, lo, hi - 1)| {
      EntriesFrom(syms, size, lo, hi - 1, j);
    }
  }

  /** An entered symbol has exactly one entry, at its own offset; a symbol not entered has none. */
  lemma {:induction false} EntryOnce(syms: seq<Sym>, size: nat, hi: nat, k: nat)
    requires DistinctIndices(syms) && k < hi <= |syms|
    ensures var places := Entries(syms, size, 0, hi);
      if Entered(syms, size, k) then OnceIn(places, syms[k])
      else forall m :: 0 <= m < |places| ==> places[m].0 != syms[k].index
    decreases hi
  {
    hide Entered;
    var before := Entries(syms, size, 0, hi - 1);
    if k < hi - 1 {
      EntryOnce(syms, size, hi - 1, k);
      assert PlaceOf(syms[hi - 1]).0 == syms[hi - 1].index != syms[k].index;
      assert Entries(syms, size, 0, hi) == before || Entries(syms, size, 0, hi) == before + [PlaceOf(syms[hi - 1])];
      if Entered(syms, size, k) {
        OncePush(before, syms[k], PlaceOf(syms[hi - 1]));
      }
    } else {
      forall m | 0 <= m < |before| ensures before[m].0 != syms[k].index {
        EntriesFrom(syms, size, 0, hi - 1, m);
      }
      assert Entered(syms, size, k) ==> Entries(syms, size, 0, hi)[|before|] == PlaceOf(syms[k]);
    }
  }

  lemma {:induction false} OrdinaryFrom(syms: seq<Sym>, hi: nat, j: nat)
    requires hi <= |syms| && j < |Ordinary(syms, 0, hi)|
    ensures exists k :: 0 <= k < hi && !syms[k].alt && syms[k].global && Ordinary(syms, 0, hi)[j] == PlaceOf(syms[k])
    decreases hi
  {
    if j < |Ordinary(syms, 0, hi - 1)| {
      OrdinaryFrom(syms, hi - 1, j);
    }
  }

  /** An ordinary global symbol owns exactly one atom. */
  lemma {:induction false} OwnerOnce(syms: seq<Sym>, hi: nat, k: nat)
    requires DistinctIndices(syms) && k < hi <= |syms| && !syms[k].alt && syms[k].global
    ensures OnceIn(Ordinary(syms, 0, hi), syms[k])
    decreases hi
  {
    var before := Ordinary(syms, 0, hi - 1);
    if k < hi - 1 {
      OwnerOnce(syms, hi - 1, k);
      assert Ordinary(syms, 0, hi) == before || Ordinary(syms, 0, hi) == before + [PlaceOf(syms[hi - 1])];
      OncePush(before, syms[k], PlaceOf(syms[hi - 1]));
    } else {
      forall m | 0 <= m < |before| ensures before[m].0 != syms[k].index {
        OrdinaryFrom(syms, hi - 1, m);
      }
      assert Ordinary(syms, 0, hi)[|before|] == PlaceOf(syms[k]);
    }
  }

  /** Every global alternate entry below the section's size is recorded once, at its own offset. */
  lemma SymbolsPlaced(sect: Sect, syms: seq<Sym>, out: Out, k: nat)
    requires DistinctIndices(syms) && k < |syms|
    requires Cut(sect, syms, |syms|, |sect.data|, out)
    ensures syms[k].alt && syms[k].global && syms[k].offset < |sect.data| ==>
      OnceIn(Places(out.atoms), syms[k])
    ensures !syms[k].alt && syms[k].global ==> OnceIn(Starts(out.atoms, out.owners), syms[k])
    ensures AtomBytes(out.atoms) == sect.data
  {
    EntryOnce(syms, |sect.data|, |syms|, k);
    if !syms[k].alt && syms[k].global {
      OwnerOnce(syms, |syms|, k);
    }
    TiledBytes(sect, out.atoms, |sect.data|);
    assert sect.data[..|sect.data|] == sect.data;
  }

  // ---- the cut is determined by section and symbols ------------------------------------------------------

  /** A start of one list of atoms is a start of the other. */
  lemma SharedStart(syms: seq<Sym>, a: seq<Atom>, b: seq<Atom>, n: nat)
    requires AtBoundaries(syms, |syms|, a) && AtBoundaries(syms, |syms|, b) && n < |a|
    ensures StartsAtom(b, a[n].start)
  {
    if n == 0 {
      assert b[0].start == 0;
    } else {
      assert OrdinaryAt(syms, a[n].start);
      var k :| 0 <= k < |syms| && !syms[k].alt && syms[k].offset == a[n].start;
      assert StartsAtom(b, syms[k].offset);
    }
  }

  ghost predicate SameStarts(a: seq<Atom>, b: seq<Atom>, n: nat) {
    n <= |a| && n <= |b| && forall k :: 0 <= k < n ==> a[k].start == b[k].start
  }

  /** The next start of `b` is not after the next start of `a`. */
  lemma NextStart(syms: seq<Sym>, a: seq<Atom>, b: seq<Atom>, n: nat)
    requires AtBoundaries(syms, |syms|, a) && AtBoundaries(syms, |syms|, b) && SameStarts(a, b, n) && n < |a|
    ensures n < |b| && b[n].start <= a[n].start
  {
    SharedStart(syms, a, b, n);
    var m :| 0 <= m < |b| && b[m].start == a[n].start;
    hide OrdinaryAt, StartsAtom, EntriesInside;
    assert forall k :: 0 <= k < n ==> b[k].start < a[n].start;
  }

  lemma {:induction false} StartsAgree(syms: seq<Sym>, a: seq<Atom>, b: seq<Atom>, n: nat)
    requires AtBoundaries(syms, |syms|, a) && AtBoundaries(syms, |syms|, b) && n <= |a|
    ensures SameStarts(a, b, n)
  {
    hide AtBoundaries;
    if n > 0 {
      StartsAgree(syms, a, b, n - 1);
      NextStart(syms, a, b, n - 1);
      NextStart(syms, b, a, n - 1);
    }
  }

  /** A list of places on one side of an offset, joined with one on the other, comes apart in one way. */
  lemma SplitAt(a: seq<Place>, b: seq<Place>, c: seq<Place>, d: seq<Place>, offset: nat)
    requires a + b == c + d
    requires Below(a, offset) && Below(c, offset) && FromOn(b, offset) && FromOn(d, offset)
    ensures a == c && b == d
  {
    var all := a + b;
    Border(a, b, offset);
    Border(c, d, offset);
    assert |a| < |all| ==> offset <= all[|a|].1;
    assert |c| < |all| ==> offset <= all[|c|].1;
    assert a == all[..|a|] && b == all[|a|..];
    assert c == all[..|c|] && d == all[|c|..];
  }

  lemma Border(a: seq<Place>, b: seq<Place>, offset: nat)
    requires Below(a, offset) && FromOn(b, offset)
    ensures forall k :: 0 <= k < |a + b| ==> ((a + b)[k].1 < offset <==> k < |a|)
  {
    assert forall k :: |a| <= k < |a + b| ==> (a + b)[k] == b[k - |a|];
  }

  ghost predicate Below(places: seq<Place>, offset: nat) {
    forall k :: 0 <= k < |places| ==> places[k].1 < offset
  }

  ghost predicate FromOn(places: seq<Place>, offset: nat) {
    forall k :: 0 <= k < |places| ==> offset <= places[k].1
  }

  /** Every entry of an atom lies before `end`. */
  ghost predicate EntriesBefore(a: Atom, end: nat) {
    forall k :: 0 <= k < |a.alts| ==> a.start + a.alts[k].local < end
  }

  lemma {:induction false} PlacesWithin(a: Atom, alts: seq<Alt>, end: nat)
    requires alts <= a.alts
    ensures FromOn(PlacesOf(alts, a.start), a.start)
    ensures EntriesBefore(a, end) ==> Below(PlacesOf(alts, a.start), end)
    decreases |alts|
  {
    if alts != [] {
      PlacesWithin(a, alts[..|alts| - 1], end);
      assert alts[|alts| - 1] == a.alts[|alts| - 1];
    }
  }

  lemma {:induction false} PlacesBelow(atoms: seq<Atom>, end: nat)
    requires forall n :: 0 <= n < |atoms| ==> EntriesBefore(atoms[n], end)
    ensures Below(Places(atoms), end)
  {
    if atoms != [] {
      var n := |atoms| - 1;
      PlacesBelow(atoms[..n], end);
      PlacesWithin(atoms[n], atoms[n].alts, end);
    }
  }

  lemma {:induction false} EntriesFromPlaces(a: seq<Alt>, b: seq<Alt>, start: nat)
    requires PlacesOf(a, start) == PlacesOf(b, start)
    ensures a == b
  {
    if a != [] && b != [] {
      var n, m := |a| - 1, |b| - 1;
      var x, y := PlacesOf(a[..n], start), PlacesOf(b[..m], start);
      assert PlacesOf(a, start)[..|x|] == x && PlacesOf(b, start)[..|y|] == y;
      assert PlacesOf(a, start)[|x|] == (a[n].sym, start + a[n].local, a[n].explicit);
      assert PlacesOf(b, start)[|y|] == (b[m].sym, start + b[m].local, b[m].explicit);
      EntriesFromPlaces(a[..n], b[..m], start);
      assert a == a[..n] + [a[n]] && b == b[..m] + [b[m]];
    }
  }

  /** Strictly rising starts, with the entries of each atom before the next one. */
  ghost predicate Separate(atoms: seq<Atom>) {
    forall n, m :: 0 <= n < m < |atoms| ==> EntriesBefore(atoms[n], atoms[m].start)
  }

  /** Where the atoms start, the places of entries say whose they are. */
  lemma {:induction false} EntriesDetermined(a: seq<Atom>, b: seq<Atom>, n: nat)
    requires |a| == |b| && SameStarts(a, b, |a|) && Separate(a) && Separate(b) && Places(a) == Places(b)
    ensures n < |a| ==> a[n].alts == b[n].alts
    decreases |a|
  {
    if n < |a| {
      var m := |a| - 1;
      var start := a[m].start;
      PlacesBelow(a[..m], start);
      PlacesBelow(b[..m], start);
      PlacesWithin(a[m], a[m].alts, 0);
      PlacesWithin(b[m], b[m].alts, 0);
      SplitAt(Places(a[..m]), PlacesOf(a[m].alts, start), Places(b[..m]), PlacesOf(b[m].alts, start), start);
      EntriesFromPlaces(a[m].alts, b[m].alts, start);
      EntriesDetermined(a[..m], b[..m], n);
    }
  }

  /** Owners name the atom that starts where they say. */
  lemma {:induction false} OwnersDetermined(atoms: seq<Atom>, a: seq<(nat, nat)>, b: seq<(nat, nat)>)
    requires InRange(atoms, a) && InRange(atoms, b) && Starts(atoms, a) == Starts(atoms, b)
    requires forall n, m :: 0 <= n < m < |atoms| ==> atoms[n].start < atoms[m].start
    ensures a == b
    decreases |a|
  {
    if a != [] && b != [] {
      var n, m := |a| - 1, |b| - 1;
      var x, y := Starts(atoms, a[..n]), Starts(atoms, b[..m]);
      assert Starts(atoms, a)[..|x|] == x && Starts(atoms, b)[..|y|] == y;
      assert Starts(atoms, a)[|x|] == (a[n].0, atoms[a[n].1].start, false);
      assert Starts(atoms, b)[|y|] == (b[m].0, atoms[b[m].1].start, false);
      OwnersDetermined(atoms, a[..n], b[..m]);
      assert a == a[..n] + [a[n]] && b == b[..m] + [b[m]];
    }
  }

  lemma CutSeparate(sect: Sect, syms: seq<Sym>, out: Out)
    requires Cut(sect, syms, |syms|, |sect.data|, out) && AtBoundaries(syms, |syms|, out.atoms)
    ensures Separate(out.atoms)
  {
    CutTables(sect, syms, |syms|, |sect.data|, out);
    hide Cut, Tiled;
    forall n, m | 0 <= n < m < |out.atoms| ensures EntriesBefore(out.atoms[n], out.atoms[m].start) {
      TiledAdjacent(sect, out.atoms, |sect.data|, n);
      var next := n + 1;
      assert out.atoms[next].start <= out.atoms[m].start;
      assert OrdinaryAt(syms, out.atoms[next].start);
      assert EntriesInside(syms, out.atoms[n]);
    }
  }

  /** Two cuts of a section are the same: atoms, their entries, and the tables of owners and entries. */
  lemma CutDetermined(sect: Sect, syms: seq<Sym>, x: Out, y: Out)
    requires Cut(sect, syms, |syms|, |sect.data|, x) && AtBoundaries(syms, |syms|, x.atoms)
    requires Cut(sect, syms, |syms|, |sect.data|, y) && AtBoundaries(syms, |syms|, y.atoms)
    ensures x == y
  {
    hide *;
    StartsAgree(syms, x.atoms, y.atoms, |x.atoms|);
    StartsAgree(syms, y.atoms, x.atoms, |y.atoms|);
    SameCount(x.atoms, y.atoms);
    CutSeparate(sect, syms, x);
    CutSeparate(sect, syms, y);
    CutTables(sect, syms, |syms|, |sect.data|, x);
    CutTables(sect, syms, |syms|, |sect.data|, y);
    forall n | 0 <= n < |x.atoms| ensures x.atoms[n] == y.atoms[n] {
      AtomSame(sect, x.atoms, y.atoms, n);
      EntriesDetermined(x.atoms, y.atoms, n);
    }
    assert x.atoms == y.atoms;
    StartsRise(syms, x.atoms);
    OwnersDetermined(x.atoms, x.owners, y.owners);
  }

  lemma SameCount(a: seq<Atom>, b: seq<Atom>)
    requires SameStarts(a, b, |a|) && SameStarts(b, a, |b|)
    ensures |a| == |b|
  {
  }

  lemma StartsRise(syms: seq<Sym>, atoms: seq<Atom>)
    requires AtBoundaries(syms, |syms|, atoms)
    ensures forall n, m :: 0 <= n < m < |atoms| ==> atoms[n].start < atoms[m].start
  {
    hide OrdinaryAt, StartsAtom, EntriesInside;
  }

  lemma AtomSame(sect: Sect, a: seq<Atom>, b: seq<Atom>, n: nat)
    requires Tiled(sect, a, |sect.data|) && Tiled(sect, b, |sect.data|)
    requires |a| == |b| && SameStarts(a, b, |a|) && n < |a|
    ensures a[n].(alts := []) == b[n].(alts := [])
  {
    hide Tiled, AtomAlignment;
    TiledAdjacent(sect, a, |sect.data|, n);
    TiledAdjacent(sect, b, |sect.data|, n);
  }
}
