/** Identical code folding and offsets inside a target atom. */
module IcfOffsets {
  import opened Wrappers
  import opened Icf

  /** A referent with the offset its symbol has inside the atom it is defined in. */
  datatype Spot = Spot(what: FoldReferent, offset: nat)

  /** The offset that `normalize_referent` drops: the value of a global symbol defined in an atom. */
  function DroppedOffset(l: Link, syms: seq<Symbol>, input: InputId, ref: Referent): nat
    requires input in l.symbols && forall name :: name in l.resolved ==> l.resolved[name] < |syms|
  {
    if ref.SectionRef? || ref.index >= |l.symbols[input]| then 0 else
    var sym := l.symbols[input][ref.index];
    if !sym.participates || sym.name.None? || sym.name.value !in l.resolved then 0 else
    var target := syms[l.resolved[sym.name.value]];
    if target.Defined? && target.atom != 0 then target.value else 0
  }

  function SpotOf(l: Link, atoms: seq<Atom>, syms: seq<Symbol>, r: map<AtomId, AtomId>, input: InputId, ref: Referent)
    : Option<Spot>
    requires ValidLink(l, atoms, syms, r) && input in l.symbols
  {
    var what := Normalize(l, atoms, syms, r, input, ref);
    if what.None? then None else Some(Spot(what.value, DroppedOffset(l, syms, input, ref)))
  }

  /** A relocation's shape with its target and subtrahend down to the byte. */
  datatype SpotReloc = SpotReloc(
    offset: nat, kind: RelocKind, width: nat, pcrel: bool, target: Spot, addend: int, subtrahend: Option<Spot>)

  function SpotOne(l: Link, atoms: seq<Atom>, syms: seq<Symbol>, r: map<AtomId, AtomId>, atom: Atom, reloc: Reloc)
    : Option<SpotReloc>
    requires ValidLink(l, atoms, syms, r) && atom.origin in l.symbols && atom.inputOffset <= reloc.offset
  {
    var target := SpotOf(l, atoms, syms, r, atom.origin, reloc.referent);
    var subtrahend :=
      if reloc.subtrahend.Some? then SpotOf(l, atoms, syms, r, atom.origin, reloc.subtrahend.value) else None;
    if target.None? || (reloc.subtrahend.Some? && subtrahend.None?) then None
    else Some(SpotReloc(reloc.offset - atom.inputOffset, reloc.kind, reloc.width, reloc.pcrel,
                        target.value, reloc.addend, subtrahend))
  }

  function SpotAll(l: Link, atoms: seq<Atom>, syms: seq<Symbol>, r: map<AtomId, AtomId>, atom: Atom, relocs: seq<Reloc>)
    : Option<seq<SpotReloc>>
    requires ValidLink(l, atoms, syms, r) && atom.origin in l.symbols
    requires forall x :: x in relocs ==> atom.inputOffset <= x.offset
  {
    if relocs == [] then Some([]) else
    var first := SpotOne(l, atoms, syms, r, atom, relocs[0]);
    if first.None? then None else
    var rest := SpotAll(l, atoms, syms, r, atom, relocs[1..]);
    if rest.None? then None else Some([first.value] + rest.value)
  }

  /** An atom's relocations with every target down to the byte. */
  function Spots(l: Link, atoms: seq<Atom>, syms: seq<Symbol>, r: map<AtomId, AtomId>,
                 atom: Atom): Option<seq<SpotReloc>>
    requires ValidLink(l, atoms, syms, r)
  {
    if atom.origin !in l.symbols then None else SpotAll(l, atoms, syms, r, atom, RelocsAt(l, atom))
  }

  /** Every name relocations resolve to an atom stands at the start of its atom. */
  ghost predicate AtStarts(l: Link, syms: seq<Symbol>) {
    forall name :: name in l.resolved && l.resolved[name] < |syms| ==>
      var s := syms[l.resolved[name]]; s.Defined? && s.atom != 0 ==> s.value == 0
  }

  // ---- signature and dropped offsets together tell the byte --------------------------------------------

  /** The offsets dropped for a relocation's target and subtrahend. */
  function Drop(l: Link, syms: seq<Symbol>, input: InputId, reloc: Reloc): (nat, nat)
    requires input in l.symbols && forall name :: name in l.resolved ==> l.resolved[name] < |syms|
  {
    (DroppedOffset(l, syms, input, reloc.referent),
     if reloc.subtrahend.Some? then DroppedOffset(l, syms, input, reloc.subtrahend.value) else 0)
  }

  function DropAll(l: Link, syms: seq<Symbol>, input: InputId, relocs: seq<Reloc>): (r: seq<(nat, nat)>)
    requires input in l.symbols && forall name :: name in l.resolved ==> l.resolved[name] < |syms|
    ensures |r| == |relocs|
  {
    if relocs == [] then [] else [Drop(l, syms, input, relocs[0])] + DropAll(l, syms, input, relocs[1..])
  }

  /** The offsets folding does not look at, relocation by relocation. */
  function Drops(l: Link, syms: seq<Symbol>, atom: Atom): seq<(nat, nat)>
    requires forall name :: name in l.resolved ==> l.resolved[name] < |syms|
  {
    if atom.origin !in l.symbols then [] else DropAll(l, syms, atom.origin, RelocsAt(l, atom))
  }

  function ZipOne(f: FoldReloc, d: (nat, nat)): SpotReloc {
    SpotReloc(f.offset, f.kind, f.width, f.pcrel, Spot(f.referent, d.0), f.addend,
              if f.subtrahend.Some? then Some(Spot(f.subtrahend.value, d.1)) else None)
  }

  function Zip(f: seq<FoldReloc>, d: seq<(nat, nat)>): (r: seq<SpotReloc>)
    requires |f| == |d|
    ensures |r| == |f|
  {
    if f == [] then [] else [ZipOne(f[0], d[0])] + Zip(f[1..], d[1..])
  }

  lemma SpotOneZips(l: Link, atoms: seq<Atom>, syms: seq<Symbol>, r: map<AtomId, AtomId>, atom: Atom, reloc: Reloc)
    requires ValidLink(l, atoms, syms, r) && atom.origin in l.symbols && atom.inputOffset <= reloc.offset
    ensures var f := FoldOne(l, atoms, syms, r, atom, reloc);
      && SpotOne(l, atoms, syms, r, atom, reloc)
           == (if f.Some? then Some(ZipOne(f.value, Drop(l, syms, atom.origin, reloc))) else None)
      && (f.Some? ==> f.value.subtrahend.Some? == reloc.subtrahend.Some?)
  {
    hide Normalize, DroppedOffset;
  }

  lemma {:induction false} SpotAllZips(
    l: Link, atoms: seq<Atom>, syms: seq<Symbol>, r: map<AtomId, AtomId>, atom: Atom, relocs: seq<Reloc>)
    requires ValidLink(l, atoms, syms, r) && atom.origin in l.symbols
    requires forall x :: x in relocs ==> atom.inputOffset <= x.offset
    ensures var f := FoldAll(l, atoms, syms, r, atom, relocs);
      && (f.Some? ==> |f.value| == |relocs|)
      && SpotAll(l, atoms, syms, r, atom, relocs)
           == (if f.Some? then Some(Zip(f.value, DropAll(l, syms, atom.origin, relocs))) else None)
  {
    if relocs != [] {
      SpotOneZips(l, atoms, syms, r, atom, relocs[0]);
      SpotAllZips(l, atoms, syms, r, atom, relocs[1..]);
      hide FoldOne, SpotOne, ZipOne, Drop;
    }
  }

  lemma SpotsZip(l: Link, atoms: seq<Atom>, syms: seq<Symbol>, r: map<AtomId, AtomId>, atom: Atom)
    requires ValidLink(l, atoms, syms, r)
    ensures var f := Signature(l, atoms, syms, r, atom);
      && (f.Some? ==> |f.value| == |Drops(l, syms, atom)|)
      && Spots(l, atoms, syms, r, atom) == (if f.Some? then Some(Zip(f.value, Drops(l, syms, atom))) else None)
  {
    if atom.origin in l.symbols {
      SpotAllZips(l, atoms, syms, r, atom, RelocsAt(l, atom));
    }
    hide SpotAll, FoldAll, Zip, DropAll;
  }

  /** A relocation without subtrahend drops nothing for it. */
  ghost predicate Fit(f: seq<FoldReloc>, d: seq<(nat, nat)>) {
    |f| == |d| && forall k :: 0 <= k < |f| && f[k].subtrahend.None? ==> d[k].1 == 0
  }

  lemma {:induction false} ZipAt(f: seq<FoldReloc>, d: seq<(nat, nat)>, k: nat)
    requires |f| == |d| && k < |f|
    ensures Zip(f, d)[k] == ZipOne(f[k], d[k])
  {
    hide ZipOne;
    if k > 0 {
      ZipAt(f[1..], d[1..], k - 1);
    }
  }

  lemma ZipOneInjective(f: FoldReloc, d: (nat, nat), e: (nat, nat))
    requires ZipOne(f, d) == ZipOne(f, e) && (f.subtrahend.None? ==> d.1 == 0 && e.1 == 0)
    ensures d == e
  {
  }

  lemma ZipInjective(f: seq<FoldReloc>, d: seq<(nat, nat)>, e: seq<(nat, nat)>)
    requires Fit(f, d) && Fit(f, e)
    ensures Zip(f, d) == Zip(f, e) <==> d == e
  {
    hide Zip, ZipOne;
    if Zip(f, d) == Zip(f, e) {
      forall k | 0 <= k < |f| ensures d[k] == e[k] {
        ZipAt(f, d, k);
        ZipAt(f, e, k);
        ZipOneInjective(f[k], d[k], e[k]);
      }
    }
  }

  lemma {:induction false} AllFit(
    l: Link, atoms: seq<Atom>, syms: seq<Symbol>, r: map<AtomId, AtomId>, atom: Atom, relocs: seq<Reloc>)
    requires ValidLink(l, atoms, syms, r) && atom.origin in l.symbols
    requires forall x :: x in relocs ==> atom.inputOffset <= x.offset
    requires FoldAll(l, atoms, syms, r, atom, relocs).Some?
    ensures Fit(FoldAll(l, atoms, syms, r, atom, relocs).value, DropAll(l, syms, atom.origin, relocs))
  {
    if relocs != [] {
      SpotOneZips(l, atoms, syms, r, atom, relocs[0]);
      AllFit(l, atoms, syms, r, atom, relocs[1..]);
      hide FoldOne, SpotOne, DroppedOffset;
    }
  }

  lemma SignatureFits(l: Link, atoms: seq<Atom>, syms: seq<Symbol>, r: map<AtomId, AtomId>, atom: Atom)
    requires ValidLink(l, atoms, syms, r) && Signature(l, atoms, syms, r, atom).Some?
    ensures Fit(Signature(l, atoms, syms, r, atom).value, Drops(l, syms, atom))
  {
    AllFit(l, atoms, syms, r, atom, RelocsAt(l, atom));
    hide Fit, FoldAll, DropAll;
  }

  /** Two atoms of one meaning agree down to the byte exactly when folding drops the same offsets for both. */
  lemma SameSpotsExactly(l: Link, atoms: seq<Atom>, syms: seq<Symbol>, r: map<AtomId, AtomId>, a: AtomId, b: AtomId)
    requires ValidLink(l, atoms, syms, r) && IsAtom(atoms, a) && IsAtom(atoms, b)
    requires SameMeaning(l, atoms, syms, r, a, b) && Signature(l, atoms, syms, r, Get(atoms, a)).Some?
    ensures Spots(l, atoms, syms, r, Get(atoms, a)) == Spots(l, atoms, syms, r, Get(atoms, b))
       <==> Drops(l, syms, Get(atoms, a)) == Drops(l, syms, Get(atoms, b))
  {
    var x, y := Get(atoms, a), Get(atoms, b);
    assert Signature(l, atoms, syms, r, x) == Signature(l, atoms, syms, r, y);
    hide Signature, Drops, Spots, Fit, Zip, SameMeaning;
    SpotsZip(l, atoms, syms, r, x);
    SpotsZip(l, atoms, syms, r, y);
    SignatureFits(l, atoms, syms, r, x);
    SignatureFits(l, atoms, syms, r, y);
    ZipInjective(Signature(l, atoms, syms, r, x).value, Drops(l, syms, x), Drops(l, syms, y));
  }

  // ---- what folding keeps -----------------------------------------------------------------------------

  /** Whether an atom's final canonical atom refers to the same bytes is told by the dropped offsets. */
  lemma FoldPreservesSpots(l: Link, atoms: seq<Atom>, init: State, a: AtomId)
    requires Initial(l, atoms, init) && a in init.kept
    ensures var r := Fold(l, atoms, init).redirects;
      && ValidLink(l, atoms, init.syms, r) && IsAtom(atoms, a) && IsAtom(atoms, Canon(l, atoms, r, a))
      && var x, y := Get(atoms, a), Get(atoms, Canon(l, atoms, r, a));
         Signature(l, atoms, init.syms, r, x).Some? ==>
           (Spots(l, atoms, init.syms, r, y) == Spots(l, atoms, init.syms, r, x)
            <==> Drops(l, init.syms, y) == Drops(l, init.syms, x))
  {
    FoldPreservesMeaning(l, atoms, init);
    var r := Fold(l, atoms, init).redirects;
    var c := Canon(l, atoms, r, a);
    assert SameMeaning(l, atoms, init.syms, r, a, c);
    hide Fold, Spots, Signature, Drops, SameMeaning;
    if Signature(l, atoms, init.syms, r, Get(atoms, a)).Some? {
      SameSpotsExactly(l, atoms, init.syms, r, a, c);
    }
  }

  lemma NothingDropped(l: Link, syms: seq<Symbol>, input: InputId, relocs: seq<Reloc>)
    requires input in l.symbols && AtStarts(l, syms)
    requires forall name :: name in l.resolved ==> l.resolved[name] < |syms|
    ensures forall k :: 0 <= k < |relocs| ==> DropAll(l, syms, input, relocs)[k] == (0, 0)
  {
    if relocs != [] {
      NothingDropped(l, syms, input, relocs[1..]);
    }
  }

  lemma StartsDropNothing(l: Link, syms: seq<Symbol>, atom: Atom)
    requires (forall name :: name in l.resolved ==> l.resolved[name] < |syms|) && AtStarts(l, syms)
    ensures forall k :: 0 <= k < |Drops(l, syms, atom)| ==> Drops(l, syms, atom)[k] == (0, 0)
  {
    if atom.origin in l.symbols {
      NothingDropped(l, syms, atom.origin, RelocsAt(l, atom));
    }
  }

  /** When names stand at atom starts, folding preserves the target atom and the offset in it. */
  lemma StartsPreserveSpots(l: Link, atoms: seq<Atom>, init: State, a: AtomId)
    requires Initial(l, atoms, init) && a in init.kept && AtStarts(l, init.syms)
    ensures var r := Fold(l, atoms, init).redirects;
      && ValidLink(l, atoms, init.syms, r) && IsAtom(atoms, a) && IsAtom(atoms, Canon(l, atoms, r, a))
      && Spots(l, atoms, init.syms, r, Get(atoms, Canon(l, atoms, r, a))) ==
        Spots(l, atoms, init.syms, r, Get(atoms, a))
  {
    FoldPreservesMeaning(l, atoms, init);
    FoldPreservesSpots(l, atoms, init, a);
    var r := Fold(l, atoms, init).redirects;
    var c := Canon(l, atoms, r, a);
    assert SameMeaning(l, atoms, init.syms, r, a, c);
    var x, y := Get(atoms, a), Get(atoms, c);
    assert Signature(l, atoms, init.syms, r, x) == Signature(l, atoms, init.syms, r, y);
    hide Fold, Spots, Signature, Drops, SameMeaning, AtStarts;
    SpotsZip(l, atoms, init.syms, r, x);
    SpotsZip(l, atoms, init.syms, r, y);
    StartsDropNothing(l, init.syms, x);
    StartsDropNothing(l, init.syms, y);
  }

  // ---- two offsets into one atom fold ---------------------------------------------------------------------

  /** Redirects of a round stay. */
  lemma {:induction false} FoldExtends(l: Link, atoms: seq<Atom>, st: State, init: State, a: AtomId)
    requires Inv(l, atoms, init, st) && Initial(l, atoms, init) && a in st.redirects
    ensures var end := Fold(l, atoms, st); a in end.redirects && end.redirects[a] == st.redirects[a]
    decreases |st.kept|
  {
    InvPartition(l, atoms, init, st);
    hide Inv, RoundRedirects, Keys;
    if RoundRedirects(l, atoms, st) != map[] {
      StepValid(l, atoms, st);
      StepShrinks(l, atoms, st);
      StepInv(l, atoms, init, st);
      StepKeeps(l, atoms, st, init, a);
      FoldExtends(l, atoms, Step(l, atoms, st), init, a);
    }
  }

  lemma StepKeeps(l: Link, atoms: seq<Atom>, st: State, init: State, a: AtomId)
    requires Inv(l, atoms, init, st) && a in st.redirects && ValidState(l, atoms, st)
    ensures a in Step(l, atoms, st).redirects && Step(l, atoms, st).redirects[a] == st.redirects[a]
  {
    if a in RoundRedirects(l, atoms, st) {
      RoundEdge(l, atoms, st, a);
    }
  }

  /** After one round, atoms of one key have one canonical atom for good. */
  lemma SameKeyFolds(l: Link, atoms: seq<Atom>, init: State, a: AtomId, b: AtomId)
    requires Initial(l, atoms, init) && SameKey(Keys(l, atoms, init), a, b)
    ensures var r := Fold(l, atoms, init).redirects;
      Descending(l, atoms, r) && Canon(l, atoms, r, a) == Canon(l, atoms, r, b)
  {
    var keys := Keys(l, atoms, init);
    KeysShape(l, atoms, init);
    hide Keys, Fold, Canon, Before, Descending, Initial, IsAtom;
    var w := WinnerOf(l, atoms, keys, a);
    assert IsWinner(l, atoms, keys, a, w) && IsWinner(l, atoms, keys, b, w) by {
      SharedWinner(l, atoms, keys, a, b, w);
    }
    hide IsWinner;
    LeadsToWinner(l, atoms, init, a, w);
    LeadsToWinner(l, atoms, init, b, w);
  }

  lemma SharedWinner(l: Link, atoms: seq<Atom>, keys: map<AtomId, FoldKey>, a: AtomId, b: AtomId, w: AtomId)
    requires OfAtoms(atoms, keys) && SameKey(keys, a, b) && IsWinner(l, atoms, keys, a, w)
    ensures IsWinner(l, atoms, keys, b, w)
  {
    hide Before;
    assert forall c :: SameKey(keys, b, c) ==> SameKey(keys, a, c);
  }

  lemma LeadsToWinner(l: Link, atoms: seq<Atom>, init: State, a: AtomId, w: AtomId)
    requires Initial(l, atoms, init) && OfAtoms(atoms, Keys(l, atoms, init))
    requires IsWinner(l, atoms, Keys(l, atoms, init), a, w)
    ensures var r := Fold(l, atoms, init).redirects;
      Descending(l, atoms, r) && Canon(l, atoms, r, a) == Canon(l, atoms, r, w)
  {
    FoldPreservesMeaning(l, atoms, init);
    if a != w {
      InitialInv(l, atoms, init);
      StepInv(l, atoms, init, init);
      FirstRound(l, atoms, init, a, w);
      var next := Step(l, atoms, init);
      FoldExtends(l, atoms, next, init, a);
      FoldUnroll(l, atoms, init);
      hide Inv, Keys, Step, Fold, Initial, IsWinner;
      assert Fold(l, atoms, init).redirects[a] == w;
    }
  }

  lemma FirstRound(l: Link, atoms: seq<Atom>, init: State, a: AtomId, w: AtomId)
    requires Initial(l, atoms, init) && OfAtoms(atoms, Keys(l, atoms, init)) && a != w
    requires IsWinner(l, atoms, Keys(l, atoms, init), a, w)
    ensures a in Step(l, atoms, init).redirects && Step(l, atoms, init).redirects[a] == w
  {
    var keys := Keys(l, atoms, init);
    hide Keys, Rebind;
    assert IsLoser(l, atoms, keys, a);
    OneWinner(l, atoms, keys, a, w, WinnerOf(l, atoms, keys, a));
    assert a in Losers(l, atoms, keys) && Losers(l, atoms, keys)[a] == w;
  }

  lemma OneWinner(l: Link, atoms: seq<Atom>, keys: map<AtomId, FoldKey>, a: AtomId, v: AtomId, w: AtomId)
    requires OfAtoms(atoms, keys) && IsWinner(l, atoms, keys, a, v) && IsWinner(l, atoms, keys, a, w)
    ensures v == w
  {
    assert SameKey(keys, a, v) && SameKey(keys, a, w);
  }

  /**
   * Atoms of one key in the first round become one, and whether they refer to the same bytes, then and after
   * the fold, is told beforehand by the symbol values.
   */
  lemma FirstRoundSpots(l: Link, atoms: seq<Atom>, init: State, a: AtomId, b: AtomId)
    requires Initial(l, atoms, init) && SameKey(Keys(l, atoms, init), a, b)
    ensures IsAtom(atoms, a) && IsAtom(atoms, b)
    ensures var r := Fold(l, atoms, init).redirects;
      && ValidLink(l, atoms, init.syms, r) && Canon(l, atoms, r, a) == Canon(l, atoms, r, b)
      && (Spots(l, atoms, init.syms, r, Get(atoms, a)) == Spots(l, atoms, init.syms, r, Get(atoms, b))
          <==> Drops(l, init.syms, Get(atoms, a)) == Drops(l, init.syms, Get(atoms, b)))
  {
    KeyedAtoms(l, atoms, init, a);
    KeyedAtoms(l, atoms, init, b);
    FoldPreservesMeaning(l, atoms, init);
    SameKeyFolds(l, atoms, init, a, b);
    var r := Fold(l, atoms, init).redirects;
    var c := Canon(l, atoms, r, a);
    assert SameMeaning(l, atoms, init.syms, r, a, c) && SameMeaning(l, atoms, init.syms, r, b, c);
    assert SameMeaning(l, atoms, init.syms, r, a, b);
    hide Fold, Spots, Signature, Drops, SameMeaning, Keys, Canon;
    SignatureStays(l, atoms, init, a);
    SameSpotsExactly(l, atoms, init.syms, r, a, b);
  }

  lemma KeyedAtoms(l: Link, atoms: seq<Atom>, init: State, a: AtomId)
    requires Initial(l, atoms, init) && a in Keys(l, atoms, init)
    ensures a in init.kept && IsAtom(atoms, a) && Signature(l, atoms, init.syms, init.redirects, Get(atoms, a)).Some?
  {
    hide Signature, Foldable;
  }

  /** Redirects change what a signature names, not whether there is one. */
  lemma SignatureStays(l: Link, atoms: seq<Atom>, init: State, a: AtomId)
    requires Initial(l, atoms, init) && IsAtom(atoms, a)
    requires Signature(l, atoms, init.syms, init.redirects, Get(atoms, a)).Some?
    ensures var r := Fold(l, atoms, init).redirects;
      ValidLink(l, atoms, init.syms, r) && Signature(l, atoms, init.syms, r, Get(atoms, a)).Some?
  {
    FoldedLink(l, atoms, init);
    var r := Fold(l, atoms, init).redirects;
    hide Fold, Signature, LiftSig;
    SignatureExtend(l, atoms, init.syms, map[], r, Get(atoms, a));
    assert map[] + r == r;
    LiftSome(l, atoms, r, Signature(l, atoms, init.syms, map[], Get(atoms, a)));
  }

  /** Two names for places 0 and 4 of one atom. */
  function TwoNames(): Link {
    Link(map[0 := [InputSymbol(true, Sect, 0, Some("x")), InputSymbol(true, Sect, 4, Some("y"))]],
         map[0 := (0, 0)],
         map[(0, 1) := [Reloc(0, Unsigned, 8, false, SymbolRef(0), 0, None),
                        Reloc(8, Unsigned, 8, false, SymbolRef(1), 0, None)]],
         map[(0, 1) := SectionKey("__DATA_CONST", "__const", 0, 0), (0, 2) := SectionKey("__TEXT", "__text", 0, 0)],
         map["x" := 0, "y" := 1])
  }

  /** Two pointers, alike but for the name they refer to, and the atom with both names. */
  function TwoPointers(): seq<Atom> {
    var zeros: seq<bv8> := [0, 0, 0, 0, 0, 0, 0, 0];
    [Atom(0, 1, ConstData, 0, 8, 3, None, [], zeros, 0),
     Atom(0, 1, ConstData, 8, 8, 3, None, [], zeros, 0),
     Atom(0, 2, Text, 0, 8, 2, Some(0), [AltEntry(1, 4)], zeros, 0)]
  }

  /** The table as folding sees it: the atom both pointers refer to has its address taken. */
  function TwoMarked(): seq<Atom> {
    [TwoPointers()[0], TwoPointers()[1], TwoPointers()[2].(flags := ADDRESS_TAKEN)]
  }

  function TwoSymbols(): State {
    State({1, 2, 3}, map[], [Defined(3, 0, true), Defined(3, 4, true)])
  }

  lemma TwoStart()
    ensures Initial(TwoNames(), TwoMarked(), TwoSymbols())
  {
    var atoms, st := TwoMarked(), TwoSymbols();
    assert AtomSymbols(Get(atoms, 1)) == [] && AtomSymbols(Get(atoms, 2)) == [];
    assert AtomSymbols(Get(atoms, 3)) == [0, 1];
  }

  ghost function PointerReloc(a: AtomId): Reloc
    requires a == 1 || a == 2
  {
    TwoNames().relocs[(0, 1)][a - 1]
  }

  lemma PointerRelocs(a: AtomId)
    requires a == 1 || a == 2
    ensures RelocsAt(TwoNames(), Get(TwoMarked(), a)) == [PointerReloc(a)]
  {
    var atom, relocs := Get(TwoMarked(), a), TwoNames().relocs[(0, 1)];
    assert RelocsFor(relocs[1..][1..], atom) == [];
    assert relocs[1..] == [relocs[1]];
    assert RelocsFor(relocs[1..], atom) == if a == 1 then [] else [PointerReloc(a)];
  }

  lemma PointerTarget(a: AtomId)
    requires a == 1 || a == 2
    ensures ValidLink(TwoNames(), TwoMarked(), TwoSymbols().syms, map[])
    ensures Normalize(TwoNames(), TwoMarked(), TwoSymbols().syms, map[], 0, PointerReloc(a).referent) ==
      Some(ToAtom(3))
    ensures DroppedOffset(TwoNames(), TwoSymbols().syms, 0, PointerReloc(a).referent) == if a == 1 then 0 else 4
  {
    assert Canon(TwoNames(), TwoMarked(), map[], 3) == 3;
  }

  /** The signature and the dropped offsets of an atom with one plain relocation. */
  lemma OneRelocation(l: Link, atoms: seq<Atom>, syms: seq<Symbol>, atom: Atom, mine: Reloc, target: FoldReferent)
    requires ValidLink(l, atoms, syms, map[]) && atom.origin in l.symbols && RelocsAt(l, atom) == [mine]
    requires mine.subtrahend == None && atom.inputOffset <= mine.offset
    requires Normalize(l, atoms, syms, map[], atom.origin, mine.referent) == Some(target)
    ensures Signature(l, atoms, syms, map[], atom) == Some([FoldReloc(
      mine.offset - atom.inputOffset, mine.kind, mine.width, mine.pcrel, target, mine.addend, None)])
    ensures Drops(l, syms, atom) == [(DroppedOffset(l, syms, atom.origin, mine.referent), 0)]
  {
    hide RelocsAt, Normalize, DroppedOffset, Descending;
    var f := FoldReloc(mine.offset - atom.inputOffset, mine.kind, mine.width, mine.pcrel, target, mine.addend, None);
    assert FoldOne(l, atoms, syms, map[], atom, mine) == Some(f);
    var rs := RelocsAt(l, atom);
    assert rs[0] == mine && rs[1..] == [] && forall x :: x in rs ==> x == mine;
    assert FoldAll(l, atoms, syms, map[], atom, rs[1..]) == Some([]) && DropAll(l, syms, atom.origin, rs[1..]) == [];
    assert FoldAll(l, atoms, syms, map[], atom, rs) == Some([f] + []);
    assert [f] + [] == [f];
    assert DropAll(l, syms, atom.origin, rs) == [Drop(l, syms, atom.origin, mine)] + [];
  }

  lemma PointerFacts(a: AtomId)
    requires a == 1 || a == 2
    ensures PointerReloc(a) == Reloc(8 * (a - 1), Unsigned, 8, false, SymbolRef(a - 1), 0, None)
    ensures IsAtom(TwoMarked(), a)
    ensures Get(TwoMarked(), a) == Atom(0, 1, ConstData, 8 * (a - 1), 8, 3, None, [], [0, 0, 0, 0, 0, 0, 0, 0], 0)
    ensures 0 in TwoNames().symbols && a in TwoSymbols().kept && TwoSymbols().redirects == map[]
    ensures (0, 1) in TwoNames().outputSections
    ensures TwoNames().outputSections[(0, 1)] == SectionKey("__DATA_CONST", "__const", 0, 0)
  {
  }

  lemma PointerSignature(a: AtomId)
    requires a == 1 || a == 2
    ensures ValidLink(TwoNames(), TwoMarked(), TwoSymbols().syms, map[]) && IsAtom(TwoMarked(), a)
    ensures Signature(TwoNames(), TwoMarked(), TwoSymbols().syms, map[], Get(TwoMarked(), a))
         == Some([FoldReloc(0, Unsigned, 8, false, ToAtom(3), 0, None)])
    ensures Drops(TwoNames(), TwoSymbols().syms, Get(TwoMarked(), a)) == [(if a == 1 then 0 else 4, 0)]
  {
    hide *;
    PointerFacts(a);
    PointerRelocs(a);
    PointerTarget(a);
    OneRelocation(TwoNames(), TwoMarked(), TwoSymbols().syms, Get(TwoMarked(), a), PointerReloc(a), ToAtom(3));
  }

  ghost function PointerFoldKey(): FoldKey {
    FoldKey(SectionKey("__DATA_CONST", "__const", 0, 0), ConstData, 8, 3, 0, [0, 0, 0, 0, 0, 0, 0, 0],
            [FoldReloc(0, Unsigned, 8, false, ToAtom(3), 0, None)])
  }

  /** The key of an ownerless constant without flags. */
  lemma KeyOfConstant(l: Link, atoms: seq<Atom>, st: State, a: AtomId, sig: seq<FoldReloc>)
    requires ValidState(l, atoms, st) && a in st.kept && IsAtom(atoms, a)
    requires var x := Get(atoms, a);
      && x.section == ConstData && x.owner == None && x.altEntries == [] && x.flags == 0
      && (x.origin, x.inputSection) in l.outputSections && Signature(l, atoms, st.syms, st.redirects, x) == Some(sig)
    ensures var x := Get(atoms, a);
      KeyOf(l, atoms, st, a)
        == Some(FoldKey(l.outputSections[(x.origin, x.inputSection)], ConstData, x.size, x.alignPow2, 0, x.data, sig))
  {
    hide Signature, Descending;
    var x := Get(atoms, a);
    assert AtomSymbols(x) == [];
  }

  lemma PointerKey(a: AtomId)
    requires a == 1 || a == 2
    ensures ValidState(TwoNames(), TwoMarked(), TwoSymbols()) && a in TwoSymbols().kept
    ensures KeyOf(TwoNames(), TwoMarked(), TwoSymbols(), a) == Some(PointerFoldKey())
  {
    TwoKeyIs();
    hide *;
    TwoStart();
    InitialValid(TwoNames(), TwoMarked(), TwoSymbols());
    PointerFacts(a);
    PointerSignature(a);
    KeyOfConstant(TwoNames(), TwoMarked(), TwoSymbols(), a, [FoldReloc(0, Unsigned, 8, false, ToAtom(3), 0, None)]);
  }

  lemma TwoKeyIs()
    ensures PointerFoldKey() ==
      FoldKey(SectionKey("__DATA_CONST", "__const", 0, 0), ConstData, 8, 3, 0, [0, 0, 0, 0, 0, 0, 0, 0],
              [FoldReloc(0, Unsigned, 8, false, ToAtom(3), 0, None)])
  {
  }

  lemma InitialValid(l: Link, atoms: seq<Atom>, st: State)
    requires Initial(l, atoms, st)
    ensures ValidState(l, atoms, st)
  {
  }

  lemma TakesThird(a: AtomId)
    ensures TakesAddress(TwoNames(), TwoSymbols().syms, map[], a) <==> a == 3
  {
    var l, syms := TwoNames(), TwoSymbols().syms;
    var at: (InputId, nat) := (0, 1);
    assert at in l.relocs && l.relocs[at][0] in l.relocs[at];
    assert MarksAddressTaken(l.relocs[at][0].kind);
    forall reloc | reloc in l.relocs[at] ensures Targets(l, syms, map[], 0, reloc, reloc.referent) == {3} {
    }
  }

  /** What `fold_safe` does first gives the marked table. */
  lemma TwoMarkedIs()
    ensures MarkAddressTaken(TwoNames(), TwoSymbols().syms, map[], TwoPointers()) == TwoMarked()
  {
    hide MarkAddressTaken, TakesAddress;
    var l, syms, atoms := TwoNames(), TwoSymbols().syms, TwoPointers();
    var marked := MarkAddressTaken(l, syms, map[], atoms);
    forall i | 0 <= i < 3 ensures marked[i] == TwoMarked()[i] {
      TakesThird(i + 1);
      MarkedAt(l, syms, map[], atoms, i);
    }
    assert |marked| == |TwoMarked()| == 3;
  }

  lemma MarkedAt(l: Link, syms: seq<Symbol>, byOffset: map<(InputId, Reloc, Referent), set<AtomId>>,
                 atoms: seq<Atom>, i: nat)
    requires i < |atoms|
    ensures MarkAddressTaken(l, syms, byOffset, atoms)[i] ==
      if TakesAddress(l, syms, byOffset, i + 1) then atoms[i].(flags := atoms[i].flags | ADDRESS_TAKEN) else atoms[i]
  {
    hide TakesAddress;
  }

  lemma TwoStarts()
    ensures Icf.Start(TwoPointers(), TwoSymbols().syms, None) == TwoSymbols()
  {
    var atoms := TwoPointers();
    assert (set a | 1 <= a <= |atoms| && IsAtom(atoms, a)) == {1, 2, 3};
  }

  lemma NoneUnplaced(a: AtomId)
    requires a in TwoSymbols().kept && ValidState(TwoNames(), TwoMarked(), TwoSymbols())
    ensures !Unplaced(TwoNames(), TwoMarked(), TwoSymbols(), a)
  {
    hide Signature, Foldable;
  }

  /** The two pointers get one canonical atom although they refer to different places of the target atom. */
  lemma OffsetsFold()
    ensures var l, atoms, init := TwoNames(), TwoMarked(), TwoSymbols();
      && Initial(l, atoms, init) && !AtStarts(l, init.syms)
      && var r := Fold(l, atoms, init).redirects;
         && ValidLink(l, atoms, init.syms, r)
         && Canon(l, atoms, r, 1) == Canon(l, atoms, r, 2)
         && Drops(l, init.syms, Get(atoms, 1)) != Drops(l, init.syms, Get(atoms, 2))
  {
    hide *;
    var l, atoms, init := TwoNames(), TwoMarked(), TwoSymbols();
    TwoStart();
    TwoAlike();
    SameKeyFolds(l, atoms, init, 1, 2);
    FoldedLink(l, atoms, init);
  }

  /** The whole pass on them: it succeeds and makes them one. */
  method FoldTwoPointers() returns (marked: seq<Atom>, plan: State)
    ensures marked == TwoMarked() && Descending(TwoNames(), marked, plan.redirects)
    ensures Canon(TwoNames(), marked, plan.redirects, 1) == Canon(TwoNames(), marked, plan.redirects, 2)
    ensures Drops(TwoNames(), TwoSymbols().syms, Get(marked, 1)) != Drops(TwoNames(), TwoSymbols().syms, Get(marked, 2))
  {
    hide *;
    TwoReady();
    OffsetsFold();
    var r;
    marked, r := FoldSafe(TwoNames(), TwoPointers(), TwoSymbols().syms, None, map[]);
    FoldedLink(TwoNames(), TwoMarked(), TwoSymbols());
    forall a | a in TwoSymbols().kept ensures !Unplaced(TwoNames(), TwoMarked(), TwoSymbols(), a) {
      NoneUnplaced(a);
    }
    plan := r.value;
    SettleKeeps(TwoNames(), TwoMarked(), Fold(TwoNames(), TwoMarked(), TwoSymbols()));
    TwoLink();
  }

  lemma SettleKeeps(l: Link, atoms: seq<Atom>, st: State)
    requires ValidState(l, atoms, st)
    ensures Settle(l, atoms, st).redirects == st.redirects
  {
  }

  lemma TwoLink()
    ensures ValidState(TwoNames(), TwoMarked(), TwoSymbols())
    ensures IsAtom(TwoMarked(), 1) && IsAtom(TwoMarked(), 2)
    ensures Descending(TwoNames(), TwoMarked(), Fold(TwoNames(), TwoMarked(), TwoSymbols()).redirects)
  {
    TwoStart();
    FoldedLink(TwoNames(), TwoMarked(), TwoSymbols());
    hide Fold, Descending;
  }

  /** What the pass asks of its caller. */
  lemma TwoReady()
    ensures Icf.Start(TwoPointers(), TwoSymbols().syms, None) == TwoSymbols()
    ensures MarkAddressTaken(TwoNames(), TwoSymbols().syms, map[], TwoPointers()) == TwoMarked()
    ensures ValidLink(TwoNames(), TwoPointers(), TwoSymbols().syms, map[])
    ensures WellBound(TwoPointers(), TwoSymbols().syms, TwoSymbols().kept)
  {
    TwoStarts();
    TwoMarkedIs();
    var atoms := TwoPointers();
    assert AtomSymbols(Get(atoms, 1)) == [] && AtomSymbols(Get(atoms, 2)) == [];
    assert AtomSymbols(Get(atoms, 3)) == [0, 1];
  }

  lemma TwoAlike()
    ensures var l, atoms, init := TwoNames(), TwoMarked(), TwoSymbols();
      && ValidState(l, atoms, init) && SameKey(Keys(l, atoms, init), 1, 2) && !AtStarts(l, init.syms)
      && IsAtom(atoms, 1) && IsAtom(atoms, 2)
      && Drops(l, init.syms, Get(atoms, 1)) != Drops(l, init.syms, Get(atoms, 2))
  {
    hide *;
    PointerKey(1);
    PointerKey(2);
    PointerSignature(1);
    PointerSignature(2);
    KeysEqual(TwoNames(), TwoMarked(), TwoSymbols(), 1, 2);
    NotAtStarts();
  }

  lemma NotAtStarts()
    ensures !AtStarts(TwoNames(), TwoSymbols().syms)
  {
    assert "y" in TwoNames().resolved;
  }

  lemma KeysEqual(l: Link, atoms: seq<Atom>, st: State, a: AtomId, b: AtomId)
    requires ValidState(l, atoms, st) && a in st.kept && b in st.kept
    requires KeyOf(l, atoms, st, a).Some? && KeyOf(l, atoms, st, a) == KeyOf(l, atoms, st, b)
    ensures SameKey(Keys(l, atoms, st), a, b)
  {
    hide KeyOf;
  }

  lemma FoldedLink(l: Link, atoms: seq<Atom>, init: State)
    requires Initial(l, atoms, init)
    ensures ValidState(l, atoms, init)
    ensures ValidLink(l, atoms, init.syms, Fold(l, atoms, init).redirects)
  {
    FoldPreservesMeaning(l, atoms, init);
    hide Fold, Canon, SameMeaning;
  }
}
