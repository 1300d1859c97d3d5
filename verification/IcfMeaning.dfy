/** Which atoms folding makes one, told without the pass's own tests and keys. */
module IcfMeaning {
  import opened Wrappers
  import opened Icf
  import opened IcfOffsets

  // ---- atoms that stay what they are ------------------------------------------------------------------

  /** Bit 0 of an atom's flags is NO_DEAD_STRIP, bit 5 ADDRESS_TAKEN. */
  const BIT0: bv32 := 1
  const BIT5: bv32 := 32

  ghost predicate NamedBy(atom: Atom, s: SymbolId) {
    atom.owner == Some(s) || exists i :: 0 <= i < |atom.altEntries| && atom.altEntries[i].symbol == s
  }

  /** A definition visible outside the image names the atom. */
  ghost predicate Public(atom: Atom, syms: seq<Symbol>) {
    exists s: SymbolId :: NamedBy(atom, s) && s < |syms| && syms[s].Defined? && syms[s].privateExtern == false
  }

  /** Not of a kind that is folded, or its own address or existence matters. */
  ghost predicate Fixed(atom: Atom, syms: seq<Symbol>) {
    || (atom.section != Text && atom.section != ConstData && atom.section != CStringLiterals
        && atom.section != Literal16)
    || atom.flags & BIT0 != 0 || atom.flags & BIT5 != 0
    || Public(atom, syms)
  }

  lemma SymbolsOf(atom: Atom, s: SymbolId)
    ensures s in AtomSymbols(atom) <==> NamedBy(atom, s)
  {
    var symbols := AtomSymbols(atom);
    var k := if atom.owner.Some? then 1 else 0;
    if s in symbols {
      var i :| 0 <= i < |symbols| && symbols[i] == s;
      if i >= k {
        assert atom.altEntries[i - k].symbol == s;
      }
    }
    if atom.owner == Some(s) {
      assert symbols[0] == s;
    } else if NamedBy(atom, s) {
      var i :| 0 <= i < |atom.altEntries| && atom.altEntries[i].symbol == s;
      assert symbols[k + i] == s;
    }
  }

  lemma FixedExactly(atom: Atom, syms: seq<Symbol>)
    ensures Fixed(atom, syms) <==> !Foldable(atom, syms)
  {
    forall s: SymbolId ensures s in AtomSymbols(atom) <==> NamedBy(atom, s) {
      SymbolsOf(atom, s);
    }
    hide AtomSymbols, NamedBy;
  }

  /** A fixed atom stays, is its own canonical atom, and no other atom becomes it. */
  lemma FixedStays(l: Link, atoms: seq<Atom>, init: State, a: AtomId, b: AtomId)
    requires Initial(l, atoms, init) && a in init.kept && b in init.kept && b != a
    requires IsAtom(atoms, a) && Fixed(Get(atoms, a), init.syms)
    ensures var end := Fold(l, atoms, init);
      && a in end.kept && Descending(l, atoms, end.redirects)
      && Canon(l, atoms, end.redirects, a) == a && Canon(l, atoms, end.redirects, b) != a
  {
    FixedExactly(Get(atoms, a), init.syms);
    UnfoldableStays(l, atoms, init, a);
    FoldStructure(l, atoms, init);
    var end := Fold(l, atoms, init);
    CanonKeyed(l, atoms, init, end.redirects, b);
  }

  lemma {:induction false} CanonKeyed(l: Link, atoms: seq<Atom>, init: State, r: map<AtomId, AtomId>, b: AtomId)
    requires Descending(l, atoms, r) && ValidLink(l, atoms, init.syms, map[])
    requires forall a :: a in r ==> Keyed(l, atoms, init.syms, a) && Keyed(l, atoms, init.syms, r[a])
    ensures var c := Canon(l, atoms, r, b);
      c !in r && (c == b || (b in r && IsAtom(atoms, c) && Keyed(l, atoms, init.syms, c)))
    decreases b in r,
      if b in r then KeyOfOrder(l, atoms, b).load else 0,
      if b in r then KeyOfOrder(l, atoms, b).member else 0,
      if b in r then KeyOfOrder(l, atoms, b).offset else 0,
      if b in r then KeyOfOrder(l, atoms, b).id else 0
  {
    hide Keyed, Foldable, Signature;
    if b in r {
      CanonKeyed(l, atoms, init, r, r[b]);
    }
  }

  /** The pass begins with the live atoms, or with all of the table when nothing was stripped. */
  lemma StartsWith(atoms: seq<Atom>, syms: seq<Symbol>, live: Option<set<AtomId>>, a: AtomId)
    ensures var init := Start(atoms, syms, live);
      && init.redirects == map[] && init.syms == syms
      && (a in init.kept <==> if live.Some? then a in live.value else 0 < a <= |atoms|)
  {
  }

  // ---- which relocations an atom has ---------------------------------------------------------------------

  predicate Writes(reloc: Reloc, x: nat) { reloc.offset <= x < reloc.offset + reloc.width }

  predicate Holds(atom: Atom, x: nat) { atom.inputOffset <= x < atom.inputOffset + atom.size }

  /** Every byte the relocation writes is a byte of the atom. */
  ghost predicate Inside(atom: Atom, reloc: Reloc) {
    forall x :: Writes(reloc, x) ==> Holds(atom, x)
  }

  lemma ContainsExactly(atom: Atom, reloc: Reloc)
    requires reloc.width > 0
    requires reloc.offset + reloc.width < 0x1_0000_0000 && atom.inputOffset + atom.size < 0x1_0000_0000
    ensures Contains(atom, reloc) <==> Inside(atom, reloc)
  {
    var last: nat := reloc.offset + reloc.width - 1;
    assert Writes(reloc, reloc.offset) && Writes(reloc, last);
  }

  /** The atom's relocations are those of its section that lie in it, in their order. */
  lemma {:induction false} RelocsForEnd(relocs: seq<Reloc>, atom: Atom, reloc: Reloc)
    ensures RelocsFor(relocs + [reloc], atom) == RelocsFor(relocs, atom) + if Contains(atom, reloc) then [reloc] else []
  {
    hide Contains;
    if relocs == [] {
      assert ([] + [reloc])[1..] == [];
    } else {
      assert (relocs + [reloc])[1..] == relocs[1..] + [reloc];
      RelocsForEnd(relocs[1..], atom, reloc);
    }
  }

  // ---- what an operand stands for ------------------------------------------------------------------------

  predicate Known(l: Link, i: InputId, ref: Referent) {
    i in l.symbols && (ref.SymbolRef? ==> ref.index < |l.symbols[i]|)
  }

  function Sym(l: Link, i: InputId, ref: Referent): InputSymbol
    requires Known(l, i, ref) && ref.SymbolRef?
  {
    l.symbols[i][ref.index]
  }

  /** The operand names this symbol of the table through the resolved names. */
  predicate Resolved(l: Link, i: InputId, ref: Referent, id: SymbolId) {
    && Known(l, i, ref) && ref.SymbolRef? && Sym(l, i, ref).participates
    && Sym(l, i, ref).name.Some? && Sym(l, i, ref).name.value in l.resolved
    && l.resolved[Sym(l, i, ref).name.value] == id
  }

  predicate IsLocal(l: Link, i: InputId, ref: Referent) {
    Known(l, i, ref) && ref.SymbolRef? && !Sym(l, i, ref).participates && Sym(l, i, ref).kind != Abs
  }

  predicate HasValue(l: Link, syms: seq<Symbol>, i: InputId, ref: Referent, v: nat) {
    || (Known(l, i, ref) && ref.SymbolRef? && !Sym(l, i, ref).participates && Sym(l, i, ref).kind == Abs
        && Sym(l, i, ref).value == v)
    || exists id :: 0 <= id < |syms| && Resolved(l, i, ref, id) && syms[id] == Absolute(v)
  }

  predicate InAtom(l: Link, syms: seq<Symbol>, i: InputId, ref: Referent, a: AtomId) {
    a != 0 && exists id :: 0 <= id < |syms| && Resolved(l, i, ref, id) && syms[id].Defined? && syms[id].atom == a
  }

  /** Neither an absolute symbol nor one defined in an atom. */
  predicate Unbound(l: Link, syms: seq<Symbol>, i: InputId, ref: Referent, id: SymbolId) {
    && Resolved(l, i, ref, id) && id < |syms|
    && !syms[id].Absolute? && (syms[id].Defined? ==> syms[id].atom == 0)
  }

  /** The operand stands for something. */
  ghost predicate Meant(l: Link, i: InputId, ref: Referent) {
    Known(l, i, ref) &&
    (ref.SectionRef? || !Sym(l, i, ref).participates || exists id :: Resolved(l, i, ref, id))
  }

  /** Two operands stand for one thing, atoms with one canonical atom being one. */
  ghost predicate SameThing(l: Link, atoms: seq<Atom>, syms: seq<Symbol>, r: map<AtomId, AtomId>,
                            i: InputId, x: Referent, j: InputId, y: Referent)
    requires Descending(l, atoms, r)
  {
    || (x.SectionRef? && i == j && x == y)
    || (IsLocal(l, i, x) && i == j && x == y)
    || (exists v :: HasValue(l, syms, i, x, v) && HasValue(l, syms, j, y, v))
    || (exists a, b :: InAtom(l, syms, i, x, a) && InAtom(l, syms, j, y, b)
          && Canon(l, atoms, r, a) == Canon(l, atoms, r, b))
    || (exists id :: Unbound(l, syms, i, x, id) && Unbound(l, syms, j, y, id))
  }

  /** What the normalized operand is, case by case. */
  lemma NormalizeCases(l: Link, atoms: seq<Atom>, syms: seq<Symbol>, r: map<AtomId, AtomId>, i: InputId, x: Referent)
    requires ValidLink(l, atoms, syms, r) && i in l.symbols
    ensures Normalize(l, atoms, syms, r, i, x).Some? <==> Meant(l, i, x)
    ensures forall j, s :: Normalize(l, atoms, syms, r, i, x) == Some(ToSection(j, s)) <==> j == i && x == SectionRef(s)
    ensures forall j, k :: Normalize(l, atoms, syms, r, i, x) == Some(ToLocal(j, k)) <==>
      j == i && x == SymbolRef(k) && IsLocal(l, i, x)
    ensures forall v :: Normalize(l, atoms, syms, r, i, x) == Some(ToAbsolute(v)) <==> HasValue(l, syms, i, x, v)
    ensures forall c :: Normalize(l, atoms, syms, r, i, x) == Some(ToAtom(c)) <==>
      exists a :: InAtom(l, syms, i, x, a) && Canon(l, atoms, r, a) == c
    ensures forall id :: Normalize(l, atoms, syms, r, i, x) == Some(ToSymbol(id)) <==> Unbound(l, syms, i, x, id)
  {
    hide Canon, Descending;
    var n := Normalize(l, atoms, syms, r, i, x);
    if x.SymbolRef? && x.index < |l.symbols[i]| {
      var sym := l.symbols[i][x.index];
      if sym.participates && sym.name.Some? && sym.name.value in l.resolved {
        var id := l.resolved[sym.name.value];
        assert Resolved(l, i, x, id);
        if syms[id].Defined? && syms[id].atom != 0 {
          assert InAtom(l, syms, i, x, syms[id].atom);
        }
      }
    }
  }

  lemma SameThingExactly(l: Link, atoms: seq<Atom>, syms: seq<Symbol>, r: map<AtomId, AtomId>,
                         i: InputId, x: Referent, j: InputId, y: Referent)
    requires ValidLink(l, atoms, syms, r) && i in l.symbols && j in l.symbols && Meant(l, i, x)
    ensures Normalize(l, atoms, syms, r, i, x) == Normalize(l, atoms, syms, r, j, y)
       <==> SameThing(l, atoms, syms, r, i, x, j, y)
  {
    NormalizeCases(l, atoms, syms, r, i, x);
    NormalizeCases(l, atoms, syms, r, j, y);
    hide Normalize, Canon, Descending, HasValue, InAtom, Unbound, IsLocal, Meant;
    var n := Normalize(l, atoms, syms, r, i, x).value;
  }

  // ---- atoms that are alike --------------------------------------------------------------------------------

  /** One relocation in an atom from input `i`, the other in an atom from input `j`: same place, shape and targets. */
  ghost predicate SameReloc(l: Link, atoms: seq<Atom>, syms: seq<Symbol>, r: map<AtomId, AtomId>,
                            x: Atom, p: Reloc, y: Atom, q: Reloc)
    requires Descending(l, atoms, r)
  {
    && p.offset - x.inputOffset == q.offset - y.inputOffset
    && p.kind == q.kind && p.width == q.width && p.pcrel == q.pcrel && p.addend == q.addend
    && SameThing(l, atoms, syms, r, x.origin, p.referent, y.origin, q.referent)
    && p.subtrahend.Some? == q.subtrahend.Some?
    && (p.subtrahend.Some? && q.subtrahend.Some? ==>
          SameThing(l, atoms, syms, r, x.origin, p.subtrahend.value, y.origin, q.subtrahend.value))
  }

  ghost predicate SameRelocs(l: Link, atoms: seq<Atom>, syms: seq<Symbol>, r: map<AtomId, AtomId>, x: Atom, y: Atom)
    requires Descending(l, atoms, r)
  {
    var ps, qs := RelocsAt(l, x), RelocsAt(l, y);
    |ps| == |qs| && forall k :: 0 <= k < |ps| ==> SameReloc(l, atoms, syms, r, x, ps[k], y, qs[k])
  }

  ghost predicate RelocMeant(l: Link, x: Atom, p: Reloc) {
    Meant(l, x.origin, p.referent) && (p.subtrahend.Some? ==> Meant(l, x.origin, p.subtrahend.value))
  }

  /** The atom's object is known and all its relocations' operands stand for something. */
  ghost predicate AllMeant(l: Link, x: Atom) {
    x.origin in l.symbols && forall k :: 0 <= k < |RelocsAt(l, x)| ==> RelocMeant(l, x, RelocsAt(l, x)[k])
  }

  lemma FoldOneExactly(l: Link, atoms: seq<Atom>, syms: seq<Symbol>, r: map<AtomId, AtomId>,
                       x: Atom, p: Reloc, y: Atom, q: Reloc)
    requires ValidLink(l, atoms, syms, r) && x.origin in l.symbols && y.origin in l.symbols
    requires x.inputOffset <= p.offset && y.inputOffset <= q.offset && RelocMeant(l, x, p)
    ensures FoldOne(l, atoms, syms, r, x, p) == FoldOne(l, atoms, syms, r, y, q)
       <==> SameReloc(l, atoms, syms, r, x, p, y, q)
  {
    MeantNormalizes(l, atoms, syms, r, x.origin, p.referent);
    MeantNormalizes(l, atoms, syms, r, y.origin, q.referent);
    SameThingExactly(l, atoms, syms, r, x.origin, p.referent, y.origin, q.referent);
    if p.subtrahend.Some? {
      MeantNormalizes(l, atoms, syms, r, x.origin, p.subtrahend.value);
      if q.subtrahend.Some? {
        MeantNormalizes(l, atoms, syms, r, y.origin, q.subtrahend.value);
        SameThingExactly(l, atoms, syms, r, x.origin, p.subtrahend.value, y.origin, q.subtrahend.value);
      }
    }
    hide Normalize, SameThing, Meant, Descending;
  }

  lemma MeantNormalizes(l: Link, atoms: seq<Atom>, syms: seq<Symbol>, r: map<AtomId, AtomId>, i: InputId, x: Referent)
    requires ValidLink(l, atoms, syms, r) && i in l.symbols
    ensures Normalize(l, atoms, syms, r, i, x).Some? <==> Meant(l, i, x)
  {
    NormalizeCases(l, atoms, syms, r, i, x);
  }

  lemma FoldOneMeant(l: Link, atoms: seq<Atom>, syms: seq<Symbol>, r: map<AtomId, AtomId>, x: Atom, p: Reloc)
    requires ValidLink(l, atoms, syms, r) && x.origin in l.symbols && x.inputOffset <= p.offset
    ensures FoldOne(l, atoms, syms, r, x, p).Some? <==> RelocMeant(l, x, p)
  {
    MeantNormalizes(l, atoms, syms, r, x.origin, p.referent);
    if p.subtrahend.Some? {
      MeantNormalizes(l, atoms, syms, r, x.origin, p.subtrahend.value);
    }
    hide Normalize, Meant, Descending;
  }

  lemma {:induction false} FoldAllAt(l: Link, atoms: seq<Atom>, syms: seq<Symbol>, r: map<AtomId, AtomId>, x: Atom,
                                     ps: seq<Reloc>)
    requires ValidLink(l, atoms, syms, r) && x.origin in l.symbols && forall p :: p in ps ==> x.inputOffset <= p.offset
    ensures var f := FoldAll(l, atoms, syms, r, x, ps);
      && (f.Some? <==> forall k :: 0 <= k < |ps| ==> FoldOne(l, atoms, syms, r, x, ps[k]).Some?)
      && (f.Some? ==> |f.value| == |ps|)
      && (f.Some? ==> forall k :: 0 <= k < |ps| ==> FoldOne(l, atoms, syms, r, x, ps[k]) == Some(f.value[k]))
  {
    hide FoldOne, Descending;
    if ps != [] {
      FoldAllAt(l, atoms, syms, r, x, ps[1..]);
      assert forall k :: 0 < k < |ps| ==> ps[k] == ps[1..][k - 1];
    }
  }

  /** There is a signature exactly when everything is meant. */
  lemma SignatureMeant(l: Link, atoms: seq<Atom>, syms: seq<Symbol>, r: map<AtomId, AtomId>, x: Atom)
    requires ValidLink(l, atoms, syms, r)
    ensures Signature(l, atoms, syms, r, x).Some? <==> AllMeant(l, x)
  {
    if x.origin in l.symbols {
      var ps := RelocsAt(l, x);
      FoldAllAt(l, atoms, syms, r, x, ps);
      hide FoldAll, FoldOne, RelocMeant, Descending, RelocsAt;
      forall k | 0 <= k < |ps| ensures FoldOne(l, atoms, syms, r, x, ps[k]).Some? <==> RelocMeant(l, x, ps[k]) {
        FoldOneMeant(l, atoms, syms, r, x, ps[k]);
      }
    }
  }

  /** Equal signatures are relocations that agree one by one. */
  lemma SignatureExactly(l: Link, atoms: seq<Atom>, syms: seq<Symbol>, r: map<AtomId, AtomId>, x: Atom, y: Atom)
    requires ValidLink(l, atoms, syms, r) && AllMeant(l, x) && AllMeant(l, y)
    ensures Signature(l, atoms, syms, r, x) == Signature(l, atoms, syms, r, y) <==> SameRelocs(l, atoms, syms, r, x, y)
  {
    var ps, qs := RelocsAt(l, x), RelocsAt(l, y);
    SignatureMeant(l, atoms, syms, r, x);
    SignatureMeant(l, atoms, syms, r, y);
    FoldAllAt(l, atoms, syms, r, x, ps);
    FoldAllAt(l, atoms, syms, r, y, qs);
    forall k | 0 <= k < |ps| && k < |qs|
      ensures FoldOne(l, atoms, syms, r, x, ps[k]) == FoldOne(l, atoms, syms, r, y, qs[k])
         <==> SameReloc(l, atoms, syms, r, x, ps[k], y, qs[k])
    {
      FoldOneExactly(l, atoms, syms, r, x, ps[k], y, qs[k]);
    }
    hide FoldAll, FoldOne, RelocMeant, Descending, RelocsAt, SameReloc, AllMeant;
    var f, g := FoldAll(l, atoms, syms, r, x, ps).value, FoldAll(l, atoms, syms, r, y, qs).value;
    if SameRelocs(l, atoms, syms, r, x, y) {
      assert f == g;
    }
  }

  /** Equal but for ADDRESS_TAKEN. */
  predicate SameFlags(p: bv32, q: bv32) { p | BIT5 == q | BIT5 }

  /** Atoms that may stand for each other, once the redirects `r` are followed. */
  ghost predicate Alike(l: Link, atoms: seq<Atom>, syms: seq<Symbol>, r: map<AtomId, AtomId>, x: Atom, y: Atom)
    requires Descending(l, atoms, r)
  {
    && OutputOf(l, x) == OutputOf(l, y) && x.section == y.section
    && x.size == y.size && x.alignPow2 == y.alignPow2 && x.data == y.data && SameFlags(x.flags, y.flags)
    && SameRelocs(l, atoms, syms, r, x, y)
  }

  /** The pass may fold the atom: nothing fixes it, its operands are meant and its output section is known. */
  ghost predicate Free(l: Link, syms: seq<Symbol>, x: Atom) {
    !Fixed(x, syms) && AllMeant(l, x) && OutputOf(l, x).Some?
  }

  lemma FreeExactly(l: Link, atoms: seq<Atom>, syms: seq<Symbol>, a: AtomId)
    requires ValidLink(l, atoms, syms, map[]) && IsAtom(atoms, a)
    ensures Keyed(l, atoms, syms, a) <==> Free(l, syms, Get(atoms, a))
  {
    FixedExactly(Get(atoms, a), syms);
    SignatureMeant(l, atoms, syms, map[], Get(atoms, a));
    hide Foldable, Fixed, Signature, AllMeant, Descending;
  }

  lemma FlagsSet(p: bv32, q: bv32)
    requires FlagKey(p) == FlagKey(q)
    ensures SameFlags(p, q)
  {
  }

  lemma FlagsCleared(p: bv32, q: bv32)
    requires SameFlags(p, q)
    ensures FlagKey(p) == FlagKey(q)
  {
  }

  lemma AlikeExactly(l: Link, atoms: seq<Atom>, syms: seq<Symbol>, r: map<AtomId, AtomId>, a: AtomId, b: AtomId)
    requires ValidLink(l, atoms, syms, r) && IsAtom(atoms, a) && IsAtom(atoms, b)
    requires AllMeant(l, Get(atoms, a)) && AllMeant(l, Get(atoms, b))
    ensures SameMeaning(l, atoms, syms, r, a, b) <==> Alike(l, atoms, syms, r, Get(atoms, a), Get(atoms, b))
  {
    SignatureExactly(l, atoms, syms, r, Get(atoms, a), Get(atoms, b));
    hide Signature, SameRelocs, AllMeant, Descending, ValidLink, FlagKey, SameFlags;
    if SameMeaning(l, atoms, syms, r, a, b) {
      FlagsSet(Get(atoms, a).flags, Get(atoms, b).flags);
    }
    if Alike(l, atoms, syms, r, Get(atoms, a), Get(atoms, b)) {
      FlagsCleared(Get(atoms, a).flags, Get(atoms, b).flags);
    }
  }

  // ---- what becomes one ---------------------------------------------------------------------------------------

  /** A free atom's canonical atom has a key in the last state. */
  lemma LastKey(l: Link, atoms: seq<Atom>, init: State, c: AtomId)
    requires Initial(l, atoms, init) && ValidState(l, atoms, init)
    requires var end := Fold(l, atoms, init); c in end.kept && IsAtom(atoms, c) && Keyed(l, atoms, init.syms, c)
    ensures var end := Fold(l, atoms, init);
      && ValidState(l, atoms, end) && ValidLink(l, atoms, init.syms, end.redirects)
      && var x := Get(atoms, c);
         var sig := Signature(l, atoms, init.syms, end.redirects, x);
         && sig.Some? && (x.origin, x.inputSection) in l.outputSections
         && KeyOf(l, atoms, end, c) == Some(FoldKey(l.outputSections[(x.origin, x.inputSection)], x.section, x.size,
                                                    x.alignPow2, FlagKey(x.flags), x.data, sig.value))
  {
    InitialInv(l, atoms, init);
    FoldInv(l, atoms, init, init);
    var end, x := Fold(l, atoms, init), Get(atoms, c);
    assert AllTrack(l, atoms, end.redirects, init.syms, end.syms) && ValidState(l, atoms, end);
    hide Inv, Fold, Signature, Foldable, AllTrack, Descending, Initial;
    SignatureStays(l, atoms, init, c);
    SignatureTracks(l, atoms, end.redirects, init.syms, end.syms, x);
    FoldableTracks(l, atoms, end.redirects, init.syms, end.syms, x);
  }

  lemma OneKey(l: Link, atoms: seq<Atom>, init: State, c: AtomId, d: AtomId)
    requires Initial(l, atoms, init) && ValidState(l, atoms, init)
    requires var end := Fold(l, atoms, init);
      && c in end.kept && d in end.kept && IsAtom(atoms, c) && IsAtom(atoms, d)
      && Keyed(l, atoms, init.syms, c) && Keyed(l, atoms, init.syms, d)
      && ValidLink(l, atoms, init.syms, end.redirects) && SameMeaning(l, atoms, init.syms, end.redirects, c, d)
    ensures c == d
  {
    FoldStructure(l, atoms, init);
    LastKey(l, atoms, init, c);
    LastKey(l, atoms, init, d);
    var end := Fold(l, atoms, init);
    assert OutputOf(l, Get(atoms, c)) == OutputOf(l, Get(atoms, d));
    hide Fold, Signature, KeyOf, Keyed, Keys;
    KeysEqual(l, atoms, end, c, d);
  }

  /**
   * Exactly which atoms become one.  Two of the initially kept atoms end with one canonical atom if and only if
   * they are the same atom or both are free and alike, operands being compared by what they finally stand for.
   */
  lemma FoldsExactly(l: Link, atoms: seq<Atom>, init: State, a: AtomId, b: AtomId)
    requires Initial(l, atoms, init) && a in init.kept && b in init.kept
    ensures IsAtom(atoms, a) && IsAtom(atoms, b)
    ensures var r := Fold(l, atoms, init).redirects;
      && Descending(l, atoms, r)
      && (Canon(l, atoms, r, a) == Canon(l, atoms, r, b) <==>
          || a == b
          || (&& Free(l, init.syms, Get(atoms, a)) && Free(l, init.syms, Get(atoms, b))
              && Alike(l, atoms, init.syms, r, Get(atoms, a), Get(atoms, b))))
  {
    hide *;
    EndsAt(l, atoms, init, a);
    EndsAt(l, atoms, init, b);
    FreeExactly(l, atoms, init.syms, a);
    FreeExactly(l, atoms, init.syms, b);
    var r := Fold(l, atoms, init).redirects;
    var c, d := Canon(l, atoms, r, a), Canon(l, atoms, r, b);
    MeaningMoves(l, atoms, init.syms, r, a, c, b, d);
    if Keyed(l, atoms, init.syms, a) && Keyed(l, atoms, init.syms, b) {
      FreeMeant(l, init.syms, Get(atoms, a));
      FreeMeant(l, init.syms, Get(atoms, b));
      AlikeExactly(l, atoms, init.syms, r, a, b);
      if SameMeaning(l, atoms, init.syms, r, a, b) {
        OneKey(l, atoms, init, c, d);
      }
    }
  }

  /** Where a kept atom ends. */
  lemma EndsAt(l: Link, atoms: seq<Atom>, init: State, a: AtomId)
    requires Initial(l, atoms, init) && a in init.kept
    ensures ValidState(l, atoms, init) && ValidLink(l, atoms, init.syms, map[]) && IsAtom(atoms, a)
    ensures var end := Fold(l, atoms, init);
      && Descending(l, atoms, end.redirects) && ValidLink(l, atoms, init.syms, end.redirects)
      && var c := Canon(l, atoms, end.redirects, a);
         && c in end.kept && IsAtom(atoms, c) && SameMeaning(l, atoms, init.syms, end.redirects, a, c)
         && (c == a || (Keyed(l, atoms, init.syms, a) && Keyed(l, atoms, init.syms, c)))
  {
    FoldedLink(l, atoms, init);
    FoldPreservesMeaning(l, atoms, init);
    FoldStructure(l, atoms, init);
    CanonKeyed(l, atoms, init, Fold(l, atoms, init).redirects, a);
    hide Fold, Canon, Keyed, SameMeaning, Keys;
  }

  /** Sameness of meaning moves between atoms of one meaning. */
  lemma MeaningMoves(l: Link, atoms: seq<Atom>, syms: seq<Symbol>, r: map<AtomId, AtomId>, a: AtomId, c: AtomId,
                     b: AtomId, d: AtomId)
    requires ValidLink(l, atoms, syms, r)
    requires IsAtom(atoms, a) && IsAtom(atoms, b) && IsAtom(atoms, c) && IsAtom(atoms, d)
    requires SameMeaning(l, atoms, syms, r, a, c) && SameMeaning(l, atoms, syms, r, b, d)
    ensures SameMeaning(l, atoms, syms, r, a, b) <==> SameMeaning(l, atoms, syms, r, c, d)
    ensures c == d ==> SameMeaning(l, atoms, syms, r, a, b)
  {
    hide Signature, OutputOf, Descending;
  }

  lemma FreeMeant(l: Link, syms: seq<Symbol>, x: Atom)
    requires Free(l, syms, x)
    ensures AllMeant(l, x)
  {
  }

  /** The pass fails on an atom it would fold but for its output section. */
  lemma UnplacedExactly(l: Link, atoms: seq<Atom>, init: State, a: AtomId)
    requires Initial(l, atoms, init) && ValidState(l, atoms, init) && a in init.kept
    ensures Unplaced(l, atoms, init, a) <==>
      !Fixed(Get(atoms, a), init.syms) && AllMeant(l, Get(atoms, a)) && OutputOf(l, Get(atoms, a)) == None
  {
    FixedExactly(Get(atoms, a), init.syms);
    SignatureMeant(l, atoms, init.syms, init.redirects, Get(atoms, a));
    hide Foldable, Fixed, Signature, AllMeant, Descending, WellBound;
  }

  // ---- which of them stays --------------------------------------------------------------------------------------

  /** Load order, place in the archive, offset in the section, number of the atom. */
  function Place(l: Link, atoms: seq<Atom>, a: AtomId): (p: seq<nat>)
    requires IsAtom(atoms, a)
    ensures |p| == 4
  {
    var atom := Get(atoms, a);
    if atom.origin in l.loadOrder then [l.loadOrder[atom.origin].0, l.loadOrder[atom.origin].1, atom.inputOffset, a]
    else [0xffff_ffff_ffff_ffff, 0, atom.inputOffset, a]
  }

  /** Lexicographically smaller. */
  ghost predicate Smaller(x: seq<nat>, y: seq<nat>) {
    |x| == |y| && exists k :: 0 <= k < |x| && x[k] < y[k] && forall j :: 0 <= j < k ==> x[j] == y[j]
  }

  lemma SmallerExactly(l: Link, atoms: seq<Atom>, a: AtomId, b: AtomId)
    requires IsAtom(atoms, a) && IsAtom(atoms, b)
    ensures Before(l, atoms, a, b) <==> Smaller(Place(l, atoms, a), Place(l, atoms, b))
  {
    var x, y := Place(l, atoms, a), Place(l, atoms, b);
    var p, q := KeyOfOrder(l, atoms, a), KeyOfOrder(l, atoms, b);
    assert x[0] == p.load && x[1] == p.member && x[2] == p.offset && x[3] == p.id;
    assert y[0] == q.load && y[1] == q.member && y[2] == q.offset && y[3] == q.id;
    hide KeyOfOrder, Place;
    if Smaller(x, y) {
      var k :| 0 <= k < |x| && x[k] < y[k] && forall j :: 0 <= j < k ==> x[j] == y[j];
      assert k > 0 ==> x[0] == y[0];
      assert k > 1 ==> x[1] == y[1];
      assert k > 2 ==> x[2] == y[2];
    }
  }

  lemma SmallerTransitive(x: seq<nat>, y: seq<nat>, z: seq<nat>)
    requires Smaller(x, y) && Smaller(y, z)
    ensures Smaller(x, z)
  {
    var i :| 0 <= i < |x| && x[i] < y[i] && forall j :: 0 <= j < i ==> x[j] == y[j];
    var k :| 0 <= k < |y| && y[k] < z[k] && forall j :: 0 <= j < k ==> y[j] == z[j];
    var m := if i < k then i else k;
    assert x[m] < z[m] && forall j :: 0 <= j < m ==> x[j] == z[j];
  }

  /** The atom that stays is the first of those that become it. */
  lemma {:induction false} FirstStays(l: Link, atoms: seq<Atom>, r: map<AtomId, AtomId>, a: AtomId)
    requires Descending(l, atoms, r) && IsAtom(atoms, a)
    ensures var c := Canon(l, atoms, r, a);
      IsAtom(atoms, c) && (c == a || Smaller(Place(l, atoms, c), Place(l, atoms, a)))
    decreases a in r,
      if a in r then KeyOfOrder(l, atoms, a).load else 0,
      if a in r then KeyOfOrder(l, atoms, a).member else 0,
      if a in r then KeyOfOrder(l, atoms, a).offset else 0,
      if a in r then KeyOfOrder(l, atoms, a).id else 0
  {
    if a in r {
      SmallerExactly(l, atoms, r[a], a);
      FirstStays(l, atoms, r, r[a]);
      var c := Canon(l, atoms, r, a);
      hide Smaller, Place;
      if c != r[a] {
        SmallerTransitive(Place(l, atoms, c), Place(l, atoms, r[a]), Place(l, atoms, a));
      }
    }
  }

  // ---- whose address is taken --------------------------------------------------------------------------------------

  type ByOffset = map<(InputId, Reloc, Referent), set<AtomId>>

  /** The operand is a section, or a label that takes no part in resolution: looked up by offset. */
  predicate LookedUp(l: Link, i: InputId, ref: Referent) {
    || ref.SectionRef?
    || (i in l.symbols && ref.index < |l.symbols[i]| && l.symbols[i][ref.index].kind == Sect
        && l.symbols[i][ref.index].participates == false)
  }

  /** The operand's name is resolved to a definition in the atom. */
  predicate Names(l: Link, syms: seq<Symbol>, i: InputId, ref: Referent, a: AtomId) {
    && !LookedUp(l, i, ref) && i in l.symbols && ref.index < |l.symbols[i]|
    && a != 0
    && exists name :: name in l.resolved && l.symbols[i][ref.index].name == Some(name)
         && l.resolved[name] < |syms| && syms[l.resolved[name]].Defined? && syms[l.resolved[name]].atom == a
  }

  predicate Reaches(l: Link, syms: seq<Symbol>, byOffset: ByOffset, i: InputId, p: Reloc, ref: Referent, a: AtomId) {
    || Names(l, syms, i, ref, a)
    || (LookedUp(l, i, ref) && (i, p, ref) in byOffset && a in byOffset[(i, p, ref)])
  }

  lemma ReachesExactly(l: Link, syms: seq<Symbol>, byOffset: ByOffset, i: InputId, p: Reloc, ref: Referent, a: AtomId)
    ensures a in Targets(l, syms, byOffset, i, p, ref) <==> Reaches(l, syms, byOffset, i, p, ref, a)
  {
  }

  /** A relocation other than a branch reaches the atom, by its operand or its subtrahend. */
  ghost predicate Observed(l: Link, syms: seq<Symbol>, byOffset: ByOffset, a: AtomId) {
    exists at, k :: at in l.relocs && 0 <= k < |l.relocs[at]| && l.relocs[at][k].kind != Branch26 &&
      (|| Reaches(l, syms, byOffset, at.0, l.relocs[at][k], l.relocs[at][k].referent, a)
       || (l.relocs[at][k].subtrahend.Some?
           && Reaches(l, syms, byOffset, at.0, l.relocs[at][k], l.relocs[at][k].subtrahend.value, a)))
  }

  lemma ObservedExactly(l: Link, syms: seq<Symbol>, byOffset: ByOffset, a: AtomId)
    ensures TakesAddress(l, syms, byOffset, a) <==> Observed(l, syms, byOffset, a)
  {
    forall i, p, ref
      ensures a in Targets(l, syms, byOffset, i, p, ref) <==> Reaches(l, syms, byOffset, i, p, ref, a) {
      ReachesExactly(l, syms, byOffset, i, p, ref, a);
    }
    hide Targets, Reaches;
    if TakesAddress(l, syms, byOffset, a) {
      var at :| at in l.relocs &&
        exists reloc :: reloc in l.relocs[at] && MarksAddressTaken(reloc.kind) &&
          (a in Targets(l, syms, byOffset, at.0, reloc, reloc.referent) ||
           (reloc.subtrahend.Some? && a in Targets(l, syms, byOffset, at.0, reloc, reloc.subtrahend.value)));
      var reloc :| reloc in l.relocs[at] && MarksAddressTaken(reloc.kind) &&
          (a in Targets(l, syms, byOffset, at.0, reloc, reloc.referent) ||
           (reloc.subtrahend.Some? && a in Targets(l, syms, byOffset, at.0, reloc, reloc.subtrahend.value)));
      var k :| 0 <= k < |l.relocs[at]| && l.relocs[at][k] == reloc;
    }
    if Observed(l, syms, byOffset, a) {
      var at, k :| at in l.relocs && 0 <= k < |l.relocs[at]| && l.relocs[at][k].kind != Branch26 &&
        (|| Reaches(l, syms, byOffset, at.0, l.relocs[at][k], l.relocs[at][k].referent, a)
         || (l.relocs[at][k].subtrahend.Some?
             && Reaches(l, syms, byOffset, at.0, l.relocs[at][k], l.relocs[at][k].subtrahend.value, a)));
      assert l.relocs[at][k] in l.relocs[at] && MarksAddressTaken(l.relocs[at][k].kind);
    }
  }

  /** Marking fixes exactly the atoms observed, and changes nothing else about any atom. */
  lemma MarkedExactly(l: Link, syms: seq<Symbol>, byOffset: ByOffset, atoms: seq<Atom>, a: AtomId)
    requires IsAtom(atoms, a)
    ensures var x, y := Get(atoms, a), Get(MarkAddressTaken(l, syms, byOffset, atoms), a);
      && y == x.(flags := y.flags) && SameFlags(x.flags, y.flags)
      && (Fixed(y, syms) <==> Fixed(x, syms) || Observed(l, syms, byOffset, a))
  {
    ObservedExactly(l, syms, byOffset, a);
    MarkedAt(l, syms, byOffset, atoms, a - 1);
    var x, y := Get(atoms, a), Get(MarkAddressTaken(l, syms, byOffset, atoms), a);
    hide TakesAddress, Observed, MarkAddressTaken, Public, SameFlags;
    PublicSame(x, y, syms);
    BitsSet(x.flags);
  }

  lemma BitsSet(p: bv32)
    ensures SameFlags(p, p | ADDRESS_TAKEN) && (p | ADDRESS_TAKEN) & BIT5 != 0 && SameFlags(p, p)
  {
  }

  lemma PublicSame(x: Atom, y: Atom, syms: seq<Symbol>)
    requires x.owner == y.owner && x.altEntries == y.altEntries
    ensures Public(x, syms) <==> Public(y, syms)
  {
    assert forall s :: NamedBy(x, s) <==> NamedBy(y, s);
  }
}
