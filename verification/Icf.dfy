/** Identical code folding: the bucket-and-redirect loop of `fold_safe`. */
module Icf {
  import opened Wrappers

  type AtomId = nat
  type SymbolId = nat
  type InputId = nat

  const USIZE_MAX: nat := 0xffff_ffff_ffff_ffff
  const NO_DEAD_STRIP: bv32 := 1
  const ADDRESS_TAKEN: bv32 := 32

  datatype AtomSection = Text | ConstData | CStringLiterals | Literal16 | OtherSection(code: nat)

  datatype AltEntry = AltEntry(symbol: SymbolId, offsetWithinAtom: nat)

  datatype Atom = Atom(
    origin: InputId, inputSection: nat, section: AtomSection, inputOffset: nat, size: nat,
    alignPow2: nat, owner: Option<SymbolId>, altEntries: seq<AltEntry>, data: seq<bv8>, flags: bv32)

  datatype Symbol =
    | Defined(atom: AtomId, value: nat, privateExtern: bool)
    | Absolute(value: nat)
    | OtherSymbol(code: nat)

  datatype SymKind = Abs | Sect | OtherKind

  datatype InputSymbol = InputSymbol(participates: bool, kind: SymKind, value: nat, name: Option<string>)

  datatype Referent = SymbolRef(index: nat) | SectionRef(section: nat)

  datatype RelocKind =
    | Unsigned | Subtractor | Branch26 | Page21 | PageOff12 | PointerToGot
    | GotLoadPage21 | GotLoadPageOff12 | TlvpLoadPage21 | TlvpLoadPageOff12

  datatype Reloc = Reloc(
    offset: nat, kind: RelocKind, width: nat, pcrel: bool,
    referent: Referent, addend: int, subtrahend: Option<Referent>)

  datatype SectionKey = SectionKey(segment: string, name: string, flags: nat, stubSize: nat)

  datatype FoldReferent =
    | ToAtom(atom: AtomId)
    | ToAbsolute(value: nat)
    | ToSymbol(symbol: SymbolId)
    | ToLocal(input: InputId, index: nat)
    | ToSection(input: InputId, section: nat)

  datatype FoldReloc = FoldReloc(
    offset: nat, kind: RelocKind, width: nat, pcrel: bool,
    referent: FoldReferent, addend: int, subtrahend: Option<FoldReferent>)

  datatype FoldKey = FoldKey(
    outputSection: SectionKey, section: AtomSection, size: nat, alignPow2: nat,
    flags: bv32, data: seq<bv8>, relocs: seq<FoldReloc>)

  /** What the pass reads and never changes: the input objects' symbols, the load order
      of each input, and the relocation, output-section and resolved-name caches. */
  datatype Link = Link(
    symbols: map<InputId, seq<InputSymbol>>,
    loadOrder: map<InputId, (nat, nat)>,
    relocs: map<(InputId, nat), seq<Reloc>>,
    outputSections: map<(InputId, nat), SectionKey>,
    resolved: map<string, SymbolId>)

  /** What the loop changes. */
  datatype State = State(kept: set<AtomId>, redirects: map<AtomId, AtomId>, syms: seq<Symbol>)

  predicate IsAtom(atoms: seq<Atom>, a: AtomId) { 1 <= a <= |atoms| }

  function Get(atoms: seq<Atom>, a: AtomId): Atom
    requires IsAtom(atoms, a)
  {
    atoms[a - 1]
  }

  function AtomSymbols(atom: Atom): seq<SymbolId> {
    (if atom.owner.Some? then [atom.owner.value] else []) +
    seq(|atom.altEntries|, i requires 0 <= i < |atom.altEntries| => atom.altEntries[i].symbol)
  }

  // ---- the winner order -------------------------------------------------

  datatype OrderKey = OrderKey(load: nat, member: nat, offset: nat, id: nat)

  function KeyOfOrder(l: Link, atoms: seq<Atom>, a: AtomId): OrderKey
    requires IsAtom(atoms, a)
  {
    var atom := Get(atoms, a);
    var (load, member) := if atom.origin in l.loadOrder then l.loadOrder[atom.origin] else (USIZE_MAX, 0);
    OrderKey(load, member, atom.inputOffset, a)
  }

  predicate Less(x: OrderKey, y: OrderKey) {
    x.load < y.load || (x.load == y.load &&
      (x.member < y.member || (x.member == y.member &&
        (x.offset < y.offset || (x.offset == y.offset && x.id < y.id)))))
  }

  predicate Before(l: Link, atoms: seq<Atom>, a: AtomId, b: AtomId)
    requires IsAtom(atoms, a) && IsAtom(atoms, b)
  {
    Less(KeyOfOrder(l, atoms, a), KeyOfOrder(l, atoms, b))
  }

  // ---- redirect chains --------------------------------------------------

  /** Redirects lead from atoms of the table to strictly earlier ones. */
  ghost predicate Descending(l: Link, atoms: seq<Atom>, r: map<AtomId, AtomId>) {
    forall a :: a in r ==> IsAtom(atoms, a) && IsAtom(atoms, r[a]) && Before(l, atoms, r[a], a)
  }

  function Canon(l: Link, atoms: seq<Atom>, r: map<AtomId, AtomId>, a: AtomId): AtomId
    requires Descending(l, atoms, r)
    decreases a in r,
      if a in r then KeyOfOrder(l, atoms, a).load else 0,
      if a in r then KeyOfOrder(l, atoms, a).member else 0,
      if a in r then KeyOfOrder(l, atoms, a).offset else 0,
      if a in r then KeyOfOrder(l, atoms, a).id else 0
  {
    if a in r then Canon(l, atoms, r, r[a]) else a
  }

  /** `canonical_atom`: the loop ends, at the end of the redirect chain. */
  method CanonicalAtom(ghost l: Link, ghost atoms: seq<Atom>, a: AtomId, redirects: map<AtomId, AtomId>)
    returns (current: AtomId)
    requires Descending(l, atoms, redirects)
    ensures current == Canon(l, atoms, redirects, a)
    ensures current !in redirects
  {
    current := a;
    while current in redirects
      invariant Canon(l, atoms, redirects, current) == Canon(l, atoms, redirects, a)
      decreases current in redirects,
        if current in redirects then KeyOfOrder(l, atoms, current).load else 0,
        if current in redirects then KeyOfOrder(l, atoms, current).member else 0,
        if current in redirects then KeyOfOrder(l, atoms, current).offset else 0,
        if current in redirects then KeyOfOrder(l, atoms, current).id else 0
    {
      var next := redirects[current];
      if next == current {
        break;
      }
      current := next;
    }
  }

  // ---- fold keys --------------------------------------------------------

  predicate Foldable(atom: Atom, syms: seq<Symbol>) {
    && !atom.section.OtherSection?
    && atom.flags & NO_DEAD_STRIP == 0
    && atom.flags & ADDRESS_TAKEN == 0
    && !exists s :: s in AtomSymbols(atom) && s < |syms| && syms[s].Defined? && !syms[s].privateExtern
  }

  predicate Contains(atom: Atom, reloc: Reloc) {
    atom.inputOffset <= reloc.offset &&
    Saturate(reloc.offset + reloc.width) <= Saturate(atom.inputOffset + atom.size)
  }

  function Saturate(x: nat): nat {
    if x < 0x1_0000_0000 then x else 0xffff_ffff
  }

  function RelocsFor(relocs: seq<Reloc>, atom: Atom): (s: seq<Reloc>)
    ensures forall r :: r in s ==> r in relocs && Contains(atom, r)
  {
    if relocs == [] then []
    else (if Contains(atom, relocs[0]) then [relocs[0]] else []) + RelocsFor(relocs[1..], atom)
  }

  ghost predicate ValidLink(l: Link, atoms: seq<Atom>, syms: seq<Symbol>, r: map<AtomId, AtomId>) {
    && Descending(l, atoms, r)
    && forall name :: name in l.resolved ==> l.resolved[name] < |syms|
  }

  function Normalize(l: Link, atoms: seq<Atom>, syms: seq<Symbol>, r: map<AtomId, AtomId>,
                     input: InputId, ref: Referent): Option<FoldReferent>
    requires ValidLink(l, atoms, syms, r) && input in l.symbols
  {
    match ref
    case SectionRef(section) => Some(ToSection(input, section))
    case SymbolRef(index) =>
      if index >= |l.symbols[input]| then None else
      var sym := l.symbols[input][index];
      if !sym.participates then
        Some(if sym.kind.Abs? then ToAbsolute(sym.value) else ToLocal(input, index))
      else if sym.name.None? || sym.name.value !in l.resolved then None
      else
        var id := l.resolved[sym.name.value];
        match syms[id]
        case Defined(atom, _, _) =>
          Some(if atom != 0 then ToAtom(Canon(l, atoms, r, atom)) else ToSymbol(id))
        case Absolute(value) => Some(ToAbsolute(value))
        case OtherSymbol(_) => Some(ToSymbol(id))
  }

  function FoldOne(l: Link, atoms: seq<Atom>, syms: seq<Symbol>, r: map<AtomId, AtomId>,
                   atom: Atom, reloc: Reloc): Option<FoldReloc>
    requires ValidLink(l, atoms, syms, r) && atom.origin in l.symbols
    requires atom.inputOffset <= reloc.offset
  {
    var referent := Normalize(l, atoms, syms, r, atom.origin, reloc.referent);
    var subtrahend := if reloc.subtrahend.Some?
                      then Normalize(l, atoms, syms, r, atom.origin, reloc.subtrahend.value)
                      else None;
    if referent.None? || (reloc.subtrahend.Some? && subtrahend.None?) then None
    else Some(FoldReloc(reloc.offset - atom.inputOffset, reloc.kind, reloc.width, reloc.pcrel,
                        referent.value, reloc.addend, subtrahend))
  }

  function FoldAll(l: Link, atoms: seq<Atom>, syms: seq<Symbol>, r: map<AtomId, AtomId>,
                   atom: Atom, relocs: seq<Reloc>): Option<seq<FoldReloc>>
    requires ValidLink(l, atoms, syms, r) && atom.origin in l.symbols
    requires forall x :: x in relocs ==> atom.inputOffset <= x.offset
  {
    if relocs == [] then Some([]) else
    var first := FoldOne(l, atoms, syms, r, atom, relocs[0]);
    if first.None? then None else
    var rest := FoldAll(l, atoms, syms, r, atom, relocs[1..]);
    if rest.None? then None else Some([first.value] + rest.value)
  }

  function RelocsAt(l: Link, atom: Atom): seq<Reloc> {
    var at := (atom.origin, atom.inputSection);
    RelocsFor(if at in l.relocs then l.relocs[at] else [], atom)
  }

  /** `reloc_signature_for_atom`: the atom's relocations with every referent replaced by
      what it currently stands for. */
  function Signature(l: Link, atoms: seq<Atom>, syms: seq<Symbol>, r: map<AtomId, AtomId>, atom: Atom)
    : Option<seq<FoldReloc>>
    requires ValidLink(l, atoms, syms, r)
  {
    if atom.origin !in l.symbols then None else FoldAll(l, atoms, syms, r, atom, RelocsAt(l, atom))
  }

  ghost predicate ValidState(l: Link, atoms: seq<Atom>, st: State) {
    && ValidLink(l, atoms, st.syms, st.redirects)
    && forall a :: a in st.kept ==> IsAtom(atoms, a)
  }

  /** Would be bucketed, but its output section is unknown: `fold_safe` returns an error. */
  predicate Unplaced(l: Link, atoms: seq<Atom>, st: State, a: AtomId)
    requires ValidState(l, atoms, st) && a in st.kept
  {
    var atom := Get(atoms, a);
    && Foldable(atom, st.syms)
    && Signature(l, atoms, st.syms, st.redirects, atom).Some?
    && (atom.origin, atom.inputSection) !in l.outputSections
  }

  function FlagKey(flags: bv32): bv32 { flags & !ADDRESS_TAKEN }

  function KeyOf(l: Link, atoms: seq<Atom>, st: State, a: AtomId): Option<FoldKey>
    requires ValidState(l, atoms, st) && a in st.kept
  {
    var atom := Get(atoms, a);
    var sig := Signature(l, atoms, st.syms, st.redirects, atom);
    var at := (atom.origin, atom.inputSection);
    if !Foldable(atom, st.syms) || sig.None? || at !in l.outputSections then None
    else Some(FoldKey(l.outputSections[at], atom.section, atom.size, atom.alignPow2,
                      FlagKey(atom.flags), atom.data, sig.value))
  }

  /** The keys of the atoms that get bucketed this round. */
  function Keys(l: Link, atoms: seq<Atom>, st: State): map<AtomId, FoldKey>
    requires ValidState(l, atoms, st)
  {
    map a | a in st.kept && KeyOf(l, atoms, st, a).Some? :: KeyOf(l, atoms, st, a).value
  }

  // ---- one round, as a function of the keys ------------------------------

  ghost predicate SameKey(keys: map<AtomId, FoldKey>, a: AtomId, b: AtomId) {
    a in keys && b in keys && keys[a] == keys[b]
  }

  ghost predicate OfAtoms(atoms: seq<Atom>, keys: map<AtomId, FoldKey>) {
    forall a :: a in keys ==> IsAtom(atoms, a)
  }

  ghost predicate IsWinner(l: Link, atoms: seq<Atom>, keys: map<AtomId, FoldKey>, a: AtomId, w: AtomId)
    requires OfAtoms(atoms, keys)
  {
    && SameKey(keys, a, w)
    && forall b :: SameKey(keys, a, b) ==> b == w || Before(l, atoms, w, b)
  }

  ghost predicate IsLoser(l: Link, atoms: seq<Atom>, keys: map<AtomId, FoldKey>, a: AtomId)
    requires OfAtoms(atoms, keys)
  {
    exists b :: SameKey(keys, a, b) && Before(l, atoms, b, a)
  }

  /** Every key class has a first atom. */
  lemma WinnerExists(l: Link, atoms: seq<Atom>, keys: map<AtomId, FoldKey>, a: AtomId)
    requires OfAtoms(atoms, keys) && a in keys
    ensures exists w :: IsWinner(l, atoms, keys, a, w)
  {
    var w, todo := a, keys.Keys;
    while todo != {}
      invariant todo <= keys.Keys && SameKey(keys, a, w)
      invariant forall b :: b !in todo && SameKey(keys, a, b) ==> b == w || Before(l, atoms, w, b)
    {
      var b :| b in todo;
      if SameKey(keys, a, b) && Before(l, atoms, b, w) {
        w := b;
      }
      todo := todo - {b};
    }
    assert IsWinner(l, atoms, keys, a, w);
  }

  ghost function WinnerOf(l: Link, atoms: seq<Atom>, keys: map<AtomId, FoldKey>, a: AtomId): (w: AtomId)
    requires OfAtoms(atoms, keys) && a in keys
    ensures IsWinner(l, atoms, keys, a, w)
  {
    WinnerExists(l, atoms, keys, a);
    var w :| IsWinner(l, atoms, keys, a, w);
    w
  }

  ghost function Losers(l: Link, atoms: seq<Atom>, keys: map<AtomId, FoldKey>): (rr: map<AtomId, AtomId>)
    requires OfAtoms(atoms, keys)
  {
    map a | a in keys && IsLoser(l, atoms, keys, a) :: WinnerOf(l, atoms, keys, a)
  }

  /** A round redirects a loser to an earlier atom with its key that does not lose. */
  lemma LoserEdge(l: Link, atoms: seq<Atom>, keys: map<AtomId, FoldKey>, a: AtomId)
    requires OfAtoms(atoms, keys) && a in Losers(l, atoms, keys)
    ensures var w := Losers(l, atoms, keys)[a];
      SameKey(keys, a, w) && Before(l, atoms, w, a) && w !in Losers(l, atoms, keys)
  {
    var w := Losers(l, atoms, keys)[a];
    assert IsWinner(l, atoms, keys, a, w);
    var b :| SameKey(keys, a, b) && Before(l, atoms, b, a);
    if IsLoser(l, atoms, keys, w) {
      var c :| SameKey(keys, w, c) && Before(l, atoms, c, w);
      assert SameKey(keys, a, c);
    }
  }

  /** Two atoms with one key: the later one loses, to the first of the class. */
  lemma PairLoses(l: Link, atoms: seq<Atom>, keys: map<AtomId, FoldKey>, a: AtomId, b: AtomId)
    requires OfAtoms(atoms, keys) && SameKey(keys, a, b) && a != b
    ensures a in Losers(l, atoms, keys) || b in Losers(l, atoms, keys)
    ensures IsWinner(l, atoms, keys, a, b) ==> a in Losers(l, atoms, keys) && Losers(l, atoms, keys)[a] == b
  {
    if Before(l, atoms, b, a) {
      assert IsLoser(l, atoms, keys, a);
      assert IsWinner(l, atoms, keys, a, Losers(l, atoms, keys)[a]);
    } else {
      assert SameKey(keys, b, a) && Before(l, atoms, a, b);
      assert IsLoser(l, atoms, keys, b);
    }
  }

  ghost function RoundRedirects(l: Link, atoms: seq<Atom>, st: State): (rr: map<AtomId, AtomId>)
    requires ValidState(l, atoms, st)
  {
    Losers(l, atoms, Keys(l, atoms, st))
  }

  /** `rebind_folded_symbols` over a whole set of losers at once. */
  function Rebind(syms: seq<Symbol>, atoms: seq<Atom>, rr: map<AtomId, AtomId>): (out: seq<Symbol>)
    requires forall a :: a in rr ==> IsAtom(atoms, a)
    ensures |out| == |syms|
  {
    seq(|syms|, s requires 0 <= s < |syms| =>
      var sym := syms[s];
      if sym.Defined? && sym.atom in rr && s in AtomSymbols(Get(atoms, sym.atom))
      then sym.(atom := rr[sym.atom]) else sym)
  }

  ghost function Step(l: Link, atoms: seq<Atom>, st: State): State
    requires ValidState(l, atoms, st)
  {
    var rr := RoundRedirects(l, atoms, st);
    State(st.kept - rr.Keys, st.redirects + rr, Rebind(st.syms, atoms, rr))
  }

  lemma RoundEdge(l: Link, atoms: seq<Atom>, st: State, a: AtomId)
    requires ValidState(l, atoms, st) && a in RoundRedirects(l, atoms, st)
    ensures var w := RoundRedirects(l, atoms, st)[a];
      && SameKey(Keys(l, atoms, st), a, w) && Before(l, atoms, w, a)
      && w !in RoundRedirects(l, atoms, st) && a in st.kept && w in st.kept
  {
    LoserEdge(l, atoms, Keys(l, atoms, st), a);
  }

  lemma StepValid(l: Link, atoms: seq<Atom>, st: State)
    requires ValidState(l, atoms, st)
    ensures ValidState(l, atoms, Step(l, atoms, st))
  {
    var rr := RoundRedirects(l, atoms, st);
    assert Descending(l, atoms, rr) by {
      forall a | a in rr ensures IsAtom(atoms, a) && IsAtom(atoms, rr[a]) && Before(l, atoms, rr[a], a) {
        RoundEdge(l, atoms, st, a);
      }
    }
    hide RoundRedirects, Descending, Rebind, IsAtom;
    UnionDescends(l, atoms, st.redirects, rr);
  }

  lemma UnionDescends(l: Link, atoms: seq<Atom>, r: map<AtomId, AtomId>, rr: map<AtomId, AtomId>)
    requires Descending(l, atoms, r) && Descending(l, atoms, rr)
    ensures Descending(l, atoms, r + rr)
  {
    hide Before, IsAtom;
  }

  lemma StepShrinks(l: Link, atoms: seq<Atom>, st: State)
    requires ValidState(l, atoms, st) && RoundRedirects(l, atoms, st) != map[]
    ensures Step(l, atoms, st).kept < st.kept
    ensures |Step(l, atoms, st).kept| < |st.kept|
  {
  }

  /** The whole loop, as a function of the initial state. */
  ghost function Fold(l: Link, atoms: seq<Atom>, st: State): State
    requires ValidState(l, atoms, st)
    decreases |st.kept|
  {
    if RoundRedirects(l, atoms, st) == map[] then st
    else
      StepValid(l, atoms, st);
      StepShrinks(l, atoms, st);
      Fold(l, atoms, Step(l, atoms, st))
  }

  /** `rebind_symbols_to_canonical_winners`. */
  function Settle(l: Link, atoms: seq<Atom>, st: State): (out: State)
    requires ValidState(l, atoms, st)
    ensures |out.syms| == |st.syms|
  {
    st.(syms := seq(|st.syms|, s requires 0 <= s < |st.syms| =>
      var sym := st.syms[s];
      if sym.Defined? && sym.atom != 0
      then sym.(atom := Canon(l, atoms, st.redirects, sym.atom)) else sym))
  }

  // ---- how canonical atoms and signatures move between rounds -------------

  /** Later redirects only extend chains: canonicalising twice is canonicalising once. */
  lemma {:induction false} CanonExtend(
    l: Link, atoms: seq<Atom>, r: map<AtomId, AtomId>, rr: map<AtomId, AtomId>, a: AtomId)
    requires Descending(l, atoms, r) && Descending(l, atoms, rr) && r.Keys !! rr.Keys
    ensures Descending(l, atoms, r + rr)
    ensures Canon(l, atoms, r + rr, Canon(l, atoms, r, a)) == Canon(l, atoms, r + rr, a)
    decreases a in r,
      if a in r then KeyOfOrder(l, atoms, a).load else 0,
      if a in r then KeyOfOrder(l, atoms, a).member else 0,
      if a in r then KeyOfOrder(l, atoms, a).offset else 0,
      if a in r then KeyOfOrder(l, atoms, a).id else 0
  {
    if a in r {
      CanonExtend(l, atoms, r, rr, r[a]);
    }
  }

  function LiftRef(l: Link, atoms: seq<Atom>, r: map<AtomId, AtomId>, f: FoldReferent): FoldReferent
    requires Descending(l, atoms, r)
  {
    if f.ToAtom? then ToAtom(Canon(l, atoms, r, f.atom)) else f
  }

  function LiftReloc(l: Link, atoms: seq<Atom>, r: map<AtomId, AtomId>, f: FoldReloc): FoldReloc
    requires Descending(l, atoms, r)
  {
    f.(referent := LiftRef(l, atoms, r, f.referent),
       subtrahend := if f.subtrahend.Some? then Some(LiftRef(l, atoms, r, f.subtrahend.value)) else None)
  }

  function LiftAll(l: Link, atoms: seq<Atom>, r: map<AtomId, AtomId>, f: seq<FoldReloc>): seq<FoldReloc>
    requires Descending(l, atoms, r)
  {
    if f == [] then [] else [LiftReloc(l, atoms, r, f[0])] + LiftAll(l, atoms, r, f[1..])
  }

  function LiftSig(l: Link, atoms: seq<Atom>, r: map<AtomId, AtomId>, f: Option<seq<FoldReloc>>)
    : Option<seq<FoldReloc>>
    requires Descending(l, atoms, r)
  {
    if f.Some? then Some(LiftAll(l, atoms, r, f.value)) else None
  }

  lemma NormalizeExtend(l: Link, atoms: seq<Atom>, syms: seq<Symbol>, r: map<AtomId, AtomId>,
                        rr: map<AtomId, AtomId>, input: InputId, ref: Referent)
    requires ValidLink(l, atoms, syms, r) && Descending(l, atoms, rr) && r.Keys !! rr.Keys
    requires input in l.symbols
    ensures ValidLink(l, atoms, syms, r + rr)
    ensures var before := Normalize(l, atoms, syms, r, input, ref);
      Normalize(l, atoms, syms, r + rr, input, ref)
        == if before.Some? then Some(LiftRef(l, atoms, r + rr, before.value)) else None
  {
    UnionDescends(l, atoms, r, rr);
    if ref.SymbolRef? && ref.index < |l.symbols[input]| {
      var sym := l.symbols[input][ref.index];
      if sym.participates && sym.name.Some? && sym.name.value in l.resolved {
        var target := syms[l.resolved[sym.name.value]];
        if target.Defined? {
          CanonExtend(l, atoms, r, rr, target.atom);
        }
      }
    }
    hide Descending, Canon;
  }

  lemma FoldOneExtend(l: Link, atoms: seq<Atom>, syms: seq<Symbol>, r: map<AtomId, AtomId>,
                      rr: map<AtomId, AtomId>, atom: Atom, reloc: Reloc)
    requires ValidLink(l, atoms, syms, r) && Descending(l, atoms, rr) && r.Keys !! rr.Keys
    requires atom.origin in l.symbols && atom.inputOffset <= reloc.offset
    ensures ValidLink(l, atoms, syms, r + rr)
    ensures var before := FoldOne(l, atoms, syms, r, atom, reloc);
      FoldOne(l, atoms, syms, r + rr, atom, reloc)
        == if before.Some? then Some(LiftReloc(l, atoms, r + rr, before.value)) else None
  {
    hide Normalize;
    NormalizeExtend(l, atoms, syms, r, rr, atom.origin, reloc.referent);
    if reloc.subtrahend.Some? {
      NormalizeExtend(l, atoms, syms, r, rr, atom.origin, reloc.subtrahend.value);
    }
  }

  lemma {:induction false} FoldAllExtend(
    l: Link, atoms: seq<Atom>, syms: seq<Symbol>, r: map<AtomId, AtomId>,
    rr: map<AtomId, AtomId>, atom: Atom, relocs: seq<Reloc>)
    requires ValidLink(l, atoms, syms, r) && Descending(l, atoms, rr) && r.Keys !! rr.Keys
    requires atom.origin in l.symbols
    requires forall x :: x in relocs ==> atom.inputOffset <= x.offset
    ensures ValidLink(l, atoms, syms, r + rr)
    ensures FoldAll(l, atoms, syms, r + rr, atom, relocs)
         == LiftSig(l, atoms, r + rr, FoldAll(l, atoms, syms, r, atom, relocs))
  {
    hide FoldOne;
    if relocs != [] {
      FoldOneExtend(l, atoms, syms, r, rr, atom, relocs[0]);
      FoldAllExtend(l, atoms, syms, r, rr, atom, relocs[1..]);
    }
  }

  /** The signature under more redirects is the old one with every target moved along. */
  lemma SignatureExtend(l: Link, atoms: seq<Atom>, syms: seq<Symbol>, r: map<AtomId, AtomId>,
                        rr: map<AtomId, AtomId>, atom: Atom)
    requires ValidLink(l, atoms, syms, r) && Descending(l, atoms, rr) && r.Keys !! rr.Keys
    ensures ValidLink(l, atoms, syms, r + rr)
    ensures Signature(l, atoms, syms, r + rr, atom)
         == LiftSig(l, atoms, r + rr, Signature(l, atoms, syms, r, atom))
  {
    if atom.origin in l.symbols {
      FoldAllExtend(l, atoms, syms, r, rr, atom, RelocsAt(l, atom));
    }
  }

  // ---- what every round keeps --------------------------------------------

  /** Owners and alternate entries of these atoms, where defined, are defined at them. */
  ghost predicate WellBound(atoms: seq<Atom>, syms: seq<Symbol>, kept: set<AtomId>) {
    forall a, s :: (a in kept && IsAtom(atoms, a) && s in AtomSymbols(Get(atoms, a)) && s < |syms|
                    && syms[s].Defined?) ==> syms[s].atom == a
  }

  /** Symbols move only along redirect chains, and only their atom changes. */
  ghost predicate Tracks(l: Link, atoms: seq<Atom>, r: map<AtomId, AtomId>, was: Symbol, now: Symbol)
    requires Descending(l, atoms, r)
  {
    now == was ||
    (&& was.Defined? && now.Defined? && now == was.(atom := now.atom)
     && (was.atom == 0 <==> now.atom == 0)
     && Canon(l, atoms, r, now.atom) == Canon(l, atoms, r, was.atom))
  }

  ghost predicate AllTrack(l: Link, atoms: seq<Atom>, r: map<AtomId, AtomId>, was: seq<Symbol>, now: seq<Symbol>)
    requires Descending(l, atoms, r)
  {
    |was| == |now| && forall s :: 0 <= s < |was| ==> Tracks(l, atoms, r, was[s], now[s])
  }

  function OutputOf(l: Link, atom: Atom): Option<SectionKey> {
    var at := (atom.origin, atom.inputSection);
    if at in l.outputSections then Some(l.outputSections[at]) else None
  }

  /** Interchangeable atoms: same output section, kind, size, alignment, flags up to
      ADDRESS_TAKEN and bytes, and relocation by relocation the same shape with targets
      that have the same canonical atom. */
  ghost predicate SameMeaning(l: Link, atoms: seq<Atom>, syms: seq<Symbol>, r: map<AtomId, AtomId>,
                              a: AtomId, b: AtomId)
    requires ValidLink(l, atoms, syms, r) && IsAtom(atoms, a) && IsAtom(atoms, b)
  {
    var x, y := Get(atoms, a), Get(atoms, b);
    && OutputOf(l, x) == OutputOf(l, y)
    && x.section == y.section && x.size == y.size && x.alignPow2 == y.alignPow2
    && FlagKey(x.flags) == FlagKey(y.flags) && x.data == y.data
    && Signature(l, atoms, syms, r, x) == Signature(l, atoms, syms, r, y)
  }

  /** Kept atoms and redirect sources partition the initial atoms; redirects stay inside. */
  ghost predicate Partition(l: Link, atoms: seq<Atom>, init: State, st: State) {
    && ValidState(l, atoms, st) && |init.syms| == |st.syms|
    && st.kept !! st.redirects.Keys && st.kept + st.redirects.Keys == init.kept
    && forall a :: a in st.redirects ==> st.redirects[a] in init.kept
  }

  /** Gets a key when the pass begins. */
  ghost predicate Keyed(l: Link, atoms: seq<Atom>, syms: seq<Symbol>, a: AtomId)
    requires ValidLink(l, atoms, syms, map[]) && IsAtom(atoms, a)
  {
    var atom := Get(atoms, a);
    && Foldable(atom, syms) && Signature(l, atoms, syms, map[], atom).Some?
    && (atom.origin, atom.inputSection) in l.outputSections
  }

  ghost predicate Inv(l: Link, atoms: seq<Atom>, init: State, st: State) {
    && Partition(l, atoms, init, st)
    && AllTrack(l, atoms, st.redirects, init.syms, st.syms)
    && WellBound(atoms, st.syms, st.kept)
    && (forall a :: a in st.redirects ==>
          Keyed(l, atoms, init.syms, a) && Keyed(l, atoms, init.syms, st.redirects[a]))
    && forall a :: a in init.kept ==>
         IsAtom(atoms, Canon(l, atoms, st.redirects, a)) &&
         SameMeaning(l, atoms, init.syms, st.redirects, a, Canon(l, atoms, st.redirects, a))
  }

  ghost predicate Initial(l: Link, atoms: seq<Atom>, init: State) {
    init.redirects == map[] && ValidState(l, atoms, init) && WellBound(atoms, init.syms, init.kept)
  }

  lemma {:induction false} CanonKept(l: Link, atoms: seq<Atom>, init: State, st: State, a: AtomId)
    requires Partition(l, atoms, init, st) && a in init.kept
    ensures Canon(l, atoms, st.redirects, a) in st.kept
    decreases a in st.redirects,
      if a in st.redirects then KeyOfOrder(l, atoms, a).load else 0,
      if a in st.redirects then KeyOfOrder(l, atoms, a).member else 0,
      if a in st.redirects then KeyOfOrder(l, atoms, a).offset else 0,
      if a in st.redirects then KeyOfOrder(l, atoms, a).id else 0
  {
    if a in st.redirects {
      CanonKept(l, atoms, init, st, st.redirects[a]);
    }
  }

  lemma NormalizeTracks(l: Link, atoms: seq<Atom>, r: map<AtomId, AtomId>, was: seq<Symbol>, now: seq<Symbol>,
                        input: InputId, ref: Referent)
    requires ValidLink(l, atoms, was, r) && ValidLink(l, atoms, now, r) && AllTrack(l, atoms, r, was, now)
    requires input in l.symbols
    ensures Normalize(l, atoms, now, r, input, ref) == Normalize(l, atoms, was, r, input, ref)
  {
  }

  /** Moving symbols along redirects changes neither signatures nor foldability. */
  lemma {:induction false} FoldAllTracks(
    l: Link, atoms: seq<Atom>, r: map<AtomId, AtomId>, was: seq<Symbol>, now: seq<Symbol>,
    atom: Atom, relocs: seq<Reloc>)
    requires ValidLink(l, atoms, was, r) && ValidLink(l, atoms, now, r) && AllTrack(l, atoms, r, was, now)
    requires atom.origin in l.symbols
    requires forall x :: x in relocs ==> atom.inputOffset <= x.offset
    ensures FoldAll(l, atoms, now, r, atom, relocs) == FoldAll(l, atoms, was, r, atom, relocs)
  {
    if relocs != [] {
      NormalizeTracks(l, atoms, r, was, now, atom.origin, relocs[0].referent);
      if relocs[0].subtrahend.Some? {
        NormalizeTracks(l, atoms, r, was, now, atom.origin, relocs[0].subtrahend.value);
      }
      hide Normalize, Descending, AllTrack;
      FoldAllTracks(l, atoms, r, was, now, atom, relocs[1..]);
    }
  }

  lemma SignatureTracks(l: Link, atoms: seq<Atom>, r: map<AtomId, AtomId>,
                        was: seq<Symbol>, now: seq<Symbol>, atom: Atom)
    requires ValidLink(l, atoms, was, r) && ValidLink(l, atoms, now, r) && AllTrack(l, atoms, r, was, now)
    ensures Signature(l, atoms, now, r, atom) == Signature(l, atoms, was, r, atom)
  {
    if atom.origin in l.symbols {
      FoldAllTracks(l, atoms, r, was, now, atom, RelocsAt(l, atom));
    }
  }

  lemma FoldableTracks(l: Link, atoms: seq<Atom>, r: map<AtomId, AtomId>,
                       was: seq<Symbol>, now: seq<Symbol>, atom: Atom)
    requires Descending(l, atoms, r) && AllTrack(l, atoms, r, was, now)
    ensures Foldable(atom, now) <==> Foldable(atom, was)
  {
  }

  /** Equality proved under some redirects survives every later redirect. */
  lemma MeaningExtend(l: Link, atoms: seq<Atom>, syms: seq<Symbol>, r: map<AtomId, AtomId>,
                      rr: map<AtomId, AtomId>, a: AtomId, b: AtomId)
    requires ValidLink(l, atoms, syms, r) && Descending(l, atoms, rr) && r.Keys !! rr.Keys
    requires IsAtom(atoms, a) && IsAtom(atoms, b) && SameMeaning(l, atoms, syms, r, a, b)
    ensures ValidLink(l, atoms, syms, r + rr) && SameMeaning(l, atoms, syms, r + rr, a, b)
  {
    SignatureExtend(l, atoms, syms, r, rr, Get(atoms, a));
    SignatureExtend(l, atoms, syms, r, rr, Get(atoms, b));
  }

  /** Equal keys mean equal meaning, read off the initial symbol table. */
  lemma KeyMeaning(l: Link, atoms: seq<Atom>, init: State, st: State, a: AtomId, b: AtomId)
    requires Partition(l, atoms, init, st) && AllTrack(l, atoms, st.redirects, init.syms, st.syms)
    requires SameKey(Keys(l, atoms, st), a, b)
    ensures SameMeaning(l, atoms, init.syms, st.redirects, a, b)
    ensures Keyed(l, atoms, init.syms, a) && Keyed(l, atoms, init.syms, b)
  {
    SignatureTracks(l, atoms, st.redirects, init.syms, st.syms, Get(atoms, a));
    SignatureTracks(l, atoms, st.redirects, init.syms, st.syms, Get(atoms, b));
    KeysKeyed(l, atoms, init, st, a);
    KeysKeyed(l, atoms, init, st, b);
    hide Keyed;
  }

  /** What gets a key in some round got one when the pass began. */
  lemma KeysKeyed(l: Link, atoms: seq<Atom>, init: State, st: State, a: AtomId)
    requires Partition(l, atoms, init, st) && AllTrack(l, atoms, st.redirects, init.syms, st.syms)
    requires a in Keys(l, atoms, st)
    ensures Keyed(l, atoms, init.syms, a)
  {
    var atom := Get(atoms, a);
    SignatureTracks(l, atoms, st.redirects, init.syms, st.syms, atom);
    FoldableTracks(l, atoms, st.redirects, init.syms, st.syms, atom);
    hide Foldable, Signature, LiftSig, AllTrack;
    SignatureExtend(l, atoms, init.syms, map[], st.redirects, atom);
    assert map[] + st.redirects == st.redirects;
    LiftSome(l, atoms, st.redirects, Signature(l, atoms, init.syms, map[], atom));
  }

  lemma RoundDescending(l: Link, atoms: seq<Atom>, st: State)
    requires ValidState(l, atoms, st) && st.kept !! st.redirects.Keys
    ensures Descending(l, atoms, RoundRedirects(l, atoms, st))
    ensures st.redirects.Keys !! RoundRedirects(l, atoms, st).Keys
  {
  }

  lemma StepPartition(l: Link, atoms: seq<Atom>, init: State, st: State)
    requires Partition(l, atoms, init, st)
    ensures Partition(l, atoms, init, Step(l, atoms, st))
  {
    StepValid(l, atoms, st);
    forall a | a in RoundRedirects(l, atoms, st) {
      RoundEdge(l, atoms, st, a);
    }
  }

  lemma TracksStep(l: Link, atoms: seq<Atom>, r: map<AtomId, AtomId>, rr: map<AtomId, AtomId>,
                   was: Symbol, now: Symbol, next: Symbol)
    requires Descending(l, atoms, r) && Descending(l, atoms, rr) && r.Keys !! rr.Keys
    requires Tracks(l, atoms, r, was, now)
    requires next == now || (now.Defined? && now.atom in rr && next == now.(atom := rr[now.atom]))
    ensures Descending(l, atoms, r + rr) && Tracks(l, atoms, r + rr, was, next)
  {
    if was.Defined? {
      CanonExtend(l, atoms, r, rr, was.atom);
      CanonExtend(l, atoms, r, rr, now.atom);
    }
  }

  lemma StepTracks(l: Link, atoms: seq<Atom>, init: State, st: State)
    requires Partition(l, atoms, init, st) && AllTrack(l, atoms, st.redirects, init.syms, st.syms)
    requires Partition(l, atoms, init, Step(l, atoms, st))
    ensures AllTrack(l, atoms, Step(l, atoms, st).redirects, init.syms, Step(l, atoms, st).syms)
  {
    var rr := RoundRedirects(l, atoms, st);
    var st' := Step(l, atoms, st);
    RoundDescending(l, atoms, st);
    forall s | 0 <= s < |init.syms|
      ensures Tracks(l, atoms, st'.redirects, init.syms[s], st'.syms[s])
    {
      TracksStep(l, atoms, st.redirects, rr, init.syms[s], st.syms[s], st'.syms[s]);
    }
  }

  lemma StepWellBound(l: Link, atoms: seq<Atom>, st: State)
    requires ValidState(l, atoms, st) && WellBound(atoms, st.syms, st.kept)
    ensures WellBound(atoms, Step(l, atoms, st).syms, Step(l, atoms, st).kept)
  {
  }

  /** Where the round leaves a kept atom, its meaning is unchanged. */
  lemma RoundMeaning(l: Link, atoms: seq<Atom>, init: State, st: State, w: AtomId)
    requires Partition(l, atoms, init, st) && AllTrack(l, atoms, st.redirects, init.syms, st.syms)
    requires w in st.kept
    ensures var r' := Step(l, atoms, st).redirects;
      && ValidLink(l, atoms, init.syms, r')
      && IsAtom(atoms, Canon(l, atoms, r', w))
      && SameMeaning(l, atoms, init.syms, r', w, Canon(l, atoms, r', w))
  {
    var r, rr := st.redirects, RoundRedirects(l, atoms, st);
    RoundDescending(l, atoms, st);
    StepValid(l, atoms, st);
    if w in rr {
      RoundEdge(l, atoms, st, w);
      KeyMeaning(l, atoms, init, st, w, rr[w]);
      MeaningExtend(l, atoms, init.syms, r, rr, w, rr[w]);
      assert rr[w] !in r + rr;
    }
  }

  lemma StepMeaning(l: Link, atoms: seq<Atom>, init: State, st: State, a: AtomId)
    requires Partition(l, atoms, init, st) && AllTrack(l, atoms, st.redirects, init.syms, st.syms)
    requires a in init.kept && IsAtom(atoms, a) && IsAtom(atoms, Canon(l, atoms, st.redirects, a))
    requires SameMeaning(l, atoms, init.syms, st.redirects, a, Canon(l, atoms, st.redirects, a))
    ensures var r' := Step(l, atoms, st).redirects;
      && ValidLink(l, atoms, init.syms, r')
      && IsAtom(atoms, Canon(l, atoms, r', a))
      && SameMeaning(l, atoms, init.syms, r', a, Canon(l, atoms, r', a))
  {
    var w := Canon(l, atoms, st.redirects, a);
    var rr := RoundRedirects(l, atoms, st);
    RoundDescending(l, atoms, st);
    CanonKept(l, atoms, init, st, a);
    CanonExtend(l, atoms, st.redirects, rr, a);
    MeaningExtend(l, atoms, init.syms, st.redirects, rr, a, w);
    RoundMeaning(l, atoms, init, st, w);
  }

  lemma StepInv(l: Link, atoms: seq<Atom>, init: State, st: State)
    requires Inv(l, atoms, init, st)
    ensures Inv(l, atoms, init, Step(l, atoms, st))
  {
    StepPartition(l, atoms, init, st);
    StepTracks(l, atoms, init, st);
    StepWellBound(l, atoms, st);
    var rr := RoundRedirects(l, atoms, st);
    forall a | a in rr ensures Keyed(l, atoms, init.syms, a) && Keyed(l, atoms, init.syms, rr[a]) {
      RoundEdge(l, atoms, st, a);
      KeyMeaning(l, atoms, init, st, a, rr[a]);
    }
    forall a | a in init.kept {
      StepMeaning(l, atoms, init, st, a);
    }
  }

  lemma {:induction false} FoldInv(l: Link, atoms: seq<Atom>, init: State, st: State)
    requires Inv(l, atoms, init, st)
    ensures Inv(l, atoms, init, Fold(l, atoms, st))
    ensures RoundRedirects(l, atoms, Fold(l, atoms, st)) == map[]
    decreases |st.kept|
  {
    if RoundRedirects(l, atoms, st) != map[] {
      StepShrinks(l, atoms, st);
      StepInv(l, atoms, init, st);
      FoldInv(l, atoms, init, Step(l, atoms, st));
    }
  }

  // ---- results -------------------------------------------------------------

  lemma SettledSymbol(l: Link, atoms: seq<Atom>, init: State, st: State, s: SymbolId)
    requires Partition(l, atoms, init, st) && AllTrack(l, atoms, st.redirects, init.syms, st.syms)
    requires s < |init.syms|
    ensures Settle(l, atoms, st).syms[s] == Final(l, atoms, st.redirects, init.syms[s])
  {
  }

  /** Where folding must leave a symbol: at the canonical atom of the atom it started from. */
  ghost function Final(l: Link, atoms: seq<Atom>, r: map<AtomId, AtomId>, sym: Symbol): Symbol
    requires Descending(l, atoms, r)
  {
    if sym.Defined? && sym.atom != 0 then sym.(atom := Canon(l, atoms, r, sym.atom)) else sym
  }

  /** Folding preserves meaning.  Every initial atom ends in a kept atom that means the
      same once all redirects are followed, and every symbol ends at the canonical atom of
      the atom it started from, with nothing else about it changed. */
  lemma FoldPreservesMeaning(l: Link, atoms: seq<Atom>, init: State)
    requires Initial(l, atoms, init)
    ensures var end := Fold(l, atoms, init);
      && Partition(l, atoms, init, end)
      && (forall a :: a in init.kept ==>
            && Canon(l, atoms, end.redirects, a) in end.kept
            && SameMeaning(l, atoms, init.syms, end.redirects, a, Canon(l, atoms, end.redirects, a)))
      && (forall s :: 0 <= s < |init.syms| ==>
            Settle(l, atoms, end).syms[s] == Final(l, atoms, end.redirects, init.syms[s]))
  {
    InitialInv(l, atoms, init);
    FoldInv(l, atoms, init, init);
    var end := Fold(l, atoms, init);
    forall a | a in init.kept ensures Canon(l, atoms, end.redirects, a) in end.kept {
      CanonKept(l, atoms, init, end, a);
    }
    forall s | 0 <= s < |init.syms|
      ensures Settle(l, atoms, end).syms[s] == Final(l, atoms, end.redirects, init.syms[s])
    {
      SettledSymbol(l, atoms, init, end, s);
    }
  }

  /** Shape of the plan: kept atoms and redirect sources partition the initial atoms, only
      foldable atoms are redirected, and no two kept atoms still share a key. */
  lemma FoldStructure(l: Link, atoms: seq<Atom>, init: State)
    requires Initial(l, atoms, init)
    ensures var end := Fold(l, atoms, init);
      && Partition(l, atoms, init, end)
      && (forall a :: a in end.redirects ==>
            Keyed(l, atoms, init.syms, a) && Keyed(l, atoms, init.syms, end.redirects[a]))
      && forall a, b :: SameKey(Keys(l, atoms, end), a, b) ==> a == b
  {
    FoldInv(l, atoms, init, init);
    var end := Fold(l, atoms, init);
    forall a, b | SameKey(Keys(l, atoms, end), a, b) ensures a == b {
      if a != b {
        PairLoses(l, atoms, Keys(l, atoms, end), a, b);
      }
    }
  }

  // ---- address-taken atoms ---------------------------------------------------

  predicate MarksAddressTaken(kind: RelocKind) { !kind.Branch26? }

  /** Atoms a relocation operand may name.  Section and local-label operands are looked up
      by offset in the section's atoms; that table is a parameter. */
  function Targets(l: Link, syms: seq<Symbol>, byOffset: map<(InputId, Reloc, Referent), set<AtomId>>,
                   input: InputId, reloc: Reloc, ref: Referent): set<AtomId>
  {
    var local := if (input, reloc, ref) in byOffset then byOffset[(input, reloc, ref)] else {};
    match ref
    case SectionRef(_) => local
    case SymbolRef(index) =>
      if input !in l.symbols || index >= |l.symbols[input]| then {} else
      var sym := l.symbols[input][index];
      if sym.kind.Sect? && !sym.participates then local
      else if sym.name.None? || sym.name.value !in l.resolved then {}
      else
        var id := l.resolved[sym.name.value];
        if id < |syms| && syms[id].Defined? && syms[id].atom != 0 then {syms[id].atom} else {}
  }

  predicate TakesAddress(l: Link, syms: seq<Symbol>, byOffset: map<(InputId, Reloc, Referent), set<AtomId>>,
                         a: AtomId)
  {
    exists at :: at in l.relocs &&
      exists reloc :: reloc in l.relocs[at] && MarksAddressTaken(reloc.kind) &&
        (a in Targets(l, syms, byOffset, at.0, reloc, reloc.referent) ||
         (reloc.subtrahend.Some? && a in Targets(l, syms, byOffset, at.0, reloc, reloc.subtrahend.value)))
  }

  function MarkAddressTaken(l: Link, syms: seq<Symbol>,
                            byOffset: map<(InputId, Reloc, Referent), set<AtomId>>, atoms: seq<Atom>)
    : (marked: seq<Atom>)
    ensures |marked| == |atoms|
  {
    seq(|atoms|, i requires 0 <= i < |atoms| =>
      if TakesAddress(l, syms, byOffset, i + 1) then atoms[i].(flags := atoms[i].flags | ADDRESS_TAKEN)
      else atoms[i])
  }

  lemma MarkedIsNotFoldable(l: Link, syms: seq<Symbol>, byOffset: map<(InputId, Reloc, Referent), set<AtomId>>,
                            atoms: seq<Atom>, a: AtomId)
    requires IsAtom(atoms, a) && TakesAddress(l, syms, byOffset, a)
    ensures !Foldable(Get(MarkAddressTaken(l, syms, byOffset, atoms), a), syms)
  {
  }

  lemma UnfoldableStays(l: Link, atoms: seq<Atom>, init: State, a: AtomId)
    requires Initial(l, atoms, init) && a in init.kept && !Foldable(Get(atoms, a), init.syms)
    ensures var end := Fold(l, atoms, init);
      a in end.kept && Descending(l, atoms, end.redirects) && Canon(l, atoms, end.redirects, a) == a
  {
    FoldStructure(l, atoms, init);
  }

  /** Safety: two atoms whose addresses are observed never become one. */
  lemma AddressTakenStaysDistinct(
    l: Link, atoms: seq<Atom>, init: State, byOffset: map<(InputId, Reloc, Referent), set<AtomId>>,
    marked: seq<Atom>, a: AtomId, b: AtomId)
    requires marked == MarkAddressTaken(l, init.syms, byOffset, atoms) && Initial(l, marked, init)
    requires a in init.kept && b in init.kept && a != b
    requires TakesAddress(l, init.syms, byOffset, a) && TakesAddress(l, init.syms, byOffset, b)
    ensures var end := Fold(l, marked, init);
      && Descending(l, marked, end.redirects)
      && {a, b} <= end.kept
      && Canon(l, marked, end.redirects, a) != Canon(l, marked, end.redirects, b)
  {
    hide Foldable, TakesAddress, MarkAddressTaken, Fold;
    assert ValidState(l, marked, init);
    hide Initial, ValidState;
    MarkedIsNotFoldable(l, init.syms, byOffset, atoms, a);
    MarkedIsNotFoldable(l, init.syms, byOffset, atoms, b);
    UnfoldableStays(l, marked, init, a);
    UnfoldableStays(l, marked, init, b);
  }

  // ---- the pass ----------------------------------------------------------------

  type Buckets = map<FoldKey, seq<AtomId>>

  predicate Increasing(ids: seq<AtomId>, n: nat) {
    (forall i, j :: 0 <= i < j < |ids| ==> ids[i] < ids[j]) && forall i :: 0 <= i < |ids| ==> ids[i] <= n
  }

  /** The buckets hold exactly the keyed atoms with id at most `n`. */
  ghost predicate BucketsUpTo(keys: map<AtomId, FoldKey>, buckets: Buckets, n: nat) {
    && (forall key :: key in buckets ==> Increasing(buckets[key], n) && |buckets[key]| > 0)
    && (forall key, a :: key in buckets && a in buckets[key] ==> a in keys && keys[a] == key)
    && (forall a :: a in keys && a <= n ==> keys[a] in buckets && a in buckets[keys[a]])
  }

  lemma BucketPush(keys: map<AtomId, FoldKey>, buckets: Buckets, n: nat, key: FoldKey)
    requires BucketsUpTo(keys, buckets, n) && n + 1 in keys && keys[n + 1] == key
    ensures BucketsUpTo(keys, buckets[key := (if key in buckets then buckets[key] else []) + [n + 1]], n + 1)
  {
  }

  lemma NoBuckets(keys: map<AtomId, FoldKey>)
    requires forall a :: a in keys ==> a > 0
    ensures BucketsUpTo(keys, map[], 0)
  {
  }

  lemma BucketSkip(keys: map<AtomId, FoldKey>, buckets: Buckets, n: nat)
    requires BucketsUpTo(keys, buckets, n) && n + 1 !in keys
    ensures BucketsUpTo(keys, buckets, n + 1)
  {
  }

  /** The bucketing half of a round; it fails exactly when a foldable atom is unplaced. */
  method Bucketize(l: Link, atoms: seq<Atom>, st: State) returns (r: Result<Buckets>)
    requires ValidState(l, atoms, st)
    ensures r.Err? <==> exists a :: a in st.kept && Unplaced(l, atoms, st, a)
    ensures r.Ok? ==> BucketsUpTo(Keys(l, atoms, st), r.value, |atoms|)
  {
    hide Foldable, Signature, BucketsUpTo, Descending;
    var buckets: Buckets := map[];
    NoBuckets(Keys(l, atoms, st));
    ghost var keys := Keys(l, atoms, st);
    for i := 0 to |atoms|
      invariant BucketsUpTo(keys, buckets, i)
      invariant forall a :: a in st.kept && a <= i ==> !Unplaced(l, atoms, st, a)
    {
      var id := i + 1;
      if id !in st.kept {
        BucketSkip(keys, buckets, i);
        continue;
      }
      if Unplaced(l, atoms, st, id) {
        return Err;
      }
      var key := KeyOf(l, atoms, st, id);
      if key.None? {
        BucketSkip(keys, buckets, i);
      } else {
        BucketPush(keys, buckets, i, key.value);
        buckets := buckets[key.value := (if key.value in buckets then buckets[key.value] else []) + [id]];
      }
    }
    r := Ok(buckets);
  }

  /** `min_by_key` over a bucket. */
  method PickWinner(l: Link, atoms: seq<Atom>, ids: seq<AtomId>) returns (w: AtomId)
    requires |ids| > 0 && forall a :: a in ids ==> IsAtom(atoms, a)
    ensures w in ids && forall a :: a in ids ==> a == w || Before(l, atoms, w, a)
  {
    w := ids[0];
    for i := 1 to |ids|
      invariant w in ids && forall j :: 0 <= j < i ==> ids[j] == w || Before(l, atoms, w, ids[j])
    {
      if Before(l, atoms, ids[i], w) {
        w := ids[i];
      }
    }
  }

  function Bind(sym: Symbol, atom: AtomId): Symbol {
    if sym.Defined? then sym.(atom := atom) else sym
  }

  /** `rebind_folded_symbols`: the loser's own symbols move to the winner. */
  method RebindFolded(syms: seq<Symbol>, names: seq<SymbolId>, winner: AtomId) returns (out: seq<Symbol>)
    ensures |out| == |syms|
    ensures forall s :: 0 <= s < |syms| ==> out[s] == if s in names then Bind(syms[s], winner) else syms[s]
  {
    out := syms;
    for i := 0 to |names|
      invariant |out| == |syms|
      invariant forall s :: 0 <= s < |syms| ==>
        out[s] == if s in names[..i] then Bind(syms[s], winner) else syms[s]
    {
      assert names[..i + 1] == names[..i] + [names[i]];
      if names[i] < |out| {
        out := out[names[i] := Bind(out[names[i]], winner)];
      }
    }
    assert names[..|names|] == names;
  }

  /** `cur` is `st` with the redirects of `done`, a part of the round `rr`, applied. */
  ghost predicate Partway(atoms: seq<Atom>, st: State, rr: map<AtomId, AtomId>,
                          done: map<AtomId, AtomId>, cur: State)
  {
    && (forall a :: a in rr ==> IsAtom(atoms, a))
    && done.Keys <= rr.Keys && (forall a :: a in done ==> done[a] == rr[a])
    && cur == State(st.kept - done.Keys, st.redirects + done, Rebind(st.syms, atoms, done))
  }

  lemma RebindStep(atoms: seq<Atom>, st: State, done: map<AtomId, AtomId>, a: AtomId, w: AtomId, out: seq<Symbol>)
    requires WellBound(atoms, st.syms, st.kept) && a in st.kept && a !in done
    requires IsAtom(atoms, a) && forall b :: b in done ==> IsAtom(atoms, b)
    requires var was := Rebind(st.syms, atoms, done);
      |out| == |st.syms| &&
      forall s :: 0 <= s < |was| ==>
        out[s] == if s in AtomSymbols(Get(atoms, a)) then Bind(was[s], w) else was[s]
    ensures out == Rebind(st.syms, atoms, done[a := w])
  {
  }

  /** Redirecting one loser. */
  method RedirectOne(atoms: seq<Atom>, ghost st: State, ghost rr: map<AtomId, AtomId>,
                     ghost done: map<AtomId, AtomId>, cur: State, loser: AtomId, winner: AtomId)
    returns (next: State)
    requires WellBound(atoms, st.syms, st.kept)
    requires Partway(atoms, st, rr, done, cur) && loser !in done && loser in st.kept
    requires loser in rr && rr[loser] == winner
    ensures Partway(atoms, st, rr, done[loser := winner], next)
  {
    var syms := RebindFolded(cur.syms, AtomSymbols(Get(atoms, loser)), winner);
    RebindStep(atoms, st, done, loser, winner, syms);
    next := State(cur.kept - {loser}, cur.redirects[loser := winner], syms);
    assert st.kept - done.Keys - {loser} == st.kept - done[loser := winner].Keys;
    assert (st.redirects + done)[loser := winner] == st.redirects + done[loser := winner];
  }

  ghost predicate IsFirst(l: Link, atoms: seq<Atom>, ids: seq<AtomId>, w: AtomId)
    requires forall a :: a in ids ==> IsAtom(atoms, a)
  {
    w in ids && forall a :: a in ids ==> a == w || Before(l, atoms, w, a)
  }

  /** Within the bucket `ids`, the round `rr` redirects all but the first atom, to it. */
  ghost predicate Resolves(l: Link, atoms: seq<Atom>, ids: seq<AtomId>, rr: map<AtomId, AtomId>) {
    && (forall a :: a in ids ==> IsAtom(atoms, a))
    && (forall w, a :: IsFirst(l, atoms, ids, w) && a in ids && a != w ==> a in rr && rr[a] == w)
    && (forall w :: IsFirst(l, atoms, ids, w) ==> w !in rr)
  }

  lemma BucketResolves(l: Link, atoms: seq<Atom>, keys: map<AtomId, FoldKey>, key: FoldKey, ids: seq<AtomId>)
    requires OfAtoms(atoms, keys) && forall a :: a in ids <==> a in keys && keys[a] == key
    ensures Resolves(l, atoms, ids, Losers(l, atoms, keys))
  {
    forall w, a | IsFirst(l, atoms, ids, w) && a in ids && a != w
      ensures a in Losers(l, atoms, keys) && Losers(l, atoms, keys)[a] == w
    {
      assert IsWinner(l, atoms, keys, a, w);
      PairLoses(l, atoms, keys, a, w);
    }
    forall w | IsFirst(l, atoms, ids, w) ensures w !in Losers(l, atoms, keys) {
      if w in Losers(l, atoms, keys) {
        LoserEdge(l, atoms, keys, w);
      }
    }
  }

  /** Redirecting one bucket's losers to its winner. */
  method FoldBucket(l: Link, atoms: seq<Atom>, ghost st: State, ghost rr: map<AtomId, AtomId>,
                    ids: seq<AtomId>, cur: State, ghost done: map<AtomId, AtomId>)
    returns (next: State, changed: bool, ghost done': map<AtomId, AtomId>)
    requires WellBound(atoms, st.syms, st.kept)
    requires Partway(atoms, st, rr, done, cur) && Resolves(l, atoms, ids, rr)
    requires Increasing(ids, |atoms|) && |ids| > 0 && forall a :: a in ids ==> a !in done && a in st.kept
    ensures Partway(atoms, st, rr, done', next)
    ensures forall a :: a in done' <==> a in done || (a in ids && a in rr)
    ensures changed <==> done' != done
  {
    next, changed, done' := cur, false, done;
    if |ids| < 2 {
      assert IsFirst(l, atoms, ids, ids[0]);
      return;
    }
    var winner := PickWinner(l, atoms, ids);
    assert IsFirst(l, atoms, ids, winner);
    for i := 0 to |ids|
      invariant Partway(atoms, st, rr, done', next)
      invariant forall a :: a in done' <==> a in done || (a in ids[..i] && a != winner)
      invariant changed <==> done'.Keys != done.Keys
    {
      var loser := ids[i];
      if loser != winner {
        next := RedirectOne(atoms, st, rr, done', next, loser, winner);
        done' := done'[loser := winner];
        changed := true;
        assert loser in done'.Keys && loser !in done.Keys;
      }
    }
  }

  ghost predicate Covers(keys: map<AtomId, FoldKey>, rr: map<AtomId, AtomId>, todo: set<FoldKey>,
                         done: map<AtomId, AtomId>)
    requires rr.Keys <= keys.Keys
  {
    forall a :: a in done <==> a in rr && keys[a] !in todo
  }

  lemma CoversNext(keys: map<AtomId, FoldKey>, rr: map<AtomId, AtomId>, todo: set<FoldKey>, key: FoldKey,
                   ids: seq<AtomId>, done: map<AtomId, AtomId>, done': map<AtomId, AtomId>)
    requires rr.Keys <= keys.Keys && Covers(keys, rr, todo, done) && key in todo
    requires forall a :: a in ids <==> a in keys && keys[a] == key
    requires forall a :: a in done' <==> a in done || (a in ids && a in rr)
    ensures Covers(keys, rr, todo - {key}, done')
  {
  }

  lemma BucketIs(keys: map<AtomId, FoldKey>, buckets: Buckets, n: nat, key: FoldKey)
    requires BucketsUpTo(keys, buckets, n) && key in buckets && forall a :: a in keys ==> a <= n
    ensures |buckets[key]| > 0 && Increasing(buckets[key], n)
    ensures forall a :: a in buckets[key] <==> a in keys && keys[a] == key
  {
  }

  /** One turn of the outer loop; buckets are taken in any order. */
  method FoldRound(l: Link, atoms: seq<Atom>, st: State, ghost keys: map<AtomId, FoldKey>, buckets: Buckets)
    returns (next: State, changed: bool)
    requires OfAtoms(atoms, keys) && WellBound(atoms, st.syms, st.kept) && keys.Keys <= st.kept
    requires BucketsUpTo(keys, buckets, |atoms|)
    ensures Partway(atoms, st, Losers(l, atoms, keys), Losers(l, atoms, keys), next)
    ensures changed <==> Losers(l, atoms, keys) != map[]
  {
    hide Losers, Rebind, WellBound, BucketsUpTo, Resolves;
    next, changed := st, false;
    ghost var rr := Losers(l, atoms, keys);
    RoundStart(l, atoms, st, keys, buckets);
    ghost var done: map<AtomId, AtomId> := map[];
    var todo := buckets.Keys;
    while todo != {}
      invariant todo <= buckets.Keys && Partway(atoms, st, rr, done, next)
      invariant Covers(keys, rr, todo, done)
      invariant changed <==> done != map[]
    {
      var key :| key in todo;
      BucketIs(keys, buckets, |atoms|, key);
      BucketResolves(l, atoms, keys, key, buckets[key]);
      ghost var was := done;
      var c;
      next, c, done := FoldBucket(l, atoms, st, rr, buckets[key], next, done);
      CoversNext(keys, rr, todo, key, buckets[key], was, done);
      changed := changed || c;
      todo := todo - {key};
      assert done == map[] ==> was == map[];
    }
    CoversAll(keys, rr, done);
  }

  lemma RoundStart(l: Link, atoms: seq<Atom>, st: State, keys: map<AtomId, FoldKey>, buckets: Buckets)
    requires OfAtoms(atoms, keys) && BucketsUpTo(keys, buckets, |atoms|)
    ensures var rr := Losers(l, atoms, keys);
      && rr.Keys <= keys.Keys
      && Partway(atoms, st, rr, map[], st) && Covers(keys, rr, buckets.Keys, map[])
  {
  }

  lemma CoversAll(keys: map<AtomId, FoldKey>, rr: map<AtomId, AtomId>, done: map<AtomId, AtomId>)
    requires rr.Keys <= keys.Keys && Covers(keys, rr, {}, done) && forall a :: a in done ==> a in rr && done[a] == rr[a]
    ensures done == rr
  {
  }

  /** `fold_safe`.  It fails exactly when a foldable live atom has no output section;
      otherwise, whatever order the buckets come in, the plan and the symbol table are
      the ones the fold function gives. */
  method FoldSafe(l: Link, atoms: seq<Atom>, syms: seq<Symbol>, live: Option<set<AtomId>>,
                  byOffset: map<(InputId, Reloc, Referent), set<AtomId>>)
    returns (marked: seq<Atom>, r: Result<State>)
    requires ValidLink(l, atoms, syms, map[])
    requires live.Some? ==> forall a :: a in live.value ==> IsAtom(atoms, a)
    requires WellBound(atoms, syms, Start(atoms, syms, live).kept)
    ensures marked == MarkAddressTaken(l, syms, byOffset, atoms)
    ensures var init := Start(atoms, syms, live);
      && Initial(l, marked, init)
      && (r.Err? <==> exists a :: a in init.kept && Unplaced(l, marked, init, a))
      && (r.Ok? ==> Partition(l, marked, init, Fold(l, marked, init))
                    && r.value == Settle(l, marked, Fold(l, marked, init)))
  {
    marked := MarkAddressTaken(l, syms, byOffset, atoms);
    var init := Start(atoms, syms, live);
    MarkingKeepsBinding(l, syms, byOffset, atoms, init);
    r := FoldLoop(l, marked, init);
  }

  function Start(atoms: seq<Atom>, syms: seq<Symbol>, live: Option<set<AtomId>>): State {
    State(if live.Some? then live.value else set a | 1 <= a <= |atoms| && IsAtom(atoms, a), map[], syms)
  }

  method FoldLoop(l: Link, atoms: seq<Atom>, init: State) returns (r: Result<State>)
    requires Initial(l, atoms, init)
    ensures r.Err? <==> exists a :: a in init.kept && Unplaced(l, atoms, init, a)
    ensures r.Ok? ==> Partition(l, atoms, init, Fold(l, atoms, init))
                      && r.value == Settle(l, atoms, Fold(l, atoms, init))
  {
    hide *;
    RoundsNone(l, atoms, init);
    var st := init;
    ghost var n := 0;
    var changed := true;
    while changed
      invariant st == Rounds(l, atoms, init, n)
      invariant !changed ==> Fold(l, atoms, st) == st
      invariant n > 0 ==> forall a :: a in init.kept ==> !Unplaced(l, atoms, init, a)
      invariant n == 0 ==> changed && st == init
      decreases changed, |st.kept|
    {
      var buckets := Bucketize(l, atoms, st);
      if buckets.Err? {
        RoundsUnplaced(l, atoms, init, n);
        return Err;
      }
      ghost var was := st;
      KeysShape(l, atoms, st);
      st, changed := FoldRound(l, atoms, st, Keys(l, atoms, st), buckets.value);
      RoundsNext(l, atoms, init, n, st);
      n := n + 1;
    }
    RoundsInv(l, atoms, init, n);
    RoundsFold(l, atoms, init, n);
    InvPartition(l, atoms, init, st);
    r := Ok(Settle(l, atoms, st));
  }

  lemma KeysShape(l: Link, atoms: seq<Atom>, st: State)
    requires ValidState(l, atoms, st)
    ensures OfAtoms(atoms, Keys(l, atoms, st)) && Keys(l, atoms, st).Keys <= st.kept
  {
  }

  lemma InvPartition(l: Link, atoms: seq<Atom>, init: State, st: State)
    requires Inv(l, atoms, init, st)
    ensures Partition(l, atoms, init, st) && ValidState(l, atoms, st)
  {
  }

  lemma RoundsNone(l: Link, atoms: seq<Atom>, init: State)
    requires Initial(l, atoms, init)
    ensures ValidState(l, atoms, init) && Rounds(l, atoms, init, 0) == init
  {
  }

  lemma RoundsNext(l: Link, atoms: seq<Atom>, init: State, n: nat, next: State)
    requires Initial(l, atoms, init)
    requires var st := Rounds(l, atoms, init, n);
      && OfAtoms(atoms, Keys(l, atoms, st))
      && Partway(atoms, st, Losers(l, atoms, Keys(l, atoms, st)), Losers(l, atoms, Keys(l, atoms, st)), next)
    ensures var st := Rounds(l, atoms, init, n);
      && next == Rounds(l, atoms, init, n + 1)
      && (Losers(l, atoms, Keys(l, atoms, st)) == map[] ==> Fold(l, atoms, next) == next)
      && (Losers(l, atoms, Keys(l, atoms, st)) != map[] ==> |next.kept| < |st.kept|)
  {
    hide Keys, Losers, Fold, ValidState, WellBound;
    var st := Rounds(l, atoms, init, n);
    assert next == Step(l, atoms, st);
    FoldUnroll(l, atoms, st);
    if RoundRedirects(l, atoms, st) == map[] {
      StepIdle(l, atoms, st);
    }
  }

  /** The state after `n` turns of the loop. */
  ghost function Rounds(l: Link, atoms: seq<Atom>, init: State, n: nat): (st: State)
    requires Initial(l, atoms, init)
    ensures ValidState(l, atoms, st) && WellBound(atoms, st.syms, st.kept)
  {
    if n == 0 then init else
    var st := Rounds(l, atoms, init, n - 1);
    StepValid(l, atoms, st);
    StepWellBound(l, atoms, st);
    Step(l, atoms, st)
  }

  lemma RoundsStep(l: Link, atoms: seq<Atom>, init: State, n: nat)
    requires Initial(l, atoms, init)
    ensures Rounds(l, atoms, init, n + 1) == Step(l, atoms, Rounds(l, atoms, init, n))
  {
  }

  lemma {:induction false} RoundsInv(l: Link, atoms: seq<Atom>, init: State, n: nat)
    requires Initial(l, atoms, init)
    ensures Inv(l, atoms, init, Rounds(l, atoms, init, n))
  {
    hide *;
    if n == 0 {
      RoundsNone(l, atoms, init);
      InitialInv(l, atoms, init);
    } else {
      RoundsInv(l, atoms, init, n - 1);
      RoundsStep(l, atoms, init, n - 1);
      StepInv(l, atoms, init, Rounds(l, atoms, init, n - 1));
    }
  }

  lemma {:induction false} RoundsFold(l: Link, atoms: seq<Atom>, init: State, n: nat)
    requires Initial(l, atoms, init)
    ensures Fold(l, atoms, Rounds(l, atoms, init, n)) == Fold(l, atoms, init)
  {
    hide *;
    if n == 0 {
      RoundsNone(l, atoms, init);
    } else {
      RoundsFold(l, atoms, init, n - 1);
      RoundsStep(l, atoms, init, n - 1);
      FoldUnroll(l, atoms, Rounds(l, atoms, init, n - 1));
    }
  }

  lemma RoundsUnplaced(l: Link, atoms: seq<Atom>, init: State, n: nat)
    requires Initial(l, atoms, init)
    requires exists a :: a in Rounds(l, atoms, init, n).kept && Unplaced(l, atoms, Rounds(l, atoms, init, n), a)
    ensures exists a :: a in init.kept && Unplaced(l, atoms, init, a)
  {
    var st := Rounds(l, atoms, init, n);
    var a :| a in st.kept && Unplaced(l, atoms, st, a);
    RoundsInv(l, atoms, init, n);
    UnplacedTracks(l, atoms, init, st, a);
  }

  lemma StepIdle(l: Link, atoms: seq<Atom>, st: State)
    requires ValidState(l, atoms, st) && RoundRedirects(l, atoms, st) == map[]
    ensures Step(l, atoms, st) == st
  {
  }

  lemma FoldUnroll(l: Link, atoms: seq<Atom>, st: State)
    requires ValidState(l, atoms, st)
    ensures ValidState(l, atoms, Step(l, atoms, st))
    ensures Fold(l, atoms, st) == Fold(l, atoms, Step(l, atoms, st))
    ensures RoundRedirects(l, atoms, st) == map[] ==> Fold(l, atoms, st) == st
    ensures RoundRedirects(l, atoms, st) != map[] ==> |Step(l, atoms, st).kept| < |st.kept|
  {
    StepValid(l, atoms, st);
    if RoundRedirects(l, atoms, st) == map[] {
      StepIdle(l, atoms, st);
    } else {
      StepShrinks(l, atoms, st);
    }
  }

  lemma MarkingKeepsBinding(l: Link, syms: seq<Symbol>, byOffset: map<(InputId, Reloc, Referent), set<AtomId>>,
                            atoms: seq<Atom>, init: State)
    requires ValidLink(l, atoms, syms, map[]) && init.redirects == map[] && init.syms == syms
    requires (forall a :: a in init.kept ==> IsAtom(atoms, a)) && WellBound(atoms, syms, init.kept)
    ensures Initial(l, MarkAddressTaken(l, syms, byOffset, atoms), init)
  {
  }

  lemma InitialInv(l: Link, atoms: seq<Atom>, init: State)
    requires Initial(l, atoms, init)
    ensures Inv(l, atoms, init, init)
  {
  }

  /** Whether an atom is unplaced does not depend on how far folding has gone. */
  lemma UnplacedTracks(l: Link, atoms: seq<Atom>, init: State, st: State, a: AtomId)
    requires Initial(l, atoms, init) && Inv(l, atoms, init, st) && a in st.kept
    ensures Unplaced(l, atoms, st, a) <==> Unplaced(l, atoms, init, a)
  {
    hide *;
    TracksFacts(l, atoms, init, st, a);
    var atom := Get(atoms, a);
    SignatureTracks(l, atoms, st.redirects, init.syms, st.syms, atom);
    FoldableTracks(l, atoms, st.redirects, init.syms, st.syms, atom);
    SignatureExtend(l, atoms, init.syms, map[], st.redirects, atom);
    assert map[] + st.redirects == st.redirects;
    LiftSome(l, atoms, st.redirects, Signature(l, atoms, init.syms, map[], atom));
    UnplacedWhen(l, atoms, st, a);
    UnplacedWhen(l, atoms, init, a);
  }

  lemma TracksFacts(l: Link, atoms: seq<Atom>, init: State, st: State, a: AtomId)
    requires Initial(l, atoms, init) && Inv(l, atoms, init, st) && a in st.kept
    ensures ValidState(l, atoms, init) && ValidState(l, atoms, st) && init.redirects == map[]
    ensures IsAtom(atoms, a) && a in init.kept && Descending(l, atoms, st.redirects)
    ensures ValidLink(l, atoms, init.syms, map[]) && ValidLink(l, atoms, st.syms, st.redirects)
    ensures ValidLink(l, atoms, init.syms, st.redirects)
    ensures AllTrack(l, atoms, st.redirects, init.syms, st.syms)
  {
    hide Keyed, SameMeaning, Canon, AllTrack, WellBound;
  }

  lemma UnplacedWhen(l: Link, atoms: seq<Atom>, st: State, a: AtomId)
    requires ValidState(l, atoms, st) && ValidLink(l, atoms, st.syms, st.redirects) && a in st.kept && IsAtom(atoms, a)
    ensures Unplaced(l, atoms, st, a) <==>
      && Foldable(Get(atoms, a), st.syms) && Signature(l, atoms, st.syms, st.redirects, Get(atoms, a)).Some?
      && (Get(atoms, a).origin, Get(atoms, a).inputSection) !in l.outputSections
  {
    hide Foldable, Signature;
  }

  lemma LiftSome(l: Link, atoms: seq<Atom>, r: map<AtomId, AtomId>, s: Option<seq<FoldReloc>>)
    requires Descending(l, atoms, r)
    ensures LiftSig(l, atoms, r, s).Some? <==> s.Some?
  {
  }
}
