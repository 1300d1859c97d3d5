/** Ordered archive and group selection for a static link. */
module Archives {
  import opened Wrappers
  import opened Elf
  import opened Arith
  import Resolve

  datatype IndexEntry = IndexEntry(name: string, offset: nat)

  /**
   * An archive as selection sees it: whether it opens, its symbol index, and what parsing the
   * member at a header offset gives (`None` when the member cannot be loaded).
   */
  datatype Archive = Archive(opens: bool, index: Option<seq<IndexEntry>>, members: map<nat, Option<Object>>)

  datatype Input =
    | Explicit(obj: Option<Object>)
    | Lib(ar: Archive, pulled: set<nat>)
    | GroupStart
    | GroupEnd

  // ---- the archive's symbol index ---------------------------------------------------------

  function FirstOffset(entries: seq<IndexEntry>, p: string -> bool): (r: Option<nat>)
    ensures r.None? <==> forall k :: 0 <= k < |entries| ==> !p(entries[k].name)
    ensures r.Some? ==> exists k :: 0 <= k < |entries| && p(entries[k].name) && entries[k].offset == r.value
  {
    if entries == [] then None
    else
      var n := |entries| - 1;
      assert forall k :: 0 <= k < n ==> entries[..n][k] == entries[k];
      var r := FirstOffset(entries[..n], p);
      if r.Some? then r else if p(entries[n].name) then Some(entries[n].offset) else None
  }

  lemma {:induction false} FirstOffsetStays(entries: seq<IndexEntry>, p: string -> bool, i: nat)
    requires i <= |entries| && FirstOffset(entries[..i], p).Some?
    ensures FirstOffset(entries, p) == FirstOffset(entries[..i], p)
    decreases |entries|
  {
    if i < |entries| {
      var n := |entries| - 1;
      assert entries[..n][..i] == entries[..i];
      FirstOffsetStays(entries[..n], p, i);
    } else {
      assert entries[..i] == entries;
    }
  }

  lemma FirstOffsetPush(entries: seq<IndexEntry>, p: string -> bool, i: nat)
    requires i < |entries|
    ensures FirstOffset(entries[..i + 1], p) ==
      if FirstOffset(entries[..i], p).Some? then FirstOffset(entries[..i], p)
      else if p(entries[i].name) then Some(entries[i].offset) else None
  {
    assert entries[..i + 1][..i] == entries[..i];
  }

  function Exactly(name: string): string -> bool { (full: string) => full == name }

  function DefaultVersion(name: string): string -> bool {
    (full: string) => Resolve.VersionOf(full, name) && Resolve.IsDefault(full)
  }

  function OtherVersion(name: string): string -> bool {
    (full: string) => Resolve.VersionOf(full, name) && !Resolve.IsDefault(full)
  }

  /** An exact entry, else the first default version, else the first other version. */
  function Lookup(ar: Archive, name: string): Option<nat> {
    match ar.index
    case None => None
    case Some(entries) =>
      var exact := FirstOffset(entries, Exactly(name));
      var dflt := FirstOffset(entries, DefaultVersion(name));
      if exact.Some? then exact else if dflt.Some? then dflt else FirstOffset(entries, OtherVersion(name))
  }

  /** `first_defining_offset`. */
  method FirstDefining(entries: seq<IndexEntry>, name: string) returns (r: Option<nat>)
    ensures r == FirstOffset(entries, Exactly(name))
  {
    for i := 0 to |entries|
      invariant FirstOffset(entries[..i], Exactly(name)) == None
    {
      assert entries[..i + 1][..i] == entries[..i];
      if entries[i].name == name {
        FirstOffsetStays(entries, Exactly(name), i + 1);
        return Some(entries[i].offset);
      }
    }
    assert entries[..|entries|] == entries;
    return None;
  }

  /** `armap_offset`: one loop over the entries finds both kinds of version. */
  method ArmapOffset(ar: Archive, name: string) returns (r: Option<nat>)
    ensures r == Lookup(ar, name)
  {
    if ar.index == None {
      return None;
    }
    var entries := ar.index.value;
    var exact := FirstDefining(entries, name);
    if exact.Some? {
      return exact;
    }
    var any: Option<nat> := None;
    hide FirstOffset, Resolve.VersionOf, Resolve.IsDefault;
    assert FirstOffset([], DefaultVersion(name)) == FirstOffset([], OtherVersion(name)) == None;
    for i := 0 to |entries|
      invariant FirstOffset(entries[..i], DefaultVersion(name)) == None
      invariant FirstOffset(entries[..i], OtherVersion(name)) == any
    {
      FirstOffsetPush(entries, DefaultVersion(name), i);
      FirstOffsetPush(entries, OtherVersion(name), i);
      if !Resolve.VersionOf(entries[i].name, name) {
        continue;
      }
      if Resolve.IsDefault(entries[i].name) {
        FirstOffsetStays(entries, DefaultVersion(name), i + 1);
        return Some(entries[i].offset);
      }
      if any == None {
        any := Some(entries[i].offset);
      }
    }
    assert entries[..|entries|] == entries;
    return any;
  }

  function Offsets(ar: Archive): set<nat> {
    match ar.index
    case None => {}
    case Some(entries) => set k | 0 <= k < |entries| :: entries[k].offset
  }

  predicate Answers(full: string, name: string) { full == name || Resolve.VersionOf(full, name) }

  /** A name has an offset exactly when the index holds it plain or versioned. */
  lemma LookupExact(ar: Archive, name: string)
    ensures Lookup(ar, name).Some? ==> Lookup(ar, name).value in Offsets(ar)
    ensures Lookup(ar, name).Some? <==>
      ar.index.Some? && exists k :: 0 <= k < |ar.index.value| && Answers(ar.index.value[k].name, name)
  {
    if ar.index.Some? {
      var entries := ar.index.value;
      assert forall k :: 0 <= k < |entries| ==>
        Answers(entries[k].name, name) ==
        (|| Exactly(name)(entries[k].name)
         || DefaultVersion(name)(entries[k].name)
         || OtherVersion(name)(entries[k].name));
    }
  }

  // ---- definitions and demand -----------------------------------------------------------

  function NamesOf(sym: Symbol): set<string> {
    if !Resolve.Defines(sym) then {}
    else if Resolve.FindAt(sym.name).Some? then {sym.name, sym.name[..Resolve.FindAt(sym.name).value]}
    else {sym.name}
  }

  function SymbolNames(syms: seq<Symbol>): (r: set<string>)
    ensures forall name :: name in r <==> exists k :: 0 <= k < |syms| && name in NamesOf(syms[k])
  {
    if syms == [] then {}
    else
      var n := |syms| - 1;
      assert syms == syms[..n] + [syms[n]];
      SymbolNames(syms[..n]) + NamesOf(syms[n])
  }

  function Definitions(objects: seq<Object>): set<string> {
    if objects == [] then {}
    else Definitions(objects[..|objects| - 1]) + SymbolNames(objects[|objects| - 1].symbols)
  }

  /** `defined_names`. */
  method DefinedNames(obj: Object, known: set<string>) returns (out: set<string>)
    ensures out == known + SymbolNames(obj.symbols)
  {
    out := known;
    for i := 0 to |obj.symbols|
      invariant out == known + SymbolNames(obj.symbols[..i])
    {
      var sym := obj.symbols[i];
      assert obj.symbols[..i + 1][..i] == obj.symbols[..i];
      if !Resolve.Defines(sym) {
        continue;
      }
      out := out + {sym.name};
      if Resolve.FindAt(sym.name).Some? {
        out := out + {sym.name[..Resolve.FindAt(sym.name).value]};
      }
    }
    assert obj.symbols[..|obj.symbols|] == obj.symbols;
  }

  lemma {:induction false} DefinitionsGrow(objects: seq<Object>, n: nat)
    requires n <= |objects|
    ensures Definitions(objects[..n]) <= Definitions(objects)
    decreases |objects|
  {
    if n < |objects| {
      var init := objects[..|objects| - 1];
      assert init[..n] == objects[..n];
      DefinitionsGrow(init, n);
    } else {
      assert objects[..n] == objects;
    }
  }

  /**
   * A strong undefined reference that nothing selected satisfies; a reference of non-default
   * visibility looks only at the objects' own definitions.
   */
  predicate AsksFor(own: set<string>, defined: set<string>, sym: Symbol) {
    && sym.shndx == SHN_UNDEF && sym.bind == STB_GLOBAL && sym.name != ""
    && sym.name !in (if sym.visibility == STV_DEFAULT then defined else own)
    && sym.name !in LINKER_SYMS
  }

  function AskedOf(own: set<string>, defined: set<string>, syms: seq<Symbol>): seq<string> {
    if syms == [] then []
    else
      var before := AskedOf(own, defined, syms[..|syms| - 1]);
      var last := syms[|syms| - 1];
      if AsksFor(own, defined, last) then before + [last.name] else before
  }

  function Asked(own: set<string>, defined: set<string>, objects: seq<Object>): seq<string> {
    if objects == [] then []
    else Asked(own, defined, objects[..|objects| - 1]) + AskedOf(own, defined, objects[|objects| - 1].symbols)
  }

  predicate Extra(defined: set<string>, name: string) {
    name != "" && name !in defined && name !in LINKER_SYMS
  }

  function Extras(defined: set<string>, names: seq<string>): seq<string> {
    if names == [] then []
    else
      var before := Extras(defined, names[..|names| - 1]);
      var last := names[|names| - 1];
      if Extra(defined, last) then before + [last] else before
  }

  /** Keeps the first occurrence of each name. */
  function Distinct(names: seq<string>): (r: seq<string>)
    ensures forall x :: x in r <==> x in names
    ensures forall i, j :: 0 <= i < j < |r| ==> r[i] != r[j]
  {
    if names == [] then []
    else
      var n := |names| - 1;
      assert names == names[..n] + [names[n]];
      var before := Distinct(names[..n]);
      if names[n] in before then before else before + [names[n]]
  }

  lemma DistinctPush(names: seq<string>, name: string)
    ensures Distinct(names + [name]) == if name in Distinct(names) then Distinct(names) else Distinct(names) + [name]
  {
    assert (names + [name])[..|names|] == names;
  }

  lemma AskedPush(own: set<string>, defined: set<string>, syms: seq<Symbol>, i: nat, asked: seq<string>)
    requires i < |syms|
    ensures var before := Distinct(asked + AskedOf(own, defined, syms[..i]));
      var name := syms[i].name;
      Distinct(asked + AskedOf(own, defined, syms[..i + 1])) ==
        if AsksFor(own, defined, syms[i]) && name !in before then before + [name] else before
  {
    hide AsksFor, Distinct;
    var before := AskedOf(own, defined, syms[..i]);
    assert syms[..i + 1][..i] == syms[..i];
    DistinctPush(asked + before, syms[i].name);
    assert asked + (before + [syms[i].name]) == asked + before + [syms[i].name];
  }

  lemma AskedNothing(own: set<string>, defined: set<string>, syms: seq<Symbol>, asked: seq<string>)
    ensures asked + AskedOf(own, defined, syms[..0]) == asked
    ensures syms[..|syms|] == syms
  {
  }

  /** The first loop's work on one object. */
  method DemandOfObject(own: set<string>, defined: set<string>, syms: seq<Symbol>, demand: seq<string>,
                        ghost asked: seq<string>)
    returns (r: seq<string>)
    requires demand == Distinct(asked)
    ensures r == Distinct(asked + AskedOf(own, defined, syms))
  {
    hide AskedOf, Distinct, AsksFor;
    r := demand;
    AskedNothing(own, defined, syms, asked);
    for i := 0 to |syms|
      invariant r == Distinct(asked + AskedOf(own, defined, syms[..i]))
    {
      AskedPush(own, defined, syms, i, asked);
      if !AsksFor(own, defined, syms[i]) {
        continue;
      }
      if syms[i].name !in r {
        r := r + [syms[i].name];
      }
    }
  }

  /** The objects' own definitions. */
  method OwnDefinitions(objects: seq<Object>) returns (own: set<string>)
    ensures own == Definitions(objects)
  {
    own := {};
    for i := 0 to |objects|
      invariant own == Definitions(objects[..i])
    {
      assert objects[..i + 1][..i] == objects[..i];
      own := DefinedNames(objects[i], own);
    }
    assert objects[..|objects|] == objects;
  }

  /** The loop over the additional names. */
  method DemandExtras(defined: set<string>, additional: seq<string>, first: seq<string>, ghost asked: seq<string>)
    returns (demand: seq<string>)
    requires first == Distinct(asked)
    ensures demand == Distinct(asked + Extras(defined, additional))
  {
    demand := first;
    assert asked + [] == asked;
    for i := 0 to |additional|
      invariant demand == Distinct(asked + Extras(defined, additional[..i]))
    {
      var name := additional[i];
      ghost var before := Extras(defined, additional[..i]);
      assert additional[..i + 1][..i] == additional[..i];
      DistinctPush(asked + before, name);
      assert asked + (before + [name]) == asked + before + [name];
      if !Extra(defined, name) || name in demand {
        continue;
      }
      demand := demand + [name];
    }
    assert additional[..|additional|] == additional;
  }

  /** `undefined_demand`: the unsatisfied names, each once, in first-seen order. */
  method UndefinedDemand(objects: seq<Object>, additional: seq<string>, defined: set<string>)
    returns (demand: seq<string>)
    ensures var own := Definitions(objects);
      demand == Distinct(Asked(own, defined, objects) + Extras(defined, additional))
  {
    var own := OwnDefinitions(objects);
    hide Definitions, AskedOf, Extras;
    demand := [];
    for i := 0 to |objects|
      invariant demand == Distinct(Asked(own, defined, objects[..i]))
    {
      assert objects[..i + 1][..i] == objects[..i];
      demand := DemandOfObject(own, defined, objects[i].symbols, demand, Asked(own, defined, objects[..i]));
    }
    assert objects[..|objects|] == objects;
    demand := DemandExtras(defined, additional, demand, Asked(own, defined, objects));
  }

  ghost predicate References(own: set<string>, defined: set<string>, syms: seq<Symbol>, name: string) {
    exists k :: 0 <= k < |syms| && AsksFor(own, defined, syms[k]) && syms[k].name == name
  }

  /** Some object has a strong reference to the name that no selected object defines. */
  ghost predicate Unsatisfied(objects: seq<Object>, name: string) {
    var own := Definitions(objects);
    exists k :: 0 <= k < |objects| && References(own, own, objects[k].symbols, name)
  }

  lemma {:induction false} AskedOfExact(own: set<string>, defined: set<string>, syms: seq<Symbol>, name: string)
    ensures name in AskedOf(own, defined, syms) <==> References(own, defined, syms, name)
  {
    if syms != [] {
      var n := |syms| - 1;
      AskedOfExact(own, defined, syms[..n], name);
      assert syms == syms[..n] + [syms[n]];
    }
  }

  lemma {:induction false} AskedExact(own: set<string>, defined: set<string>, objects: seq<Object>, name: string)
    ensures name in Asked(own, defined, objects) <==>
      exists k :: 0 <= k < |objects| && References(own, defined, objects[k].symbols, name)
  {
    if objects != [] {
      var n := |objects| - 1;
      hide References;
      AskedExact(own, defined, objects[..n], name);
      AskedOfExact(own, defined, objects[n].symbols, name);
      assert objects == objects[..n] + [objects[n]];
    }
  }

  // ---- where selected objects come from -------------------------------------------------

  /** A name an archive scan looks for: unsatisfied, or the entry symbol while undefined. */
  ghost predicate Demanded(objects: seq<Object>, entry: string, name: string) {
    Unsatisfied(objects, name) || (name == entry && name != "" && entry !in Definitions(objects))
  }

  /** Each selected object: a command-line object, or a member pulled for a name in a pass that
      began when `pass` objects were selected. */
  datatype Origin = FromLine(at: nat) | FromArchive(at: nat, offset: nat, name: string, pass: nat)

  predicate SameSource(a: Origin, b: Origin) {
    match (a, b)
    case (FromLine(i), FromLine(j)) => i == j
    case (FromArchive(i, off, _, _), FromArchive(j, off', _, _)) => i == j && off == off'
    case _ => false
  }

  /** The same archives, markers and object places; only `pulled` and what was taken may differ. */
  predicate SameKind(a: Input, b: Input) {
    match (a, b)
    case (Explicit(_), Explicit(_)) => true
    case (Lib(x, _), Lib(y, _)) => x == y
    case (GroupStart, GroupStart) => true
    case (GroupEnd, GroupEnd) => true
    case _ => false
  }

  /** `given` is the list of inputs before anything was taken or pulled. */
  predicate Fresh(given: seq<Input>) {
    forall i :: 0 <= i < |given| ==>
      (given[i].Explicit? ==> given[i].obj.Some?) && (given[i].Lib? ==> given[i].pulled == {})
  }

  datatype State = State(inputs: seq<Input>, objects: seq<Object>, origins: seq<Origin>)

  ghost predicate OriginHolds(given: seq<Input>, entry: string, s: State, k: nat)
    requires k < |s.origins| == |s.objects| && |given| == |s.inputs|
  {
    match s.origins[k]
    case FromLine(at) =>
      at < |given| && given[at] == Explicit(Some(s.objects[k])) && s.inputs[at] == Explicit(None)
    case FromArchive(at, offset, name, pass) =>
      && at < |given| && s.inputs[at].Lib? && offset in s.inputs[at].pulled
      && Lookup(s.inputs[at].ar, name) == Some(offset)
      && offset in s.inputs[at].ar.members && s.inputs[at].ar.members[offset] == Some(s.objects[k])
      && pass <= k && Demanded(s.objects[..pass], entry, name)
  }

  ghost predicate HasTaken(s: State, at: nat) {
    exists k :: 0 <= k < |s.origins| && s.origins[k] == FromLine(at)
  }

  ghost predicate HasPulled(s: State, at: nat, offset: nat) {
    exists k ::
      0 <= k < |s.origins| && s.origins[k].FromArchive? && s.origins[k].at == at && s.origins[k].offset == offset
  }

  /** What is taken or pulled at one input is what the origins say. */
  ghost predicate InputAgrees(given: seq<Input>, s: State, i: nat)
    requires i < |given| == |s.inputs|
  {
    && SameKind(given[i], s.inputs[i])
    && (s.inputs[i].Explicit? ==> s.inputs[i] == given[i] || (s.inputs[i].obj == None && HasTaken(s, i)))
    && (s.inputs[i].Lib? ==> s.inputs[i].pulled <= Offsets(s.inputs[i].ar)
                             && forall off :: off in s.inputs[i].pulled ==> HasPulled(s, i, off))
  }

  /** From `pass` to `end` every origin is a pull of one pass over the archive `at`. */
  ghost predicate OnePass(origins: seq<Origin>, pass: nat, at: nat, end: nat) {
    forall j :: pass <= j < end && j < |origins| ==>
      origins[j].FromArchive? && origins[j].at == at && origins[j].pass == pass
  }

  /** Between the start of its pass and a pull nothing else was selected. */
  ghost predicate Passes(origins: seq<Origin>) {
    forall k :: 0 <= k < |origins| && origins[k].FromArchive? ==> OnePass(origins, origins[k].pass, origins[k].at, k)
  }

  lemma PassesPush(origins: seq<Origin>, o: Origin)
    requires Passes(origins) && (o.FromArchive? ==> OnePass(origins, o.pass, o.at, |origins|))
    ensures Passes(origins + [o])
    ensures o.FromArchive? && o.pass <= |origins| ==> OnePass(origins + [o], o.pass, o.at, |origins| + 1)
  {
    var more := origins + [o];
    forall k | 0 <= k < |more| && more[k].FromArchive? ensures OnePass(more, more[k].pass, more[k].at, k) {
      if k < |origins| {
        assert origins[k] == more[k];
        assert OnePass(origins, origins[k].pass, origins[k].at, k);
      }
    }
  }

  lemma PassStarts(origins: seq<Origin>, at: nat)
    ensures OnePass(origins, |origins|, at, |origins|)
  {
  }

  /** Every selected object has one justified source, no source is used twice, and passes are not interrupted. */
  ghost predicate Coherent(given: seq<Input>, entry: string, s: State) {
    Sourced(given, entry, s) && Passes(s.origins)
  }

  ghost predicate Sourced(given: seq<Input>, entry: string, s: State) {
    && |given| == |s.inputs| && |s.origins| == |s.objects|
    && (forall i :: 0 <= i < |given| ==> InputAgrees(given, s, i))
    && (forall k :: 0 <= k < |s.origins| ==> OriginHolds(given, entry, s, k))
    && (forall k, l :: 0 <= k < l < |s.origins| ==> !SameSource(s.origins[k], s.origins[l]))
  }

  function Add(s: State, i: nat, input: Input, obj: Object, origin: Origin): (t: State)
    requires i < |s.inputs|
    ensures |t.inputs| == |s.inputs| && |t.objects| == |s.objects| + 1 && |t.origins| == |s.origins| + 1
  {
    State(s.inputs[i := input], s.objects + [obj], s.origins + [origin])
  }

  lemma OriginStays(given: seq<Input>, entry: string, s: State, i: nat, input: Input, obj: Object, origin: Origin,
                    k: nat)
    requires |given| == |s.inputs| && k < |s.origins| == |s.objects| && i < |given|
    requires OriginHolds(given, entry, s, k)
    requires match s.inputs[i]
      case Explicit(o) => o.Some? && input == Explicit(None)
      case Lib(ar, pulled) => input.Lib? && input.ar == ar && pulled <= input.pulled
      case _ => false
    ensures OriginHolds(given, entry, Add(s, i, input, obj, origin), k)
  {
    hide Demanded, Lookup;
    var t := Add(s, i, input, obj, origin);
    assert t.objects[k] == s.objects[k] && t.origins[k] == s.origins[k];
    if s.origins[k].FromArchive? {
      assert t.objects[..s.origins[k].pass] == s.objects[..s.origins[k].pass];
    }
  }

  lemma AgreesStays(given: seq<Input>, s: State, i: nat, input: Input, obj: Object, origin: Origin, j: nat)
    requires |given| == |s.inputs| && |s.origins| == |s.objects| && i < |given| && j < |given| && j != i
    requires InputAgrees(given, s, j)
    ensures InputAgrees(given, Add(s, i, input, obj, origin), j)
  {
    var t := Add(s, i, input, obj, origin);
    assert forall k :: 0 <= k < |s.origins| ==> t.origins[k] == s.origins[k];
    if s.inputs[j].Lib? {
      forall off | off in s.inputs[j].pulled ensures HasPulled(t, j, off) {
        assert HasPulled(s, j, off);
      }
    }
  }

  /** Taking a command-line object keeps the bookkeeping. */
  lemma TakeKeeps(given: seq<Input>, entry: string, s: State, i: nat)
    requires Coherent(given, entry, s) && i < |given| == |s.inputs|
    requires s.inputs[i].Explicit? && s.inputs[i].obj.Some?
    ensures Coherent(given, entry, Add(s, i, Explicit(None), s.inputs[i].obj.value, FromLine(i)))
  {
    hide Sourced, Passes;
    TakeSourced(given, entry, s, i);
    PassesPush(s.origins, FromLine(i));
  }

  lemma TakeSourced(given: seq<Input>, entry: string, s: State, i: nat)
    requires Sourced(given, entry, s) && i < |given|
    requires s.inputs[i].Explicit? && s.inputs[i].obj.Some?
    ensures Sourced(given, entry, Add(s, i, Explicit(None), s.inputs[i].obj.value, FromLine(i)))
  {
    hide Demanded, Lookup, Offsets;
    var obj, origin := s.inputs[i].obj.value, FromLine(i);
    var t := Add(s, i, Explicit(None), obj, origin);
    assert InputAgrees(given, s, i);
    assert t.origins[|s.origins|] == origin;
    assert InputAgrees(given, t, i) by { assert HasTaken(t, i); }
    assert OriginHolds(given, entry, t, |s.origins|);
    forall k | 0 <= k < |s.origins| ensures OriginHolds(given, entry, t, k) && !SameSource(t.origins[k], origin) {
      assert OriginHolds(given, entry, s, k);
      OriginStays(given, entry, s, i, Explicit(None), obj, origin, k);
    }
    forall j | 0 <= j < |given| && j != i ensures InputAgrees(given, t, j) {
      AgreesStays(given, s, i, Explicit(None), obj, origin, j);
    }
  }

  lemma PulledAgrees(given: seq<Input>, s: State, i: nat, off: nat, obj: Object, origin: Origin)
    requires |given| == |s.inputs| && i < |given| && InputAgrees(given, s, i) && s.inputs[i].Lib?
    requires origin.FromArchive? && origin.at == i && origin.offset == off && off in Offsets(s.inputs[i].ar)
    ensures InputAgrees(given, Add(s, i, Lib(s.inputs[i].ar, s.inputs[i].pulled + {off}), obj, origin), i)
  {
    hide Offsets;
    var t := Add(s, i, Lib(s.inputs[i].ar, s.inputs[i].pulled + {off}), obj, origin);
    assert t.origins[|s.origins|] == origin;
    forall o | o in t.inputs[i].pulled ensures HasPulled(t, i, o) {
      if o != off {
        assert HasPulled(s, i, o);
        var k :| 0 <= k < |s.origins| && s.origins[k].FromArchive? && s.origins[k].at == i && s.origins[k].offset == o;
        assert t.origins[k] == s.origins[k];
      }
    }
  }

  /** So does pulling a member not pulled before, for a name demanded when the pass that goes on began. */
  lemma PullKeeps(given: seq<Input>, entry: string, s: State, i: nat, off: nat, name: string, pass: nat)
    requires Coherent(given, entry, s) && i < |given| == |s.inputs| && s.inputs[i].Lib?
    requires var ar := s.inputs[i].ar;
      Lookup(ar, name) == Some(off) && off !in s.inputs[i].pulled && off in ar.members && ar.members[off].Some?
    requires pass <= |s.objects| == |s.origins| && Demanded(s.objects[..pass], entry, name)
    requires OnePass(s.origins, pass, i, |s.origins|)
    ensures var ar := s.inputs[i].ar;
      var t := Add(s, i, Lib(ar, s.inputs[i].pulled + {off}), ar.members[off].value, FromArchive(i, off, name, pass));
      Coherent(given, entry, t) && OnePass(t.origins, pass, i, |t.origins|)
  {
    hide Sourced, Passes, OnePass, Demanded, Lookup;
    PullSourced(given, entry, s, i, off, name, pass);
    PassesPush(s.origins, FromArchive(i, off, name, pass));
  }

  lemma PullSourced(given: seq<Input>, entry: string, s: State, i: nat, off: nat, name: string, pass: nat)
    requires Sourced(given, entry, s) && i < |given| && s.inputs[i].Lib?
    requires var ar := s.inputs[i].ar;
      Lookup(ar, name) == Some(off) && off !in s.inputs[i].pulled && off in ar.members && ar.members[off].Some?
    requires pass <= |s.objects| && Demanded(s.objects[..pass], entry, name)
    ensures var ar := s.inputs[i].ar;
      Sourced(given, entry, Add(s, i, Lib(ar, s.inputs[i].pulled + {off}), ar.members[off].value,
                                FromArchive(i, off, name, pass)))
  {
    hide *;
    SourcedParts(given, entry, s);
    var ar := s.inputs[i].ar;
    var input, obj := Lib(ar, s.inputs[i].pulled + {off}), ar.members[off].value;
    var origin := FromArchive(i, off, name, pass);
    LookupExact(ar, name);
    NewOrigin(given, entry, s, i, off, name, pass);
    PulledAgrees(given, s, i, off, obj, origin);
    forall k | 0 <= k < |s.origins|
      ensures OriginHolds(given, entry, Add(s, i, input, obj, origin), k) && !SameSource(s.origins[k], origin)
    {
      NotPulledBefore(given, entry, s, i, off, name, pass, k);
      OriginStays(given, entry, s, i, input, obj, origin, k);
    }
    forall j | 0 <= j < |given| && j != i ensures InputAgrees(given, Add(s, i, input, obj, origin), j) {
      AgreesStays(given, s, i, input, obj, origin, j);
    }
    SourcedFrom(given, entry, s, i, input, obj, origin);
  }

  lemma SourcedParts(given: seq<Input>, entry: string, s: State)
    requires Sourced(given, entry, s)
    ensures |given| == |s.inputs| && |s.origins| == |s.objects|
    ensures forall i :: 0 <= i < |given| ==> InputAgrees(given, s, i)
    ensures forall k :: 0 <= k < |s.origins| ==> OriginHolds(given, entry, s, k)
  {
    hide InputAgrees, OriginHolds, SameSource;
  }

  lemma SourcedFrom(given: seq<Input>, entry: string, s: State, i: nat, input: Input, obj: Object, origin: Origin)
    requires Sourced(given, entry, s) && i < |given| == |s.inputs| && |s.origins| == |s.objects|
    requires var t := Add(s, i, input, obj, origin);
      && |t.inputs| == |given| && |t.origins| == |t.objects| == |s.origins| + 1
      && (forall j :: 0 <= j < |given| ==> InputAgrees(given, t, j))
      && OriginHolds(given, entry, t, |s.origins|)
      && (forall k :: 0 <= k < |s.origins| ==>
            OriginHolds(given, entry, t, k) && !SameSource(s.origins[k], origin))
    ensures Sourced(given, entry, Add(s, i, input, obj, origin))
  {
    hide InputAgrees, OriginHolds, SameSource;
    var t := Add(s, i, input, obj, origin);
    assert t.origins[|s.origins|] == origin && forall k :: 0 <= k < |s.origins| ==> t.origins[k] == s.origins[k];
  }

  lemma NewOrigin(given: seq<Input>, entry: string, s: State, i: nat, off: nat, name: string, pass: nat)
    requires |given| == |s.inputs| && |s.origins| == |s.objects| && i < |given| && s.inputs[i].Lib?
    requires var ar := s.inputs[i].ar; Lookup(ar, name) == Some(off) && off in ar.members && ar.members[off].Some?
    requires pass <= |s.objects| && Demanded(s.objects[..pass], entry, name)
    ensures var ar := s.inputs[i].ar;
      var t := Add(s, i, Lib(ar, s.inputs[i].pulled + {off}), ar.members[off].value, FromArchive(i, off, name, pass));
      OriginHolds(given, entry, t, |s.origins|)
  {
    hide Demanded, Lookup;
    var ar := s.inputs[i].ar;
    var t := Add(s, i, Lib(ar, s.inputs[i].pulled + {off}), ar.members[off].value, FromArchive(i, off, name, pass));
    assert t.objects[..pass] == s.objects[..pass] && t.origins[|s.origins|] == FromArchive(i, off, name, pass);
  }

  lemma NotPulledBefore(given: seq<Input>, entry: string, s: State, i: nat, off: nat, name: string, pass: nat, k: nat)
    requires |given| == |s.inputs| && k < |s.origins| == |s.objects| && OriginHolds(given, entry, s, k)
    requires i < |given| && s.inputs[i].Lib? && off !in s.inputs[i].pulled
    ensures !SameSource(s.origins[k], FromArchive(i, off, name, pass))
  {
    hide Demanded, Lookup;
  }

  // ---- what is left to take --------------------------------------------------------------

  function Pending(input: Input): nat {
    match input
    case Explicit(obj) => if obj.Some? then 1 else 0
    case Lib(ar, pulled) => |Offsets(ar) - pulled|
    case _ => 0
  }

  function Remaining(inputs: seq<Input>): nat {
    if inputs == [] then 0 else Remaining(inputs[..|inputs| - 1]) + Pending(inputs[|inputs| - 1])
  }

  lemma {:induction false} RemainingUpdate(inputs: seq<Input>, i: nat, input: Input)
    requires i < |inputs|
    ensures Remaining(inputs[i := input]) + Pending(inputs[i]) == Remaining(inputs) + Pending(input)
  {
    hide Pending;
    var n := |inputs| - 1;
    var changed := inputs[i := input];
    if i < n {
      assert changed[..n] == inputs[..n][i := input];
      RemainingUpdate(inputs[..n], i, input);
    } else {
      assert changed[..n] == inputs[..n];
    }
  }

  /** One more object, one less to take. */
  lemma PullSpends(inputs: seq<Input>, i: nat, off: nat)
    requires i < |inputs| && inputs[i].Lib? && off in Offsets(inputs[i].ar) && off !in inputs[i].pulled
    ensures Remaining(inputs[i := Lib(inputs[i].ar, inputs[i].pulled + {off})]) + 1 == Remaining(inputs)
  {
    hide Offsets;
    var all, pulled := Offsets(inputs[i].ar), inputs[i].pulled;
    assert all - pulled == (all - (pulled + {off})) + {off};
    RemainingUpdate(inputs, i, Lib(inputs[i].ar, pulled + {off}));
  }

  // ---- quiescence -------------------------------------------------------------------------

  predicate Served(input: Input, name: string)
    requires input.Lib?
  {
    Lookup(input.ar, name).Some? ==> Lookup(input.ar, name).value in input.pulled
  }

  /** Nothing more would be taken from this input. */
  ghost predicate Quiet(input: Input, objects: seq<Object>, entry: string) {
    && (input.Explicit? ==> input.obj == None)
    && (input.Lib? ==> forall name :: Demanded(objects, entry, name) ==> Served(input, name))
  }

  ghost predicate AllQuiet(s: State, start: nat, end: nat, entry: string) {
    forall i :: start <= i < end && i < |s.inputs| ==> Quiet(s.inputs[i], s.objects, entry)
  }

  // ---- group markers ------------------------------------------------------------------------

  function Step(input: Input): int {
    if input.GroupStart? then 1 else if input.GroupEnd? then -1 else 0
  }

  function Depth(inputs: seq<Input>, start: nat, end: nat): int
    requires start <= end <= |inputs|
  {
    if start == end then 0 else Depth(inputs, start, end - 1) + Step(inputs[end - 1])
  }

  /** Every end marker has its start marker and the other way round. */
  predicate Balanced(inputs: seq<Input>, start: nat, end: nat)
    requires start <= end <= |inputs|
  {
    Depth(inputs, start, end) == 0 && forall k :: start <= k <= end ==> Depth(inputs, start, k) >= 0
  }

  lemma {:induction false} DepthAdds(inputs: seq<Input>, a: nat, b: nat, c: nat)
    requires a <= b <= c <= |inputs|
    ensures Depth(inputs, a, c) == Depth(inputs, a, b) + Depth(inputs, b, c)
    decreases c
  {
    if b < c {
      DepthAdds(inputs, a, b, c - 1);
    }
  }

  lemma {:induction false} DepthSame(a: seq<Input>, b: seq<Input>, start: nat, end: nat)
    requires |a| == |b| && start <= end <= |a|
    requires forall i :: 0 <= i < |a| ==> SameKind(a[i], b[i])
    ensures Depth(a, start, end) == Depth(b, start, end)
    decreases end
  {
    if start < end {
      DepthSame(a, b, start, end - 1);
      assert SameKind(a[end - 1], b[end - 1]);
    }
  }

  /** A balanced prefix, a start marker, a balanced body and an end marker are balanced. */
  lemma GroupBalances(inputs: seq<Input>, a: nat, i: nat, e: nat)
    requires a <= i < e < |inputs| && inputs[i].GroupStart? && inputs[e].GroupEnd?
    requires Balanced(inputs, a, i) && Balanced(inputs, i + 1, e)
    ensures Balanced(inputs, a, e + 1)
  {
    forall k | a <= k <= e ensures Depth(inputs, a, k) >= 0 && (k == e ==> Depth(inputs, a, k) == 1) {
      if k > i {
        DepthAdds(inputs, a, i + 1, k);
      }
    }
  }

  /** The end marker that brings the depth below zero. */
  function EndFrom(inputs: seq<Input>, i: nat, end: nat, depth: nat): (r: Option<nat>)
    requires i <= end <= |inputs|
    ensures r.Some? ==> i <= r.value < end
    decreases end - i
  {
    if i == end then None
    else if inputs[i].GroupStart? then EndFrom(inputs, i + 1, end, depth + 1)
    else if !inputs[i].GroupEnd? then EndFrom(inputs, i + 1, end, depth)
    else if depth == 0 then Some(i) else EndFrom(inputs, i + 1, end, depth - 1)
  }

  /** `find_static_group_end`; the range has no matching end when the depth never drops below zero. */
  method FindGroupEnd(inputs: seq<Input>, start: nat, end: nat) returns (r: Option<nat>)
    requires start <= end <= |inputs|
    ensures r.Some? ==> start <= r.value < end && inputs[r.value].GroupEnd? && Balanced(inputs, start, r.value)
    ensures r.None? ==> forall k :: start <= k <= end ==> Depth(inputs, start, k) >= 0
    ensures r == EndFrom(inputs, start, end, 0)
  {
    var depth: nat := 0;
    for i := start to end
      invariant EndFrom(inputs, i, end, depth) == EndFrom(inputs, start, end, 0)
      invariant depth == Depth(inputs, start, i)
      invariant forall k :: start <= k <= i ==> Depth(inputs, start, k) >= 0
    {
      if inputs[i].GroupStart? {
        depth := depth + 1;
      } else if inputs[i].GroupEnd? {
        if depth == 0 {
          return Some(i);
        }
        depth := depth - 1;
      }
    }
    return None;
  }

  // ---- the selection itself --------------------------------------------------------------------

  datatype Outcome = Done(changed: bool) | BadArchive | UnmatchedMarker

  /** The archive does not open, or its index names a member that is missing or does not parse. */
  ghost predicate Broken(input: Input) {
    input.Lib? && (!input.ar.opens ||
                   exists off ::
                     off in Offsets(input.ar) && (off !in input.ar.members || input.ar.members[off] == None))
  }

  ghost predicate SomeBroken(given: seq<Input>) {
    exists i :: 0 <= i < |given| && Broken(given[i])
  }

  /** What was taken or pulled stays so. */
  predicate Grows(a: Input, b: Input) {
    && SameKind(a, b)
    && (a.Explicit? ==> b == a || b.obj == None)
    && (a.Lib? ==> a.pulled <= b.pulled)
  }

  /** From `a` to `b` objects are only appended, each one taken from what remained. */
  ghost predicate Advances(a: State, b: State) {
    && |a.inputs| == |b.inputs| && |a.objects| <= |b.objects| && a.objects == b.objects[..|a.objects|]
    && Remaining(a.inputs) + |a.objects| == Remaining(b.inputs) + |b.objects|
    && (|a.objects| == |b.objects| ==> a == b)
    && (forall i :: 0 <= i < |a.inputs| ==> Grows(a.inputs[i], b.inputs[i]))
  }

  /** `changed` says truthfully whether an object was added. */
  ghost predicate AdvancedBy(a: State, b: State, changed: bool) {
    Advances(a, b) && (changed <==> |b.objects| > |a.objects|)
  }

  lemma Combine(a: State, b: State, c: State, first: bool, second: bool)
    requires AdvancedBy(a, b, first) && AdvancedBy(b, c, second)
    ensures AdvancedBy(a, c, first || second)
    ensures !second ==> b == c
    ensures second ==> Remaining(c.inputs) < Remaining(b.inputs)
    ensures |a.objects| <= |b.objects| <= |c.objects|
  {
    hide Remaining;
    assert c.objects[..|b.objects|][..|a.objects|] == c.objects[..|a.objects|];
    assert forall i :: 0 <= i < |a.inputs| ==> Grows(a.inputs[i], b.inputs[i]) && Grows(b.inputs[i], c.inputs[i]);
  }

  lemma Standing(a: State)
    ensures AdvancedBy(a, a, false)
  {
    assert a.objects[..|a.objects|] == a.objects;
  }

  lemma Unchanged(a: State, b: State)
    requires AdvancedBy(a, b, false)
    ensures a == b
  {
    hide Remaining;
  }

  lemma Sizes(a: State, b: State, changed: bool)
    requires AdvancedBy(a, b, changed)
    ensures |a.inputs| == |b.inputs| && |a.objects| <= |b.objects| && (changed <==> |b.objects| > |a.objects|)
    ensures a.objects == b.objects[..|a.objects|]
  {
    hide Remaining;
  }

  lemma PullAdvances(s: State, i: nat, off: nat, obj: Object, origin: Origin)
    requires i < |s.inputs| && s.inputs[i].Lib? && off in Offsets(s.inputs[i].ar) && off !in s.inputs[i].pulled
    ensures AdvancedBy(s, Add(s, i, Lib(s.inputs[i].ar, s.inputs[i].pulled + {off}), obj, origin), true)
  {
    PullSpends(s.inputs, i, off);
    hide Offsets, Remaining;
    var t := Add(s, i, Lib(s.inputs[i].ar, s.inputs[i].pulled + {off}), obj, origin);
    assert t.objects[..|s.objects|] == s.objects;
  }

  lemma TakeAdvances(s: State, i: nat, obj: Object)
    requires i < |s.inputs| && s.inputs[i].Explicit? && s.inputs[i].obj.Some?
    ensures AdvancedBy(s, Add(s, i, Explicit(None), obj, FromLine(i)), true)
  {
    RemainingUpdate(s.inputs, i, Explicit(None));
    hide Remaining;
    var t := Add(s, i, Explicit(None), obj, FromLine(i));
    assert t.objects[..|s.objects|] == s.objects;
  }

  lemma SameLengths(given: seq<Input>, entry: string, s: State)
    requires Coherent(given, entry, s)
    ensures |s.inputs| == |given| && |s.origins| == |s.objects|
  {
  }

  lemma KeepsKind(given: seq<Input>, entry: string, s: State, i: nat)
    requires Coherent(given, entry, s) && i < |given|
    ensures |s.inputs| == |given| && SameKind(given[i], s.inputs[i])
    ensures given[i].GroupStart? == s.inputs[i].GroupStart? && given[i].GroupEnd? == s.inputs[i].GroupEnd?
  {
    assert InputAgrees(given, s, i);
  }

  lemma SameArchive(given: seq<Input>, entry: string, s: State, i: nat)
    requires Coherent(given, entry, s) && i < |s.inputs| && s.inputs[i].Lib?
    ensures |s.inputs| == |given| && given[i].Lib? && given[i].ar == s.inputs[i].ar
  {
    assert InputAgrees(given, s, i);
  }

  lemma BrokenAt(given: seq<Input>, i: nat, off: nat)
    requires i < |given| && given[i].Lib? && off in Offsets(given[i].ar)
    requires off !in given[i].ar.members || given[i].ar.members[off] == None
    ensures SomeBroken(given)
  {
    assert Broken(given[i]);
  }

  /** The list a pass works through holds every demanded name and no other unserved one. */
  ghost predicate Covers(demand: seq<string>, input: Input, objects: seq<Object>, entry: string) {
    && (forall name :: Demanded(objects, entry, name) ==> name in demand)
    && (input.Lib? ==> forall name :: name in demand ==> Demanded(objects, entry, name) || Served(input, name))
  }

  /** Serving the list of an unchanged state leaves nothing to pull. */
  lemma ServedIsQuiet(demand: seq<string>, input: Input, objects: seq<Object>, entry: string)
    requires Covers(demand, input, objects, entry) && input.Lib?
    requires forall name :: name in demand ==> Served(input, name)
    ensures Quiet(input, objects, entry)
  {
    hide Demanded, Served;
  }

  /** An entry symbol still undefined was undefined when the scan began. */
  lemma EntryRequired(first: seq<Object>, objects: seq<Object>, entry: string, required: seq<string>)
    requires |first| <= |objects| && first == objects[..|first|]
    requires required == if entry in Definitions(first) then [] else [entry]
    ensures entry !in Definitions(objects) ==> entry in required
    ensures entry in required ==> entry !in Definitions(first)
  {
    DefinitionsGrow(objects, |first|);
  }

  lemma DemandCovers(objects: seq<Object>, entry: string, required: set<string>, demand: seq<string>, input: Input)
    requires forall name :: name in demand <==>
      name in Asked(Definitions(objects), Definitions(objects), objects) || name in required
    requires forall name :: name in required ==> name == entry != ""
    requires entry != "" && entry !in Definitions(objects) ==> entry in required
    requires input.Lib? && entry in required ==> entry !in Definitions(objects) || Served(input, entry)
    ensures Covers(demand, input, objects, entry)
  {
    var own := Definitions(objects);
    hide Definitions, References, Served;
    forall name ensures Unsatisfied(objects, name) <==> name in Asked(own, own, objects) {
      AskedExact(own, own, objects, name);
    }
  }

  lemma QuietJoin(s: State, a: nat, b: nat, c: nat, entry: string)
    requires AllQuiet(s, a, b, entry) && AllQuiet(s, b, c, entry)
    ensures AllQuiet(s, a, c, entry)
  {
    hide Quiet;
  }

  /** The markers of a group are quiet as well. */
  lemma QuietGroup(s: State, i: nat, e: nat, entry: string)
    requires i < e < |s.inputs| && s.inputs[i].GroupStart? && s.inputs[e].GroupEnd?
    requires AllQuiet(s, i + 1, e, entry)
    ensures AllQuiet(s, i, e + 1, entry)
  {
    assert Quiet(s.inputs[i], s.objects, entry) && Quiet(s.inputs[e], s.objects, entry);
    hide Quiet;
  }

  lemma QuietOne(s: State, i: nat, entry: string)
    requires i < |s.inputs| && Quiet(s.inputs[i], s.objects, entry)
    ensures AllQuiet(s, i, i + 1, entry)
  {
    hide Quiet;
  }

  /** Every command-line object of the range has been taken. */
  ghost predicate AllTaken(s: State, start: nat, end: nat) {
    forall i :: start <= i < end && i < |s.inputs| && s.inputs[i].Explicit? ==> s.inputs[i].obj == None
  }

  lemma TakenJoin(a: State, b: State, start: nat, i: nat, end: nat, changed: bool, entry: string)
    requires AdvancedBy(a, b, changed) && AllTaken(a, start, i) && AllQuiet(b, i, end, entry)
    ensures AllTaken(b, start, end)
  {
    hide Remaining, Demanded;
    forall k | start <= k < end && k < |b.inputs| && b.inputs[k].Explicit? ensures b.inputs[k].obj == None {
      if k < i {
        assert Grows(a.inputs[k], b.inputs[k]);
      } else {
        assert Quiet(b.inputs[k], b.objects, entry);
      }
    }
  }

  lemma EmptyRange(given: seq<Input>, s: State, start: nat, entry: string)
    requires start <= |given|
    ensures Balanced(given, start, start) && AllQuiet(s, start, start, entry) && AllTaken(s, start, start)
  {
  }

  lemma EndUnbalances(inputs: seq<Input>, start: nat, i: nat, end: nat)
    requires start <= i < end <= |inputs| && Balanced(inputs, start, i) && inputs[i].GroupEnd?
    ensures !Balanced(inputs, start, end)
  {
    assert Depth(inputs, start, i + 1) == -1;
  }

  lemma PlainBalances(inputs: seq<Input>, start: nat, i: nat)
    requires start <= i < |inputs| && Balanced(inputs, start, i) && (inputs[i].Lib? || inputs[i].Explicit?)
    ensures Balanced(inputs, start, i + 1)
  {
  }

  /** Command-line objects are taken from left to right, all before `frontier`. */
  ghost predicate Lines(origins: seq<Origin>, frontier: nat) {
    && (forall k :: 0 <= k < |origins| && origins[k].FromLine? ==> origins[k].at < frontier)
    && (forall k, l :: 0 <= k < l < |origins| && origins[k].FromLine? && origins[l].FromLine? ==>
          origins[k].at < origins[l].at)
  }

  lemma LinesArchive(origins: seq<Origin>, frontier: nat, o: Origin)
    requires Lines(origins, frontier) && o.FromArchive?
    ensures Lines(origins + [o], frontier)
  {
  }

  lemma LinesNext(origins: seq<Origin>, frontier: nat, i: nat)
    requires Lines(origins, frontier) && frontier <= i
    ensures Lines(origins + [FromLine(i)], i + 1)
  {
  }

  lemma MaxGrows(f: nat, a: nat, b: nat)
    requires a <= b
    ensures f <= Max(f, a) <= Max(f, b)
    ensures Max(Max(f, a), b) == Max(f, b)
  {
  }

  /** The range lies past the frontier, or its objects are taken already. */
  ghost predicate Ready(s: State, frontier: nat, start: nat, end: nat) {
    frontier <= start || AllTaken(s, start, end)
  }

  lemma ReadyWithin(s: State, frontier: nat, start: nat, end: nat, a: nat, b: nat)
    requires Ready(s, frontier, start, end) && start <= a <= b <= end
    ensures Ready(s, frontier, a, b)
  {
  }

  lemma ReadyNext(s: State, t: State, f: nat, g: nat, i: nat, next: nat, end: nat, changed: bool)
    requires Ready(s, f, i, end) && AdvancedBy(s, t, changed) && g <= Max(f, next) && i <= next <= end
    ensures Ready(t, g, next, end)
  {
    hide Remaining;
    if f > i {
      forall k | next <= k < end && k < |t.inputs| && t.inputs[k].Explicit? ensures t.inputs[k].obj == None {
        assert Grows(s.inputs[k], t.inputs[k]);
      }
    }
  }

  lemma MaxBelow(first: nat, f: nat, g: nat, i: nat, next: nat)
    requires f <= Max(first, i) && g <= Max(f, next) && i <= next
    ensures g <= Max(first, next)
  {
  }

  lemma LinesFurther(origins: seq<Origin>, f: nat, g: nat)
    requires Lines(origins, f) && f <= g
    ensures Lines(origins, g)
  {
  }

  // ---- where the scan stopped -------------------------------------------------------------------------

  /** A top-level item of a range, and the states before and after its turn. */
  datatype Stop = Stop(from: nat, to: nat, before: State, after: State)

  /** A single input, or a whole group with its markers. */
  ghost predicate Item(given: seq<Input>, from: nat, to: nat) {
    && from < to <= |given|
    && (|| (to == from + 1 && (given[from].Lib? || given[from].Explicit?))
        || (from + 1 < to && given[from].GroupStart? && given[to - 1].GroupEnd? && Balanced(given, from + 1, to - 1)))
  }

  /** From `a` to `b` only inputs from `from` to `to` gave something, in passes begun since `a`. */
  ghost predicate Gained(a: State, b: State, from: nat, to: nat) {
    && |a.origins| <= |b.origins| && a.origins == b.origins[..|a.origins|]
    && (forall k :: |a.origins| <= k < |b.origins| ==>
          from <= b.origins[k].at < to && (b.origins[k].FromArchive? ==> b.origins[k].pass >= |a.origins|))
  }

  lemma GainedNothing(a: State, from: nat, to: nat)
    ensures Gained(a, a, from, to)
  {
  }

  lemma GainedOn(a: State, b: State, c: State, from: nat, mid: nat, upto: nat, to: nat)
    requires Gained(a, b, from, mid) && Gained(b, c, upto, to) && from <= upto && mid <= to
    ensures Gained(a, c, from, to)
  {
    assert c.origins[..|b.origins|][..|a.origins|] == c.origins[..|a.origins|];
    forall k | |a.origins| <= k < |c.origins|
      ensures from <= c.origins[k].at < to && (c.origins[k].FromArchive? ==> c.origins[k].pass >= |a.origins|)
    {
      if k < |b.origins| {
        assert c.origins[k] == b.origins[k];
      }
    }
  }

  /**
   * The items of the range in order, from the state `first` to `now`.  Each gained from its own inputs only,
   * and is quiet in the state its turn ended in: nothing in it, at any depth, had a member left to give for a
   * name then demanded.
   */
  ghost predicate Trace(given: seq<Input>, entry: string, first: State, stops: seq<Stop>, start: nat, i: nat,
                        now: State)
    decreases |stops|
  {
    if stops == [] then start == i && first == now
    else
      var last := stops[|stops| - 1];
      && start <= last.from && last.to == i && Item(given, last.from, last.to) && last.after == now
      && AllQuiet(now, last.from, last.to, entry) && Coherent(given, entry, now)
      && Advances(last.before, now) && Gained(last.before, now, last.from, last.to)
      && Trace(given, entry, first, stops[..|stops| - 1], start, last.from, last.before)
  }

  lemma AdvancesOn(a: State, b: State, c: State)
    requires Advances(a, b) && Advances(b, c)
    ensures Advances(a, c)
  {
    hide Advances, Remaining;
    Combine(a, b, c, |b.objects| > |a.objects|, |c.objects| > |b.objects|);
  }

  /** What an item's turn left, the rest of the range only adds to. */
  lemma {:induction false} StopAdvances(given: seq<Input>, entry: string, first: State, stops: seq<Stop>, start: nat,
                                        i: nat, now: State, k: nat)
    requires Trace(given, entry, first, stops, start, i, now) && k < |stops|
    ensures Advances(stops[k].after, now)
    ensures AllQuiet(stops[k].after, stops[k].from, stops[k].to, entry)
    ensures Gained(stops[k].before, stops[k].after, stops[k].from, stops[k].to)
    decreases |stops|
  {
    hide Advances, Coherent, AllQuiet, Item, Gained;
    var n := |stops| - 1;
    if k < n {
      StopAdvances(given, entry, first, stops[..n], start, stops[n].from, stops[n].before, k);
      AdvancesOn(stops[k].after, stops[n].before, now);
    } else {
      AdvancesSelf(now);
    }
  }

  lemma AdvancesSelf(now: State)
    ensures Advances(now, now)
  {
    Standing(now);
  }

  lemma TraceNext(given: seq<Input>, entry: string, first: State, stops: seq<Stop>, start: nat, i: nat, now: State,
                  next: State, to: nat, changed: bool)
    requires Trace(given, entry, first, stops, start, i, now) && start <= i && AdvancedBy(now, next, changed)
    requires Item(given, i, to) && AllQuiet(next, i, to, entry) && Coherent(given, entry, next)
    requires Gained(now, next, i, to)
    ensures Trace(given, entry, first, stops + [Stop(i, to, now, next)], start, to, next)
  {
    hide Advances, Coherent, AllQuiet, Item, Gained;
    var more := stops + [Stop(i, to, now, next)];
    assert more[..|more| - 1] == stops && more[|more| - 1] == Stop(i, to, now, next);
  }

  lemma TraceStart(given: seq<Input>, entry: string, start: nat, now: State)
    ensures Trace(given, entry, now, [], start, start, now)
  {
  }

  lemma GroupItem(given: seq<Input>, i: nat, e: nat)
    requires i < e < |given| && given[i].GroupStart? && given[e].GroupEnd? && Balanced(given, i + 1, e)
    ensures Item(given, i, e + 1)
  {
    hide Balanced;
  }

  lemma PlainItem(given: seq<Input>, i: nat)
    requires i < |given| && (given[i].Lib? || given[i].Explicit?)
    ensures Item(given, i, i + 1)
  {
  }

  // ---- what a range selects ---------------------------------------------------------------------------

  function Nonempty(names: seq<string>): seq<string> {
    if names == [] then []
    else
      var before := Nonempty(names[..|names| - 1]);
      if names[|names| - 1] == "" then before else before + [names[|names| - 1]]
  }

  /** The list of a pass: unsatisfied names, first seen first, and then the required ones. */
  function PassList(objects: seq<Object>, required: seq<string>): seq<string> {
    var own := Definitions(objects);
    Distinct(Asked(own, own, objects) + Nonempty(required))
  }

  predicate IsLib(s: State, i: nat) { i < |s.inputs| && s.inputs[i].Lib? }

  /** As many objects more as there are fewer left to take. */
  predicate Spends(s: State, t: State) {
    && |t.inputs| == |s.inputs| && |s.objects| <= |t.objects|
    && Remaining(t.inputs) + |t.objects| == Remaining(s.inputs) + |s.objects|
  }

  lemma SpendsOn(s: State, t: State, u: State)
    requires Spends(s, t) && Spends(t, u)
    ensures Spends(s, u)
    ensures |u.objects| > |t.objects| ==> Remaining(u.inputs) < Remaining(t.inputs)
  {
    hide Remaining;
  }

  /** Pulling for one name; `None` when the index names a member that cannot be had. */
  function PullName(s: State, i: nat, name: string, pass: nat): (r: Option<State>)
    requires IsLib(s, i)
    ensures r.Some? ==> IsLib(r.value, i) && Spends(s, r.value)
  {
    hide Remaining, Offsets, Lookup;
    var ar, pulled, off := s.inputs[i].ar, s.inputs[i].pulled, Lookup(s.inputs[i].ar, name);
    if off == None || off.value in pulled then Some(s)
    else if off.value !in ar.members || ar.members[off.value] == None then None
    else
      LookupExact(ar, name);
      PullSpends(s.inputs, i, off.value);
      Some(Add(s, i, Lib(ar, pulled + {off.value}), ar.members[off.value].value,
               FromArchive(i, off.value, name, pass)))
  }

  function PullNames(s: State, i: nat, names: seq<string>, pass: nat): (r: Option<State>)
    requires IsLib(s, i)
    ensures r.Some? ==> IsLib(r.value, i) && Spends(s, r.value)
  {
    hide Remaining;
    if names == [] then Some(s)
    else
      var before := PullNames(s, i, names[..|names| - 1], pass);
      if before == None then None else PullName(before.value, i, names[|names| - 1], pass)
  }

  /** Passes over one archive until one pulls nothing. */
  function ScanFrom(s: State, i: nat, required: seq<string>): (r: Option<State>)
    requires IsLib(s, i)
    ensures r.Some? ==> IsLib(r.value, i) && Spends(s, r.value)
    decreases Remaining(s.inputs)
  {
    hide Remaining, PassList;
    var t := PullNames(s, i, PassList(s.objects, required), |s.objects|);
    if t == None then None
    else if |t.value.objects| == |s.objects| then t
    else ScanFrom(t.value, i, required)
  }

  function RequiredEntry(objects: seq<Object>, entry: string): seq<string> {
    if entry in Definitions(objects) then [] else [entry]
  }

  datatype Fate = Reached(state: State) | Stopped(why: Outcome)

  /** The turn of an input that is no marker. */
  function RunOne(s: State, i: nat, entry: string): (r: Fate)
    requires i < |s.inputs|
    ensures r.Reached? ==> Spends(s, r.state)
  {
    hide Remaining, RequiredEntry;
    match s.inputs[i]
    case Explicit(Some(obj)) =>
      RemainingUpdate(s.inputs, i, Explicit(None));
      Reached(Add(s, i, Explicit(None), obj, FromLine(i)))
    case Lib(ar, _) =>
      var t := if ar.opens then ScanFrom(s, i, RequiredEntry(s.objects, entry)) else None;
      if t == None then Stopped(BadArchive) else Reached(t.value)
    case _ => Reached(s)
  }

  /** The inputs in order, groups as a whole. */
  function RunRange(s: State, i: nat, end: nat, entry: string): (r: Fate)
    requires i <= end <= |s.inputs|
    ensures r.Reached? ==> Spends(s, r.state)
    decreases end - i, 0, 0
  {
    hide RunOne, Remaining;
    if i == end then Reached(s)
    else if s.inputs[i].GroupEnd? then Stopped(UnmatchedMarker)
    else if s.inputs[i].GroupStart? then
      var e := EndFrom(s.inputs, i + 1, end, 0);
      if e == None then Stopped(UnmatchedMarker)
      else
        var t := RunGroup(s, i + 1, e.value, entry);
        if t.Reached? then RunRange(t.state, e.value + 1, end, entry) else t
    else
      var t := RunOne(s, i, entry);
      if t.Reached? then RunRange(t.state, i + 1, end, entry) else t
  }

  /** A group's inputs again and again until nothing is added. */
  function RunGroup(s: State, start: nat, end: nat, entry: string): (r: Fate)
    requires start <= end <= |s.inputs|
    ensures r.Reached? ==> Spends(s, r.state)
    decreases end - start, 1, Remaining(s.inputs)
  {
    hide Remaining;
    var t := RunRange(s, start, end, entry);
    if t.Stopped? || |t.state.objects| == |s.objects| then t
    else RunGroup(t.state, start, end, entry)
  }

  lemma PullNamesPush(s: State, i: nat, names: seq<string>, k: nat, pass: nat)
    requires IsLib(s, i) && k < |names|
    ensures var t := PullNames(s, i, names[..k], pass);
      PullNames(s, i, names[..k + 1], pass) == if t == None then None else PullName(t.value, i, names[k], pass)
  {
    hide PullName, Spends;
    assert names[..k + 1][..k] == names[..k];
  }

  /** A pull is from the archive of its pass. */
  lemma PullGained(first: State, s: State, t: State, i: nat, name: string, pass: nat)
    requires IsLib(s, i) && Gained(first, s, i, i + 1)
    requires pass == |first.origins| && PullName(s, i, name, pass) == Some(t)
    ensures Gained(first, t, i, i + 1)
  {
    hide Lookup, Spends;
    assert t.origins == s.origins || t.origins[..|s.origins|] == s.origins;
    assert forall k :: 0 <= k < |s.origins| ==> t.origins[k] == s.origins[k];
    assert s.origins[..|first.origins|] == t.origins[..|first.origins|];
  }

  lemma {:induction false} PullNamesFails(s: State, i: nat, names: seq<string>, k: nat, pass: nat)
    requires IsLib(s, i) && k <= |names| && PullNames(s, i, names[..k], pass) == None
    ensures PullNames(s, i, names, pass) == None
    decreases |names|
  {
    hide PullName, Spends;
    var n := |names| - 1;
    if k <= n {
      assert names[..n][..k] == names[..k];
      PullNamesFails(s, i, names[..n], k, pass);
    } else {
      assert names[..k] == names;
    }
  }

  lemma PullNamesNothing(s: State, i: nat, names: seq<string>, pass: nat)
    requires IsLib(s, i)
    ensures PullNames(s, i, names[..0], pass) == Some(s) && names[..|names|] == names
  {
  }

  lemma ScanStep(s: State, i: nat, required: seq<string>)
    requires IsLib(s, i)
    ensures var t := PullNames(s, i, PassList(s.objects, required), |s.objects|);
      ScanFrom(s, i, required) ==
        if t == None then None else if |t.value.objects| == |s.objects| then t else ScanFrom(t.value, i, required)
  {
    hide PullNames, PassList, Spends;
  }

  lemma ScanIs(s: State, i: nat, entry: string, required: seq<string>)
    requires IsLib(s, i) && required == RequiredEntry(s.objects, entry)
    ensures RunOne(s, i, entry) ==
      if !s.inputs[i].ar.opens || ScanFrom(s, i, required) == None then Stopped(BadArchive)
      else Reached(ScanFrom(s, i, required).value)
  {
    hide ScanFrom, RequiredEntry, Remaining;
  }

  lemma TakeIs(s: State, i: nat, entry: string)
    requires i < |s.inputs| && s.inputs[i].Explicit?
    ensures RunOne(s, i, entry) == Reached(
      if s.inputs[i].obj == None then s else Add(s, i, Explicit(None), s.inputs[i].obj.value, FromLine(i)))
    ensures s.inputs[i].obj.Some? ==>
      Gained(s, Add(s, i, Explicit(None), s.inputs[i].obj.value, FromLine(i)), i, i + 1)
  {
    hide ScanFrom, RequiredEntry, Remaining;
  }

  lemma RangeDone(s: State, end: nat, entry: string)
    requires end <= |s.inputs|
    ensures RunRange(s, end, end, entry) == Reached(s)
  {
  }

  lemma RangeMarker(s: State, i: nat, end: nat, entry: string)
    requires i < end <= |s.inputs|
    requires s.inputs[i].GroupEnd? || (s.inputs[i].GroupStart? && EndFrom(s.inputs, i + 1, end, 0) == None)
    ensures RunRange(s, i, end, entry) == Stopped(UnmatchedMarker)
  {
  }

  lemma RangeGroup(s: State, i: nat, end: nat, entry: string, e: nat)
    requires i < e < end <= |s.inputs| && s.inputs[i].GroupStart? && EndFrom(s.inputs, i + 1, end, 0) == Some(e)
    ensures var t := RunGroup(s, i + 1, e, entry);
      t.Reached? ==>
        |t.state.inputs| == |s.inputs| && RunRange(s, i, end, entry) == RunRange(t.state, e + 1, end, entry)
    ensures var t := RunGroup(s, i + 1, e, entry); t.Stopped? ==> RunRange(s, i, end, entry) == t
  {
    hide RunGroup, EndFrom, Remaining;
  }

  lemma RangeOne(s: State, i: nat, end: nat, entry: string)
    requires i < end <= |s.inputs| && !s.inputs[i].GroupStart? && !s.inputs[i].GroupEnd?
    ensures var t := RunOne(s, i, entry);
      t.Reached? ==>
        |t.state.inputs| == |s.inputs| && RunRange(s, i, end, entry) == RunRange(t.state, i + 1, end, entry)
    ensures var t := RunOne(s, i, entry); t.Stopped? ==> RunRange(s, i, end, entry) == t
  {
    hide RunOne, EndFrom, Remaining;
  }

  lemma GroupStep(s: State, start: nat, end: nat, entry: string)
    requires start <= end <= |s.inputs|
    ensures var t := RunRange(s, start, end, entry);
      RunGroup(s, start, end, entry) ==
        if t.Stopped? || |t.state.objects| == |s.objects| then t else RunGroup(t.state, start, end, entry)
  {
    hide RunRange, Remaining;
  }

  class Selection {
    ghost const given: seq<Input>
    const entry: string
    var inputs: seq<Input>
    var objects: seq<Object>
    var defined: set<string>
    ghost var origins: seq<Origin>
    ghost var frontier: nat

    ghost function View(): State
      reads this
    {
      State(inputs, objects, origins)
    }

    ghost predicate Valid()
      reads this
    {
      Coherent(given, entry, View()) && defined == Definitions(objects) && Lines(origins, frontier)
    }

    constructor (inputs: seq<Input>, entry: string)
      requires Fresh(inputs)
      ensures Valid() && this.given == this.inputs == inputs && this.entry == entry && objects == []
      ensures origins == [] && frontier == 0
    {
      this.given, this.entry, this.inputs := inputs, entry, inputs;
      this.objects, this.defined, this.origins, this.frontier := [], {}, [], 0;
      new;
      assert forall i :: 0 <= i < |inputs| ==> InputAgrees(given, View(), i);
    }

    lemma StaysCoherent()
      requires Valid()
      ensures Coherent(given, entry, View())
    {
    }

    lemma KindsAgree()
      requires Valid()
      ensures |inputs| == |given| && View().inputs == inputs && View().objects == objects
      ensures forall i {:trigger inputs[i]} {:trigger given[i]} :: 0 <= i < |given| ==>
        && inputs[i].GroupStart? == given[i].GroupStart? && inputs[i].GroupEnd? == given[i].GroupEnd?
        && inputs[i].Lib? == given[i].Lib? && inputs[i].Explicit? == given[i].Explicit?
    {
      forall i | 0 <= i < |given| ensures SameKind(given[i], inputs[i]) {
        KeepsKind(given, entry, View(), i);
      }
    }

    /** `add_object`. */
    method AddObject(obj: Object)
      requires defined == Definitions(objects)
      modifies this`objects, this`defined
      ensures objects == old(objects) + [obj] && defined == Definitions(objects)
    {
      defined := DefinedNames(obj, defined);
      assert (objects + [obj])[..|objects|] == objects;
      objects := objects + [obj];
    }

    /** Pulls one member for one name of the list, unless the index has none or it is there already. */
    method PullOne(i: nat, name: string, ghost pass: nat) returns (r: Outcome)
      requires Valid() && i < |inputs| && inputs[i].Lib?
      requires pass <= |objects| && OnePass(origins, pass, i, |origins|)
      requires Served(inputs[i], name) || Demanded(objects[..pass], entry, name)
      modifies this
      ensures r.BadArchive? ==> SomeBroken(given)
      ensures !r.UnmatchedMarker?
      ensures r.Done? ==> Valid() && AdvancedBy(old(View()), View(), r.changed)
      ensures r.Done? ==>
        inputs[i].Lib? && inputs[i].ar == old(inputs[i].ar) && old(inputs[i].pulled) <= inputs[i].pulled
      ensures r.Done? ==> inputs == old(inputs)[i := inputs[i]] && Served(inputs[i], name) && frontier == old(frontier)
      ensures r.Done? ==> OnePass(origins, pass, i, |origins|)
      ensures PullName(old(View()), i, name, pass) == if r.Done? then Some(View()) else None
    {
      hide Coherent, Demanded, Offsets, Remaining, Lookup, Definitions, AdvancedBy, Lines, SameKind, OnePass;
      ghost var before := View();
      SameLengths(given, entry, before);
      var ar, pulled := inputs[i].ar, inputs[i].pulled;
      SameArchive(given, entry, before, i);
      LookupExact(ar, name);
      var off := ArmapOffset(ar, name);
      Standing(before);
      if off == None || off.value in pulled {
        return Done(false);
      }
      inputs := inputs[i := Lib(ar, pulled + {off.value})];
      if off.value !in ar.members || ar.members[off.value] == None {
        BrokenAt(given, i, off.value);
        return BadArchive;
      }
      var obj := ar.members[off.value].value;
      AddObject(obj);
      LinesArchive(origins, frontier, FromArchive(i, off.value, name, pass));
      origins := origins + [FromArchive(i, off.value, name, pass)];
      PullKeeps(given, entry, before, i, off.value, name, pass);
      PullAdvances(before, i, off.value, obj, FromArchive(i, off.value, name, pass));
      assert View() == Add(before, i, inputs[i], obj, FromArchive(i, off.value, name, pass));
      return Done(true);
    }

    /** One pass over a demand list computed beforehand. */
    method PullPass(i: nat, demand: seq<string>) returns (r: Outcome)
      requires Valid() && i < |inputs| && inputs[i].Lib?
      requires forall name :: name in demand ==> Demanded(objects, entry, name) || Served(inputs[i], name)
      modifies this
      ensures r.BadArchive? ==> SomeBroken(given)
      ensures !r.UnmatchedMarker?
      ensures r.Done? ==> Valid() && AdvancedBy(old(View()), View(), r.changed)
      ensures r.Done? ==>
        inputs[i].Lib? && inputs[i].ar == old(inputs[i].ar) && old(inputs[i].pulled) <= inputs[i].pulled
      ensures r.Done? ==> frontier == old(frontier) && forall name :: name in demand ==> Served(inputs[i], name)
      ensures PullNames(old(View()), i, demand, old(|objects|)) == if r.Done? then Some(View()) else None
      ensures r.Done? ==> Gained(old(View()), View(), i, i + 1)
    {
      hide Coherent, Demanded, Offsets, Remaining, Lookup, Definitions, Lines, OnePass, PullName, PullNames, Gained;
      var changed := false;
      ghost var first := View();
      Standing(first);
      SameLengths(given, entry, first);
      PassStarts(origins, i);
      GainedNothing(first, i, i + 1);
      PullNamesNothing(first, i, demand, |first.objects|);
      assert objects[..|objects|] == objects;
      for k := 0 to |demand|
        invariant frontier == old(frontier) && Valid() && AdvancedBy(first, View(), changed)
        invariant inputs[i].Lib? && inputs[i].ar == first.inputs[i].ar && first.inputs[i].pulled <= inputs[i].pulled
        invariant forall name :: name in demand[..k] ==> Served(inputs[i], name)
        invariant OnePass(origins, |first.objects|, i, |origins|) && Gained(first, View(), i, i + 1)
        invariant PullNames(first, i, demand[..k], |first.objects|) == Some(View())
      {
        ghost var before := View();
        assert demand[k] in demand;
        PullNamesPush(first, i, demand, k, |first.objects|);
        var one := PullOne(i, demand[k], |first.objects|);
        if !one.Done? {
          PullNamesFails(first, i, demand, k + 1, |first.objects|);
          return one;
        }
        PullGained(first, before, View(), i, demand[k], |first.objects|);
        Combine(first, before, View(), changed, one.changed);
        changed := changed || one.changed;
        assert demand[..k + 1] == demand[..k] + [demand[k]];
      }
      assert demand[..|demand|] == demand;
      return Done(changed);
    }

    /** The list `scan_archive` works through: the unsatisfied names, then the required ones. */
    method DemandList(required: seq<string>) returns (demand: seq<string>)
      requires Valid()
      ensures forall name :: name in demand <==>
        name in Asked(Definitions(objects), Definitions(objects), objects) || (name in required && name != "")
      ensures demand == PassList(objects, required)
    {
      hide Coherent, Distinct;
      demand := UndefinedDemand(objects, [], defined);
      ghost var own := Definitions(objects);
      ghost var asked := Asked(own, own, objects);
      assert asked + Extras(own, []) == asked && asked + Nonempty([]) == asked;
      for k := 0 to |required|
        invariant demand == Distinct(asked + Nonempty(required[..k]))
        invariant forall name :: name in demand <==> name in asked || (name in required[..k] && name != "")
      {
        assert required[..k + 1] == required[..k] + [required[k]] && required[..k + 1][..k] == required[..k];
        DistinctPush(asked + Nonempty(required[..k]), required[k]);
        assert asked + (Nonempty(required[..k]) + [required[k]]) == asked + Nonempty(required[..k]) + [required[k]];
        if required[k] != "" && required[k] !in demand {
          demand := demand + [required[k]];
        }
      }
      assert required[..|required|] == required;
    }

    /** A pass of a scan begun in the state `first`. */
    method ScanPass(i: nat, required: seq<string>, ghost first: State) returns (r: Outcome)
      requires Valid() && i < |inputs| && inputs[i].Lib?
      requires |first.objects| <= |objects| && first.objects == objects[..|first.objects|]
      requires required == if entry in Definitions(first.objects) then [] else [entry]
      requires |objects| > |first.objects| && entry in required ==> entry == "" || Served(inputs[i], entry)
      modifies this
      ensures r.BadArchive? ==> SomeBroken(given)
      ensures !r.UnmatchedMarker?
      ensures r.Done? ==> Valid() && AdvancedBy(old(View()), View(), r.changed) && frontier == old(frontier)
      ensures r.Done? ==> i < |inputs| && inputs[i].Lib?
      ensures r.Done? ==> entry in required ==> entry == "" || Served(inputs[i], entry)
      ensures r.Done? && !r.changed ==> Quiet(inputs[i], objects, entry)
      ensures r.Done? ==> Gained(old(View()), View(), i, i + 1)
      ensures ScanFrom(old(View()), i, required) ==
        if !r.Done? then None else if r.changed then ScanFrom(View(), i, required) else Some(View())
    {
      hide Coherent, Demanded, Offsets, Remaining, Lookup, Definitions, Served, Quiet, Lines, PullNames, ScanFrom,
           PassList, Gained, Advances;
      ghost var before := View();
      assert objects[..|objects|] == objects;
      var demand := DemandList(required);
      EntryRequired(first.objects, objects, entry, required);
      ghost var wanted := set name | name in required && name != "";
      DemandCovers(objects, entry, wanted, demand, inputs[i]);
      ScanStep(View(), i, required);
      r := PullPass(i, demand);
      if r.Done? && !r.changed {
        Unchanged(before, View());
        ServedIsQuiet(demand, inputs[i], objects, entry);
      }
    }

    /** The loop of `scan_archive`. */
    method ScanPasses(i: nat, required: seq<string>) returns (r: Outcome)
      requires Valid() && i < |inputs| && inputs[i].Lib?
      requires required == if entry in Definitions(objects) then [] else [entry]
      modifies this
      ensures r.BadArchive? ==> SomeBroken(given)
      ensures !r.UnmatchedMarker?
      ensures r.Done? ==> Valid() && AdvancedBy(old(View()), View(), r.changed) && frontier == old(frontier)
      ensures r.Done? ==> i < |inputs| && Quiet(inputs[i], objects, entry) && Gained(old(View()), View(), i, i + 1)
      ensures IsLib(old(View()), i)
      ensures ScanFrom(old(View()), i, required) == if r.Done? then Some(View()) else None
    {
      hide *;
      var pulledAny := false;
      ghost var first := View();
      ViewIs(i);
      Standing(first);
      GainedNothing(first, i, i + 1);
      assert objects[..|objects|] == objects;
      var again := true;
      while again
        invariant Valid() && AdvancedBy(first, View(), pulledAny) && frontier == old(frontier)
        invariant i < |inputs| && inputs[i].Lib? && IsLib(View(), i) && Gained(first, View(), i, i + 1)
        invariant |first.objects| <= |objects| && first.objects == objects[..|first.objects|]
        invariant |objects| > |first.objects| && entry in required ==> entry == "" || Served(inputs[i], entry)
        invariant !again ==> Quiet(inputs[i], objects, entry)
        invariant ScanFrom(first, i, required) == if again then ScanFrom(View(), i, required) else Some(View())
        decreases again, Remaining(inputs)
      {
        ghost var before := View();
        ViewIs(i);
        var pass := ScanPass(i, required, first);
        if !pass.Done? {
          return pass;
        }
        GainedOn(first, before, View(), i, i + 1, i, i + 1);
        Combine(first, before, View(), pulledAny, pass.changed);
        Sizes(first, View(), pulledAny || pass.changed);
        ViewIs(i);
        again := pass.changed;
        pulledAny := pulledAny || pass.changed;
      }
      return Done(pulledAny);
    }

    lemma ViewIs(i: nat)
      requires i < |inputs| && inputs[i].Lib?
      ensures View() == State(inputs, objects, origins) && IsLib(View(), i)
    {
    }

    /** `scan_archive`: passes until one pulls nothing; the archive is then quiet. */
    method ScanArchive(i: nat, required: seq<string>) returns (r: Outcome)
      requires Valid() && i < |inputs| && inputs[i].Lib?
      requires required == if entry in defined then [] else [entry]
      modifies this
      ensures r.BadArchive? ==> SomeBroken(given)
      ensures !r.UnmatchedMarker?
      ensures r.Done? ==> Valid() && AdvancedBy(old(View()), View(), r.changed)
      ensures r.Done? ==> i < |inputs| && Quiet(inputs[i], objects, entry) && frontier == old(frontier)
      ensures r.Done? ==> Gained(old(View()), View(), i, i + 1)
      ensures RunOne(old(View()), i, entry) == if r.Done? then Reached(View()) else Stopped(r)
    {
      KeepsKind(given, entry, View(), i);
      ScanIs(View(), i, entry, required);
      hide Coherent, Definitions, Remaining, Quiet, Lines, ScanFrom, RunOne, Gained, AdvancedBy;
      if !inputs[i].ar.opens {
        assert Broken(given[i]);
        return BadArchive;
      }
      r := ScanPasses(i, required);
    }

    /** A command-line object is taken the first time it is met. */
    method TakeObject(i: nat) returns (changed: bool)
      requires Valid() && i < |inputs| && inputs[i].Explicit? && (frontier <= i || inputs[i].obj == None)
      modifies this
      ensures Valid() && AdvancedBy(old(View()), View(), changed) && frontier <= Max(old(frontier), i + 1)
      ensures Quiet(inputs[i], objects, entry)
      ensures RunOne(old(View()), i, entry) == Reached(View()) && Gained(old(View()), View(), i, i + 1)
    {
      hide Coherent, Demanded, Remaining, Definitions, Lines, AdvancedBy, RunOne, Gained;
      Standing(View());
      TakeIs(View(), i, entry);
      GainedNothing(View(), i, i + 1);
      if inputs[i].obj == None {
        return false;
      }
      ghost var before := View();
      var obj := inputs[i].obj.value;
      SameLengths(given, entry, before);
      TakeKeeps(given, entry, before, i);
      TakeAdvances(before, i, obj);
      LinesNext(origins, frontier, i);
      inputs := inputs[i := Explicit(None)];
      AddObject(obj);
      origins, frontier := origins + [FromLine(i)], i + 1;
      assert View() == Add(before, i, Explicit(None), obj, FromLine(i));
      assert objects[..|before.objects|] == before.objects;
      return true;
    }

    /** One input that is no marker. */
    method ProcessOne(i: nat) returns (r: Outcome)
      requires Valid() && i < |inputs| && (inputs[i].Lib? || inputs[i].Explicit?) && Ready(View(), frontier, i, i + 1)
      modifies this
      ensures r.BadArchive? ==> SomeBroken(given)
      ensures !r.UnmatchedMarker?
      ensures r.Done? ==> frontier <= Max(old(frontier), i + 1)
      ensures r.Done? ==> Valid() && AdvancedBy(old(View()), View(), r.changed)
      ensures r.Done? ==> AllQuiet(View(), i, i + 1, entry)
      ensures RunOne(old(View()), i, entry) == if r.Done? then Reached(View()) else Stopped(r)
      ensures r.Done? ==> Gained(old(View()), View(), i, i + 1)
    {
      KeepsKind(given, entry, View(), i);
      hide Coherent, Demanded, Remaining, Definitions, Quiet, Lines, RunOne, Gained;
      if inputs[i].Explicit? {
        var changed := TakeObject(i);
        QuietOne(View(), i, entry);
        return Done(changed);
      } else {
        var required := if entry in defined then [] else [entry];
        r := ScanArchive(i, required);
        if r.Done? {
          QuietOne(View(), i, entry);
        }
      }
    }

    /** The end of the group that starts at `i`, if there is one. */
    method MatchingEnd(ghost start: nat, i: nat, end: nat) returns (r: Option<nat>)
      requires Valid() && start <= i < end <= |given| && given[i].GroupStart?
      requires Balanced(given, start, i)
      ensures r.None? ==> !Balanced(given, start, end)
      ensures r.Some? ==> i < r.value < end && given[r.value].GroupEnd?
      ensures r.Some? ==> Balanced(given, i + 1, r.value) && Balanced(given, start, r.value + 1)
      ensures |inputs| == |given| && r == EndFrom(inputs, i + 1, end, 0)
    {
      forall k | 0 <= k < |given| ensures |inputs| == |given| && SameKind(given[k], inputs[k]) {
        KeepsKind(given, entry, View(), k);
      }
      hide Coherent, Definitions, EndFrom;
      var next := i + 1;
      forall k | next <= k <= end ensures Depth(given, next, k) == Depth(inputs, next, k) {
        DepthSame(given, inputs, next, k);
      }
      assert forall k :: 0 <= k < |given| ==> SameKind(given[k], inputs[k]);
      r := FindGroupEnd(inputs, i + 1, end);
      if r.Some? {
        GroupBalances(given, start, i, r.value);
      } else {
        DepthAdds(given, start, i + 1, end);
      }
    }

    /** The rescan loop of a group: it ends with a pass that changes nothing. */
    method RescanGroup(start: nat, end: nat) returns (r: Outcome)
      requires Valid() && start <= end <= |given| && Balanced(given, start, end) && Ready(View(), frontier, start, end)
      modifies this
      ensures r.BadArchive? ==> SomeBroken(given)
      ensures !r.UnmatchedMarker?
      ensures r.Done? ==> frontier <= Max(old(frontier), end)
      ensures r.Done? ==> Valid() && AdvancedBy(old(View()), View(), r.changed)
      ensures r.Done? ==> AllQuiet(View(), start, end, entry) && Gained(old(View()), View(), start, end)
      ensures |old(inputs)| == |given|
      ensures RunGroup(old(View()), start, end, entry) == if r.Done? then Reached(View()) else Stopped(r)
      decreases end - start, 2, 0
    {
      SameLengths(given, entry, View());
      hide Coherent, Remaining, Definitions, AllQuiet, SomeBroken, Balanced, AdvancedBy, Lines, AllTaken, RunRange,
           RunGroup, Gained, Trace;
      ghost var first := View();
      GainedNothing(first, start, end);
      Standing(first);
      var changed := false;
      while true
        invariant Valid() && AdvancedBy(first, View(), changed)
        invariant Ready(View(), frontier, start, end) && frontier <= Max(old(frontier), end)
        invariant |inputs| == |given| && Gained(first, View(), start, end)
        invariant RunGroup(first, start, end, entry) == RunGroup(View(), start, end, entry)
        decreases Remaining(inputs)
      {
        ghost var before := View();
        GroupStep(before, start, end, entry);
        ghost var stops;
        r, stops := ProcessRange(start, end);
        if !r.Done? {
          return;
        }
        Combine(first, before, View(), changed, r.changed);
        Sizes(before, View(), r.changed);
        GainedOn(first, before, View(), start, end, start, end);
        if !r.changed {
          return Done(changed);
        }
        changed := true;
      }
    }

    /** The body of the loop below: a whole group, or one input. */
    method ProcessItem(ghost start: nat, i: nat, end: nat) returns (r: Outcome, next: nat)
      requires Valid() && start <= i < end <= |given| && Balanced(given, start, i) && Ready(View(), frontier, i, end)
      modifies this
      ensures r.BadArchive? ==> SomeBroken(given)
      ensures r.UnmatchedMarker? ==> !Balanced(given, start, end)
      ensures r.Done? ==> frontier <= Max(old(frontier), next)
      ensures r.Done? ==> i < next <= end && Balanced(given, start, next) && Item(given, i, next)
      ensures r.Done? ==> Valid() && AdvancedBy(old(View()), View(), r.changed)
      ensures r.Done? ==> AllQuiet(View(), i, next, entry) && Gained(old(View()), View(), i, next)
      ensures |old(inputs)| == |given| && (r.Done? ==> |inputs| == |given| == |View().inputs|)
      ensures RunRange(old(View()), i, end, entry) ==
        if r.Done? then RunRange(View(), next, end, entry) else Stopped(r)
      decreases end - i, 0, 0
    {
      hide *;
      KindsAgree();
      ghost var first := View();
      next := i + 1;
      if inputs[i].GroupStart? {
        var groupEnd := MatchingEnd(start, i, end);
        if groupEnd == None {
          RangeMarker(first, i, end, entry);
          return UnmatchedMarker, next;
        }
        RangeGroup(first, i, end, entry, groupEnd.value);
        ReadyWithin(View(), frontier, i, end, i + 1, groupEnd.value);
        MaxGrows(frontier, groupEnd.value, groupEnd.value + 1);
        r := RescanGroup(i + 1, groupEnd.value);
        if r.Done? {
          KindsAgree();
          QuietGroup(View(), i, groupEnd.value, entry);
          GroupItem(given, i, groupEnd.value);
          GainedNothing(first, i, i + 1);
          GainedOn(first, first, View(), i, i + 1, i + 1, groupEnd.value);
          GainedNothing(View(), i, groupEnd.value + 1);
          GainedOn(first, View(), View(), i, groupEnd.value, i, groupEnd.value + 1);
        }
        next := groupEnd.value + 1;
      } else if inputs[i].GroupEnd? {
        EndUnbalances(given, start, i, end);
        RangeMarker(first, i, end, entry);
        return UnmatchedMarker, next;
      } else {
        PlainBalances(given, start, i);
        PlainItem(given, i);
        RangeOne(first, i, end, entry);
        ReadyWithin(View(), frontier, i, end, i, i + 1);
        r := ProcessOne(i);
        if r.Done? {
          KindsAgree();
        }
      }
    }

    /** `process_static_range`. */
    method ProcessRange(start: nat, end: nat) returns (r: Outcome, ghost stops: seq<Stop>)
      requires Valid() && start <= end <= |given| && Ready(View(), frontier, start, end)
      modifies this
      ensures r.BadArchive? ==> SomeBroken(given)
      ensures r.UnmatchedMarker? ==> !Balanced(given, start, end)
      ensures r.Done? ==> frontier <= Max(old(frontier), end)
      ensures r.Done? ==> Valid() && AdvancedBy(old(View()), View(), r.changed)
      ensures r.Done? ==> Balanced(given, start, end) && AllTaken(View(), start, end)
      ensures r.Done? && !r.changed ==> AllQuiet(View(), start, end, entry)
      ensures r.Done? ==> Trace(given, entry, old(View()), stops, start, end, View())
      ensures r.Done? ==> Gained(old(View()), View(), start, end)
      ensures |old(inputs)| == |given|
      ensures RunRange(old(View()), start, end, entry) == if r.Done? then Reached(View()) else Stopped(r)
      decreases end - start, 1, 0
    {
      hide *;
      stops := [];
      KindsAgree();
      GainedNothing(View(), start, start);
      TraceStart(given, entry, start, View());
      ghost var first := View();
      Standing(first);
      var changed := false;
      var i := start;
      EmptyRange(given, first, start, entry);
      MaxGrows(frontier, start, start);
      while i < end
        invariant Ready(View(), frontier, i, end) && frontier <= Max(old(frontier), i)
        invariant start <= i <= end && Valid() && AdvancedBy(first, View(), changed)
        invariant Balanced(given, start, i) && AllTaken(View(), start, i)
        invariant !changed ==> AllQuiet(View(), start, i, entry)
        invariant Trace(given, entry, first, stops, start, i, View()) && Gained(first, View(), start, i)
        invariant |View().inputs| == |given| == |first.inputs|
        invariant RunRange(first, start, end, entry) == RunRange(View(), i, end, entry)
        decreases end - i
      {
        ghost var before, mark := View(), frontier;
        var next;
        r, next := ProcessItem(start, i, end);
        if !r.Done? {
          return;
        }
        ReadyNext(before, View(), mark, frontier, i, next, end, r.changed);
        MaxBelow(old(frontier), mark, frontier, i, next);
        Combine(first, before, View(), changed, r.changed);
        TakenJoin(before, View(), start, i, next, r.changed, entry);
        StaysCoherent();
        TraceNext(given, entry, first, stops, start, i, before, View(), next, r.changed);
        GainedOn(first, before, View(), start, i, i, next);
        stops := stops + [Stop(i, next, before, View())];
        changed := changed || r.changed;
        if !changed {
          QuietJoin(View(), start, i, next, entry);
        }
        i := next;
      }
      RangeDone(View(), end, entry);
      return Done(changed), stops;
    }
  }

  /**
   * Selection for a static link.  When it succeeds the markers balance, every command-line object
   * is selected once and from left to right, no archive member is selected twice, and each selected
   * member was demanded when its pass began, a pass that nothing else interrupts; and when the turn of an
   * archive or of a whole group ended, nothing in it had a member left to give for a name still demanded,
   * and only it had given anything.  The inputs determine all of it (`RunRange`), errors included.
   */
  method Select(inputs: seq<Input>, entry: string)
    returns (r: Outcome, objects: seq<Object>, ghost last: State, ghost stops: seq<Stop>)
    requires Fresh(inputs)
    ensures r.BadArchive? ==> SomeBroken(inputs)
    ensures r.UnmatchedMarker? ==> !Balanced(inputs, 0, |inputs|)
    ensures r.Done? ==> Balanced(inputs, 0, |inputs|)
    ensures r.Done? ==> Coherent(inputs, entry, last) && objects == last.objects
    ensures r.Done? ==> forall i: nat :: i < |inputs| && inputs[i].Explicit? ==> HasTaken(last, i)
    ensures r.Done? ==> |objects| + Remaining(last.inputs) == Remaining(inputs)
    ensures r.Done? ==> Lines(last.origins, |inputs|)
    ensures r.Done? ==> Trace(inputs, entry, State(inputs, [], []), stops, 0, |inputs|, last)
    ensures RunRange(State(inputs, [], []), 0, |inputs|, entry) == if r.Done? then Reached(last) else Stopped(r)
  {
    var s := new Selection(inputs, entry);
    r, stops := s.ProcessRange(0, |inputs|);
    objects, last := s.objects, s.View();
    if r.Done? {
      LinesFurther(last.origins, s.frontier, |inputs|);
      hide Remaining, OriginHolds, Balanced, Definitions, SomeBroken;
      forall i: nat | i < |inputs| && inputs[i].Explicit? ensures HasTaken(last, i) {
        assert InputAgrees(inputs, last, i);
      }
    }
  }
}
