/** What archive selection pulls and why, told by the symbols and the archive indexes. */
module ArchiveMeaning {
  import opened Wrappers
  import opened Elf
  import opened Archives
  import opened ResolveMeaning
  import Resolve

  // ---- definitions ------------------------------------------------------------------------------------

  /** The symbol defines the name, plainly or as a version of it. */
  ghost predicate Provides(sym: Symbol, name: string) {
    && sym.name != "" && sym.bind != 0 && sym.shndx != 0
    && (sym.name == name || IsVersion(sym.name, name))
  }

  ghost predicate Provided(objects: seq<Object>, name: string) {
    exists o, k :: 0 <= o < |objects| && 0 <= k < |objects[o].symbols| && Provides(objects[o].symbols[k], name)
  }

  lemma ProvidesExactly(sym: Symbol, name: string)
    ensures Provides(sym, name) <==> name in NamesOf(sym)
  {
    IsVersionExactly(sym.name, name);
    hide IsVersion, Resolve.FindAt;
  }

  ghost predicate ProvidedBy(syms: seq<Symbol>, name: string) {
    exists k :: 0 <= k < |syms| && Provides(syms[k], name)
  }

  lemma ProvidedByExactly(syms: seq<Symbol>, name: string)
    ensures ProvidedBy(syms, name) <==> name in SymbolNames(syms)
  {
    forall k | 0 <= k < |syms| ensures Provides(syms[k], name) <==> name in NamesOf(syms[k]) {
      ProvidesExactly(syms[k], name);
    }
    hide Provides, NamesOf;
  }

  lemma ProvidedSplit(objects: seq<Object>, name: string)
    requires objects != []
    ensures Provided(objects, name) <==>
      Provided(objects[..|objects| - 1], name) || ProvidedBy(objects[|objects| - 1].symbols, name)
  {
    hide Provides;
    var n := |objects| - 1;
    if Provided(objects, name) {
      var o, k :| 0 <= o < |objects| && 0 <= k < |objects[o].symbols| && Provides(objects[o].symbols[k], name);
      if o < n {
        assert objects[..n][o] == objects[o];
      }
    }
    if Provided(objects[..n], name) {
      var o, k :| 0 <= o < n && 0 <= k < |objects[..n][o].symbols| && Provides(objects[..n][o].symbols[k], name);
      assert objects[..n][o] == objects[o];
    }
  }

  lemma {:induction false} ProvidedExactly(objects: seq<Object>, name: string)
    ensures Provided(objects, name) <==> name in Definitions(objects)
  {
    if objects != [] {
      hide Provided, ProvidedBy, SymbolNames;
      var n := |objects| - 1;
      ProvidedExactly(objects[..n], name);
      ProvidedSplit(objects, name);
      ProvidedByExactly(objects[n].symbols, name);
    }
  }

  // ---- demand --------------------------------------------------------------------------------------------

  /** A strong undefined reference; a weak one asks for nothing. */
  predicate StrongReference(sym: Symbol, name: string) {
    sym.name == name && sym.shndx == 0 && sym.bind == 1
  }

  ghost predicate StronglyReferenced(objects: seq<Object>, name: string) {
    exists o, k :: 0 <= o < |objects| && 0 <= k < |objects[o].symbols| && StrongReference(objects[o].symbols[k], name)
  }

  /** Some object has a strong reference to the name, nothing selected defines it and the linker does not. */
  ghost predicate Wanting(objects: seq<Object>, name: string) {
    name != "" && name !in LINKER_SYMS && StronglyReferenced(objects, name) && !Provided(objects, name)
  }

  lemma AsksExactly(own: set<string>, sym: Symbol)
    ensures AsksFor(own, own, sym) <==>
      StrongReference(sym, sym.name) && sym.name != "" && sym.name !in LINKER_SYMS && sym.name !in own
  {
    hide LINKER_SYMS;
  }

  /** A reference of default visibility is satisfied by anything defined, any other by the objects' own definitions. */
  predicate Satisfied(own: set<string>, defined: set<string>, sym: Symbol) {
    if sym.visibility == 0 then sym.name in defined else sym.name in own
  }

  /** The demand, whatever counts as defined: names of strong references that are not satisfied. */
  lemma DemandMeans(own: set<string>, defined: set<string>, objects: seq<Object>, name: string)
    ensures name in Asked(own, defined, objects) <==>
      && name != "" && name !in LINKER_SYMS
      && exists o, k :: 0 <= o < |objects| && 0 <= k < |objects[o].symbols|
           && StrongReference(objects[o].symbols[k], name) && !Satisfied(own, defined, objects[o].symbols[k])
  {
    AskedExact(own, defined, objects, name);
    forall o, k | 0 <= o < |objects| && 0 <= k < |objects[o].symbols|
      ensures AsksFor(own, defined, objects[o].symbols[k]) && objects[o].symbols[k].name == name <==>
        && name != "" && name !in LINKER_SYMS
        && StrongReference(objects[o].symbols[k], name) && !Satisfied(own, defined, objects[o].symbols[k])
    {
      hide LINKER_SYMS;
    }
    hide AsksFor, StrongReference, Satisfied, LINKER_SYMS, Asked;
  }

  lemma WantingExactly(objects: seq<Object>, name: string)
    ensures Unsatisfied(objects, name) <==> Wanting(objects, name)
  {
    var own := Definitions(objects);
    ProvidedExactly(objects, name);
    hide Definitions, Provided, LINKER_SYMS;
    forall o, k | 0 <= o < |objects| && 0 <= k < |objects[o].symbols|
      ensures AsksFor(own, own, objects[o].symbols[k]) && objects[o].symbols[k].name == name <==>
        StrongReference(objects[o].symbols[k], name) && name != "" && name !in LINKER_SYMS && name !in own
    {
      AsksExactly(own, objects[o].symbols[k]);
    }
    hide AsksFor, StrongReference;
  }

  /** An additional name is looked for while nothing defines it and the linker does not. */
  lemma ExtraMeans(objects: seq<Object>, name: string)
    ensures Extra(Definitions(objects), name) <==> name != "" && name !in LINKER_SYMS && !Provided(objects, name)
  {
    ProvidedExactly(objects, name);
    hide LINKER_SYMS, Provided, Definitions;
  }

  /** Without strong references there is no demand, whatever weak ones there are. */
  lemma WeakAsksNothing(objects: seq<Object>, name: string)
    requires forall o, k :: 0 <= o < |objects| && 0 <= k < |objects[o].symbols| && objects[o].symbols[k].shndx == 0 ==>
      objects[o].symbols[k].bind != 1
    ensures !Unsatisfied(objects, name)
  {
    WantingExactly(objects, name);
  }

  // ---- the order of demand --------------------------------------------------------------------------------

  /** Symbol `k` of object `o` asks for the name. */
  ghost predicate AsksAt(own: set<string>, objects: seq<Object>, name: string, o: nat, k: nat) {
    && o < |objects| && k < |objects[o].symbols| && StrongReference(objects[o].symbols[k], name)
    && name != "" && name !in LINKER_SYMS && name !in own
  }

  /** The first reference to `x` comes before every reference to `y`. */
  ghost predicate SeenBefore(own: set<string>, objects: seq<Object>, x: string, y: string) {
    exists o, k: nat :: AsksAt(own, objects, x, o, k) &&
      forall p, q: nat :: AsksAt(own, objects, y, p, q) ==> o < p || (o == p && k < q)
  }

  /** The objects without the last symbol of the last one. */
  function Trim(objects: seq<Object>): seq<Object>
    requires objects != [] && objects[|objects| - 1].symbols != []
  {
    var n := |objects| - 1;
    objects[..n] + [objects[n].(symbols := objects[n].symbols[..|objects[n].symbols| - 1])]
  }

  lemma AskedTrim(own: set<string>, objects: seq<Object>)
    requires objects != [] && objects[|objects| - 1].symbols != []
    ensures var syms := objects[|objects| - 1].symbols;
      var last := syms[|syms| - 1];
      Asked(own, own, objects) ==
        Asked(own, own, Trim(objects)) + if AsksFor(own, own, last) then [last.name] else []
  {
    hide AsksFor;
    var n := |objects| - 1;
    var trimmed := Trim(objects);
    assert trimmed[..n] == objects[..n] && trimmed[n].symbols == objects[n].symbols[..|objects[n].symbols| - 1];
  }

  lemma AskedWhere(own: set<string>, objects: seq<Object>, name: string)
    ensures name in Asked(own, own, objects) <==> exists o, k: nat :: AsksAt(own, objects, name, o, k)
  {
    AskedExact(own, own, objects, name);
    forall o: nat, k: nat | o < |objects| && k < |objects[o].symbols|
      ensures AsksAt(own, objects, name, o, k) <==>
        AsksFor(own, own, objects[o].symbols[k]) && objects[o].symbols[k].name == name
    {
      AsksExactly(own, objects[o].symbols[k]);
    }
    hide Asked, AsksFor, StrongReference;
    if name in Asked(own, own, objects) {
      var o :| 0 <= o < |objects| && References(own, own, objects[o].symbols, name);
      var k :| 0 <= k < |objects[o].symbols| && AsksFor(own, own, objects[o].symbols[k])
        && objects[o].symbols[k].name == name;
      assert AsksAt(own, objects, name, o, k);
    }
    forall o: nat, k: nat | AsksAt(own, objects, name, o, k) ensures name in Asked(own, own, objects) {
      assert References(own, own, objects[o].symbols, name);
    }
  }

  /** A reference in the trimmed list is one in the whole, and the whole has at most the last symbol more. */
  lemma TrimAsks(own: set<string>, objects: seq<Object>, name: string, o: nat, k: nat)
    requires objects != [] && objects[|objects| - 1].symbols != []
    ensures var n := |objects| - 1;
      var m := |objects[n].symbols| - 1;
      && (AsksAt(own, Trim(objects), name, o, k) ==>
            AsksAt(own, objects, name, o, k) && (o < n || (o == n && k < m)))
      && (AsksAt(own, objects, name, o, k) ==>
            AsksAt(own, Trim(objects), name, o, k) || (o == n && k == m && objects[n].symbols[m].name == name))
  {
    var n := |objects| - 1;
    if o < n {
      assert Trim(objects)[o] == objects[o];
    }
  }

  lemma SeenAfterTrim(own: set<string>, objects: seq<Object>, x: string, y: string)
    requires objects != [] && objects[|objects| - 1].symbols != [] && SeenBefore(own, Trim(objects), x, y)
    ensures SeenBefore(own, objects, x, y)
  {
    var trimmed := Trim(objects);
    var o: nat, k: nat :| AsksAt(own, trimmed, x, o, k) &&
      forall p, q: nat :: AsksAt(own, trimmed, y, p, q) ==> o < p || (o == p && k < q);
    TrimAsks(own, objects, x, o, k);
    hide AsksAt, Trim;
    forall p: nat, q: nat | AsksAt(own, objects, y, p, q) ensures o < p || (o == p && k < q) {
      TrimAsks(own, objects, y, p, q);
    }
  }

  /** A name first asked for by the last symbol comes after everything asked for before. */
  lemma SeenLast(own: set<string>, objects: seq<Object>, x: string, y: string)
    requires objects != [] && objects[|objects| - 1].symbols != []
    requires x in Asked(own, own, Trim(objects)) && y !in Asked(own, own, Trim(objects))
    ensures SeenBefore(own, objects, x, y)
  {
    var trimmed := Trim(objects);
    AskedWhere(own, trimmed, x);
    AskedWhere(own, trimmed, y);
    hide AsksAt, Trim, Asked;
    var o: nat, k: nat :| AsksAt(own, trimmed, x, o, k);
    TrimAsks(own, objects, x, o, k);
    forall p: nat, q: nat | AsksAt(own, objects, y, p, q) ensures o < p || (o == p && k < q) {
      TrimAsks(own, objects, y, p, q);
    }
  }

  /** The demand lists names in the order of their first references. */
  lemma {:induction false} DemandInOrder(own: set<string>, objects: seq<Object>, i: nat, j: nat)
    requires i < j < |Distinct(Asked(own, own, objects))|
    ensures var d := Distinct(Asked(own, own, objects)); SeenBefore(own, objects, d[i], d[j])
    decreases |objects|, if objects == [] then 0 else |objects[|objects| - 1].symbols|
  {
    AskedNone(own);
    hide *;
    var n := |objects| - 1;
    var d := Distinct(Asked(own, own, objects));
    if objects[n].symbols == [] {
      AskedFront(own, objects);
      DemandInOrder(own, objects[..n], i, j);
      SeenInFront(own, objects, d[i], d[j]);
    } else {
      var last := objects[n].symbols[|objects[n].symbols| - 1];
      TrimShorter(objects);
      AskedTrim(own, objects);
      var before := Asked(own, own, Trim(objects));
      DistinctPush(before, last.name);
      var b := Distinct(before);
      assert before + [] == before;
      if j < |b| {
        DemandInOrder(own, Trim(objects), i, j);
        SeenAfterTrim(own, objects, b[i], b[j]);
      } else {
        assert b[i] in b;
        SeenLast(own, objects, b[i], last.name);
      }
    }
  }

  lemma AskedNone(own: set<string>)
    ensures Distinct(Asked(own, own, [])) == []
  {
  }

  lemma AskedFront(own: set<string>, objects: seq<Object>)
    requires objects != [] && objects[|objects| - 1].symbols == []
    ensures Asked(own, own, objects) == Asked(own, own, objects[..|objects| - 1])
  {
    assert AskedOf(own, own, objects[|objects| - 1].symbols) == [];
  }

  lemma TrimShorter(objects: seq<Object>)
    requires objects != [] && objects[|objects| - 1].symbols != []
    ensures |Trim(objects)| == |objects|
    ensures |Trim(objects)[|objects| - 1].symbols| < |objects[|objects| - 1].symbols|
  {
  }

  lemma SeenInFront(own: set<string>, objects: seq<Object>, x: string, y: string)
    requires objects != [] && objects[|objects| - 1].symbols == []
    requires SeenBefore(own, objects[..|objects| - 1], x, y)
    ensures SeenBefore(own, objects, x, y)
  {
    var n := |objects| - 1;
    forall name: string, o: nat, k: nat
      ensures AsksAt(own, objects, name, o, k) <==> AsksAt(own, objects[..n], name, o, k)
    {
      if o < n {
        assert objects[..n][o] == objects[o];
      }
    }
    hide AsksAt;
    var o: nat, k: nat :| AsksAt(own, objects[..n], x, o, k) &&
      forall p, q: nat :: AsksAt(own, objects[..n], y, p, q) ==> o < p || (o == p && k < q);
    assert AsksAt(own, objects, x, o, k);
  }

  /** A pass works through the unsatisfied names in that order, then the required one if it is not among them. */
  lemma PassListIs(objects: seq<Object>, name: string)
    ensures var d := Distinct(Asked(Definitions(objects), Definitions(objects), objects));
      PassList(objects, [name]) == (if name == "" || name in d then d else d + [name]) && PassList(objects, []) == d
  {
    var own := Definitions(objects);
    var asked := Asked(own, own, objects);
    hide Definitions, Asked, Distinct;
    assert [name][..0] == [] && Nonempty([]) == [] && asked + [] == asked;
    assert Nonempty([name]) == if name == "" then [] else [name];
    DistinctPush(asked, name);
  }

  // ---- lookup --------------------------------------------------------------------------------------------

  /** How well an index entry answers for a name: exactly, as its default version, as another version. */
  ghost function Fitness(full: string, name: string): Option<nat> {
    if full == name then Some(0)
    else if !IsVersion(full, name) then None
    else if IsDefaultVersion(full, name) then Some(1) else Some(2)
  }

  /** Entry `k` answers best, and first among the best. */
  ghost predicate AnswersBest(entries: seq<IndexEntry>, name: string, k: nat) {
    && k < |entries| && Fitness(entries[k].name, name).Some?
    && forall j :: 0 <= j < |entries| && Fitness(entries[j].name, name).Some? ==>
         var a, b := Fitness(entries[k].name, name).value, Fitness(entries[j].name, name).value;
         a < b || (a == b && k <= j)
  }

  lemma FitnessExactly(full: string, name: string)
    ensures Exactly(name)(full) <==> Fitness(full, name) == Some(0)
    ensures DefaultVersion(name)(full) <==> Fitness(full, name) == Some(1)
    ensures OtherVersion(name)(full) <==> Fitness(full, name) == Some(2)
    ensures Fitness(full, name).Some? ==> Fitness(full, name).value <= 2
  {
    IsVersionExactly(full, name);
    NotOwnVersion(name);
    hide Resolve.VersionOf, IsVersion, Resolve.IsDefault;
    if IsVersion(full, name) {
      DefaultExactly(full, name);
    }
  }

  lemma NotOwnVersion(name: string)
    ensures !IsVersion(name, name)
  {
    forall rest: string ensures name != name + "@" + rest {
      assert |name + "@" + rest| > |name|;
    }
  }

  /** The first entry that fits the test. */
  lemma {:induction false} FirstOffsetAt(entries: seq<IndexEntry>, p: string -> bool) returns (k: nat)
    requires FirstOffset(entries, p).Some?
    ensures FirstAt(entries, p, k) && entries[k].offset == FirstOffset(entries, p).value
  {
    var n := |entries| - 1;
    var init := entries[..n];
    if FirstOffset(init, p).Some? {
      k := FirstOffsetAt(init, p);
      FirstStays(entries, n, p, k);
    } else {
      k := n;
      assert forall j :: 0 <= j < n ==> init[j] == entries[j];
    }
  }

  ghost predicate FirstAt(entries: seq<IndexEntry>, p: string -> bool, k: nat) {
    k < |entries| && p(entries[k].name) && forall j :: 0 <= j < k ==> !p(entries[j].name)
  }

  lemma FirstStays(entries: seq<IndexEntry>, n: nat, p: string -> bool, k: nat)
    requires n <= |entries| && FirstAt(entries[..n], p, k)
    ensures FirstAt(entries, p, k) && entries[k] == entries[..n][k]
  {
    assert forall j :: 0 <= j < n ==> entries[..n][j] == entries[j];
  }

  /** The first entry of a class that fits, when no better class has one, answers best. */
  lemma FirstIsBest(entries: seq<IndexEntry>, name: string, p: string -> bool, f: nat, off: nat)
    requires forall j :: 0 <= j < |entries| ==> (p(entries[j].name) <==> Fitness(entries[j].name, name) == Some(f))
    requires forall j :: 0 <= j < |entries| && Fitness(entries[j].name, name).Some? ==>
      Fitness(entries[j].name, name).value >= f
    requires FirstOffset(entries, p) == Some(off)
    ensures exists k: nat :: AnswersBest(entries, name, k) && entries[k].offset == off
  {
    hide *;
    var k := FirstOffsetAt(entries, p);
    BestAt(entries, name, p, f, k);
  }

  lemma BestAt(entries: seq<IndexEntry>, name: string, p: string -> bool, f: nat, k: nat)
    requires forall j :: 0 <= j < |entries| ==> (p(entries[j].name) <==> Fitness(entries[j].name, name) == Some(f))
    requires forall j :: 0 <= j < |entries| && Fitness(entries[j].name, name).Some? ==>
      Fitness(entries[j].name, name).value >= f
    requires FirstAt(entries, p, k)
    ensures AnswersBest(entries, name, k)
  {
    hide Fitness;
  }

  lemma OneBest(entries: seq<IndexEntry>, name: string, j: nat, k: nat)
    requires AnswersBest(entries, name, j) && AnswersBest(entries, name, k)
    ensures j == k
  {
    hide Fitness;
  }

  /** The lookup finds the offset of the best answer, and none exactly when nothing answers. */
  lemma LookupMeans(ar: Archive, name: string)
    ensures Lookup(ar, name).Some? ==>
      ar.index.Some? && exists k: nat ::
        AnswersBest(ar.index.value, name, k) && ar.index.value[k].offset == Lookup(ar, name).value
    ensures Lookup(ar, name).None? ==>
      ar.index.None? || forall k :: 0 <= k < |ar.index.value| ==> Fitness(ar.index.value[k].name, name).None?
  {
    if ar.index.Some? {
      var entries := ar.index.value;
      forall full: string
        ensures Exactly(name)(full) <==> Fitness(full, name) == Some(0)
        ensures DefaultVersion(name)(full) <==> Fitness(full, name) == Some(1)
        ensures OtherVersion(name)(full) <==> Fitness(full, name) == Some(2)
        ensures Fitness(full, name).Some? ==> Fitness(full, name).value <= 2
      {
        FitnessExactly(full, name);
      }
      hide Fitness, Exactly, DefaultVersion, OtherVersion, AnswersBest;
      var exact, dflt := FirstOffset(entries, Exactly(name)), FirstOffset(entries, DefaultVersion(name));
      var other := FirstOffset(entries, OtherVersion(name));
      if exact.Some? {
        FirstIsBest(entries, name, Exactly(name), 0, exact.value);
      } else if dflt.Some? {
        FirstIsBest(entries, name, DefaultVersion(name), 1, dflt.value);
      } else if other.Some? {
        FirstIsBest(entries, name, OtherVersion(name), 2, other.value);
      }
    }
  }

  // ---- what is pulled ----------------------------------------------------------------------------------------

  /** A name a scan looks for: wanted by what is selected, or the entry symbol while nothing defines it. */
  ghost predicate LookedFor(objects: seq<Object>, entry: string, name: string) {
    Wanting(objects, name) || (name == entry != "" && !Provided(objects, entry))
  }

  lemma LookedForExactly(objects: seq<Object>, entry: string, name: string)
    ensures LookedFor(objects, entry, name) <==> Demanded(objects, entry, name)
  {
    WantingExactly(objects, name);
    ProvidedExactly(objects, entry);
    hide Wanting, Unsatisfied, Provided, Definitions;
  }

  /** Every pulled member is the best answer of its archive for a name looked for when its pass began. */
  lemma PulledForAReason(given: seq<Input>, entry: string, s: State, k: nat)
    requires Coherent(given, entry, s) && k < |s.origins| && s.origins[k].FromArchive?
    ensures var o := s.origins[k];
      && o.pass <= k < |s.objects| && o.at < |s.inputs| && s.inputs[o.at].Lib? && s.inputs[o.at].ar.index.Some?
      && (exists e: nat :: AnswersBest(s.inputs[o.at].ar.index.value, o.name, e)
            && s.inputs[o.at].ar.index.value[e].offset == o.offset)
      && LookedFor(s.objects[..o.pass], entry, o.name)
  {
    var o := s.origins[k];
    assert OriginHolds(given, entry, s, k);
    hide Coherent, AnswersBest, Demanded, Lookup, LookedFor;
    LookedForExactly(s.objects[..o.pass], entry, o.name);
    LookupMeans(s.inputs[o.at].ar, o.name);
  }

  /** A quiet archive has given its best answer for everything looked for. */
  lemma QuietMeans(input: Input, objects: seq<Object>, entry: string, name: string, e: nat)
    requires Quiet(input, objects, entry) && input.Lib? && input.ar.index.Some? && LookedFor(objects, entry, name)
    requires AnswersBest(input.ar.index.value, name, e)
    ensures input.ar.index.value[e].offset in input.pulled
  {
    LookedForExactly(objects, entry, name);
    LookupMeans(input.ar, name);
    assert Served(input, name);
    var entries := input.ar.index.value;
    assert Fitness(entries[e].name, name).Some?;
    hide *;
    assert Lookup(input.ar, name).Some?;
    var k: nat :| AnswersBest(entries, name, k) && entries[k].offset == Lookup(input.ar, name).value;
    OneBest(entries, name, k, e);
    ServedIs(input, name);
  }

  lemma ServedIs(input: Input, name: string)
    requires input.Lib? && Served(input, name) && Lookup(input.ar, name).Some?
    ensures Lookup(input.ar, name).value in input.pulled
  {
    hide Lookup;
  }

  ghost predicate NoStrong(obj: Object) {
    forall k :: 0 <= k < |obj.symbols| && obj.symbols[k].shndx == 0 ==> obj.symbols[k].bind != 1
  }

  /** The first `n` selected objects came from the command line. */
  ghost predicate AllFromLine(s: State, n: nat) {
    forall k :: 0 <= k < n && k < |s.origins| ==> s.origins[k].FromLine?
  }

  /** Command-line objects with weak undefined symbols only pull nothing from any archive. */
  lemma {:induction false} WeakPullsNothing(given: seq<Input>, s: State, n: nat)
    requires Coherent(given, "", s) && n <= |s.origins|
    requires forall i :: 0 <= i < |given| && given[i].Explicit? && given[i].obj.Some? ==> NoStrong(given[i].obj.value)
    ensures AllFromLine(s, n)
  {
    if n > 0 {
      WeakPullsNothing(given, s, n - 1);
      SameLengths(given, "", s);
      if s.origins[n - 1].FromArchive? {
        assert OriginHolds(given, "", s, n - 1);
        var o := s.origins[n - 1];
        var objects := s.objects[..o.pass];
        forall j | 0 <= j < |objects| ensures NoStrong(objects[j]) {
          assert OriginHolds(given, "", s, j) && s.origins[j].FromLine?;
          assert objects[j] == s.objects[j];
        }
        hide Coherent, Lookup;
        assert forall j :: 0 <= j < |objects| ==> NoStrong(objects[j]);
        WeakAsksNothing(objects, o.name);
      }
    }
  }
}
