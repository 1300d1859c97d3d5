/** Global symbol resolution: the coalescing fold of `resolve_globals` and its version aliases. */
module Resolve {
  import opened Wrappers
  import opened Elf

  /** A definition: object index and symbol index.  Link order is lexicographic. */
  datatype Def = Def(oi: nat, si: nat)

  type Globals = map<string, Def>

  predicate Before(a: Def, b: Def) {
    a.oi < b.oi || (a.oi == b.oi && a.si < b.si)
  }

  function After(d: Def): Def { Def(d.oi, d.si + 1) }

  predicate Exists(objects: seq<Object>, d: Def) {
    d.oi < |objects| && d.si < |objects[d.oi].symbols|
  }

  function SymbolAt(objects: seq<Object>, d: Def): Symbol
    requires Exists(objects, d)
  {
    objects[d.oi].symbols[d.si]
  }

  predicate Defines(sym: Symbol) {
    sym.name != "" && sym.bind != STB_LOCAL && sym.shndx != SHN_UNDEF
  }

  predicate Common(sym: Symbol) { sym.shndx == SHN_COMMON }

  predicate Strong(sym: Symbol) { !Common(sym) && sym.bind == STB_GLOBAL }

  predicate Weak(sym: Symbol) { !Common(sym) && sym.bind == STB_WEAK }

  /** Neither common nor global nor weak: a binding such as STB_GNU_UNIQUE. */
  predicate Odd(sym: Symbol) { !Common(sym) && !Strong(sym) && !Weak(sym) }

  function CommonAlign(sym: Symbol): nat { if sym.value > 1 then sym.value else 1 }

  predicate PreferCommon(new': Symbol, old': Symbol) {
    new'.size > old'.size || (new'.size == old'.size && CommonAlign(new') > CommonAlign(old'))
  }

  // ---- the fold ------------------------------------------------------------

  /** What a further definition of a name does to the one on record. */
  datatype Verdict = Keep | Replace | Duplicate

  function Judge(prev: Symbol, sym: Symbol): Verdict {
    if Common(prev) && Common(sym) then if PreferCommon(sym, prev) then Replace else Keep
    else if Common(prev) then if sym.bind == STB_GLOBAL then Replace else Keep
    else if Common(sym) then if prev.bind == STB_WEAK then Replace else Keep
    else if prev.bind == STB_WEAK && sym.bind == STB_GLOBAL then Replace
    else if prev.bind == STB_GLOBAL && sym.bind == STB_GLOBAL then Duplicate
    else Keep
  }

  /** Every recorded name points at an existing symbol of that name. */
  ghost predicate Sound(objects: seq<Object>, g: Globals) {
    forall name :: name in g ==> Exists(objects, g[name]) && SymbolAt(objects, g[name]).name == name
  }

  function Step(objects: seq<Object>, g: Globals, d: Def): (r: Result<Globals>)
    requires Sound(objects, g) && Exists(objects, d)
    ensures r.Ok? ==> Sound(objects, r.value)
  {
    var sym := SymbolAt(objects, d);
    if !Defines(sym) then Ok(g)
    else if sym.name !in g then Ok(g[sym.name := d])
    else match Judge(SymbolAt(objects, g[sym.name]), sym)
      case Keep => Ok(g)
      case Replace => Ok(g[sym.name := d])
      case Duplicate => Err
  }

  function CoalesceFrom(objects: seq<Object>, at: Def, g: Globals): Result<Globals>
    requires Sound(objects, g) && at.oi <= |objects|
    requires at.oi < |objects| ==> at.si <= |objects[at.oi].symbols|
    decreases |objects| - at.oi, if at.oi < |objects| then |objects[at.oi].symbols| - at.si else 0
  {
    if at.oi == |objects| then Ok(g)
    else if at.si == |objects[at.oi].symbols| then CoalesceFrom(objects, Def(at.oi + 1, 0), g)
    else
      var next := Step(objects, g, at);
      if next.Err? then Err else CoalesceFrom(objects, After(at), next.value)
  }

  // ---- its closed form -------------------------------------------------------

  predicate Candidate(objects: seq<Object>, upTo: Def, name: string, d: Def) {
    && Exists(objects, d) && Before(d, upTo)
    && Defines(SymbolAt(objects, d)) && SymbolAt(objects, d).name == name
  }

  /** The earliest definition of the name. */
  ghost predicate Opens(objects: seq<Object>, upTo: Def, name: string, d: Def) {
    && Candidate(objects, upTo, name, d)
    && forall e :: Candidate(objects, upTo, name, e) ==> e == d || Before(d, e)
  }

  function Rank(sym: Symbol): nat {
    if Strong(sym) then 3 else if Common(sym) then 2 else if Weak(sym) then 1 else 0
  }

  /** Strong over common over weak; among commons the larger, then the more aligned. */
  predicate Better(a: Symbol, b: Symbol) {
    Rank(a) > Rank(b) || (Common(a) && Common(b) && PreferCommon(a, b))
  }

  /** `w` is the earliest of the best definitions of the name. */
  ghost predicate Best(objects: seq<Object>, upTo: Def, name: string, w: Def) {
    && Candidate(objects, upTo, name, w) && !Odd(SymbolAt(objects, w))
    && forall d :: Candidate(objects, upTo, name, d) && !Odd(SymbolAt(objects, d)) ==>
         && !Better(SymbolAt(objects, d), SymbolAt(objects, w))
         && (Before(d, w) ==> Better(SymbolAt(objects, w), SymbolAt(objects, d)))
  }

  /** The closed form: a name opened by an odd binding keeps that definition; any other
      name ignores odd bindings and goes to its best definition. */
  ghost predicate Wins(objects: seq<Object>, upTo: Def, name: string, w: Def) {
    exists f :: Opens(objects, upTo, name, f) &&
      if Odd(SymbolAt(objects, f)) then w == f else Best(objects, upTo, name, w)
  }

  /** Two strong definitions of a name that no odd binding opened. */
  ghost predicate Clash(objects: seq<Object>, upTo: Def, name: string) {
    && (exists f :: Opens(objects, upTo, name, f) && !Odd(SymbolAt(objects, f)))
    && exists a, b :: Candidate(objects, upTo, name, a) && Candidate(objects, upTo, name, b)
         && a != b && Strong(SymbolAt(objects, a)) && Strong(SymbolAt(objects, b))
  }

  /** `g` is the closed form over the definitions before `upTo`, none of which clash. */
  ghost predicate Settled(objects: seq<Object>, upTo: Def, g: Globals) {
    && Sound(objects, g)
    && (forall name :: name in g ==> Wins(objects, upTo, name, g[name]))
    && (forall name, d :: Candidate(objects, upTo, name, d) ==> name in g)
    && (forall name :: !Clash(objects, upTo, name))
  }

  ghost function End(objects: seq<Object>): Def { Def(|objects|, 0) }

  lemma SameCandidates(objects: seq<Object>, u: Def, v: Def, name: string)
    requires forall d :: Candidate(objects, u, name, d) <==> Candidate(objects, v, name, d)
    ensures forall w :: Wins(objects, u, name, w) ==> Wins(objects, v, name, w)
    ensures Clash(objects, v, name) ==> Clash(objects, u, name)
  {
    forall f ensures Opens(objects, u, name, f) <==> Opens(objects, v, name, f) {
    }
    forall w ensures Best(objects, u, name, w) <==> Best(objects, v, name, w) {
    }
  }

  /** An odd opener is never displaced and never clashes. */
  lemma OddStays(objects: seq<Object>, at: Def, name: string, w: Def)
    requires Exists(objects, at) && Wins(objects, at, name, w) && Odd(SymbolAt(objects, w))
    requires SymbolAt(objects, at).name == name
    ensures Judge(SymbolAt(objects, w), SymbolAt(objects, at)) == Keep
    ensures Wins(objects, After(at), name, w) && !Clash(objects, After(at), name)
  {
    var next := After(at);
    var f :| Opens(objects, at, name, f) &&
      if Odd(SymbolAt(objects, f)) then w == f else Best(objects, at, name, w);
    assert Opens(objects, next, name, w);
  }

  /** One more definition of a name whose best definition so far is `w`. */
  lemma BestStep(objects: seq<Object>, at: Def, name: string, w: Def)
    requires Exists(objects, at) && Best(objects, at, name, w)
    requires Defines(SymbolAt(objects, at)) && SymbolAt(objects, at).name == name
    ensures var next := After(at);
      match Judge(SymbolAt(objects, w), SymbolAt(objects, at))
      case Keep => Best(objects, next, name, w)
      case Replace => Best(objects, next, name, at)
      case Duplicate => Strong(SymbolAt(objects, w)) && Strong(SymbolAt(objects, at))
  {
    var next := After(at);
    forall d ensures Candidate(objects, next, name, d) <==> Candidate(objects, at, name, d) || d == at {
    }
  }

  lemma EvenOpener(objects: seq<Object>, at: Def, name: string, w: Def) returns (f: Def)
    requires Wins(objects, at, name, w) && !Odd(SymbolAt(objects, w))
    ensures Opens(objects, at, name, f) && !Odd(SymbolAt(objects, f)) && Best(objects, at, name, w)
  {
    f :| Opens(objects, at, name, f) &&
      if Odd(SymbolAt(objects, f)) then w == f else Best(objects, at, name, w);
  }

  /** A clash that was not there before makes the new definition a duplicate of the best. */
  lemma ClashIsDuplicate(objects: seq<Object>, at: Def, name: string, f: Def, w: Def)
    requires Exists(objects, at) && Best(objects, at, name, w)
    requires Opens(objects, at, name, f) && !Odd(SymbolAt(objects, f))
    requires SymbolAt(objects, at).name == name && Clash(objects, After(at), name)
    ensures Clash(objects, at, name) || Judge(SymbolAt(objects, w), SymbolAt(objects, at)) == Duplicate
  {
    var a, b :| Candidate(objects, After(at), name, a) && Candidate(objects, After(at), name, b)
         && a != b && Strong(SymbolAt(objects, a)) && Strong(SymbolAt(objects, b));
    hide Clash, Opens;
    if a != at && b != at {
      ClashOf(objects, at, name, f, a, b);
    } else {
      assert Candidate(objects, at, name, if a == at then b else a);
    }
  }

  lemma EvenStep(objects: seq<Object>, at: Def, name: string, w: Def)
    requires Exists(objects, at) && Wins(objects, at, name, w) && !Odd(SymbolAt(objects, w))
    requires Defines(SymbolAt(objects, at)) && SymbolAt(objects, at).name == name && !Clash(objects, at, name)
    ensures var next := After(at);
      match Judge(SymbolAt(objects, w), SymbolAt(objects, at))
      case Keep => Wins(objects, next, name, w) && !Clash(objects, next, name)
      case Replace => Wins(objects, next, name, at) && !Clash(objects, next, name)
      case Duplicate => Clash(objects, next, name)
  {
    var next := After(at);
    var f := EvenOpener(objects, at, name, w);
    assert Opens(objects, next, name, f);
    hide Opens, Best, Judge;
    BestStep(objects, at, name, w);
    if Judge(SymbolAt(objects, w), SymbolAt(objects, at)) == Duplicate {
      hide Clash;
      ClashOf(objects, next, name, f, w, at);
    } else if Clash(objects, next, name) {
      ClashIsDuplicate(objects, at, name, f, w);
    }
  }

  lemma ClashOf(objects: seq<Object>, upTo: Def, name: string, f: Def, a: Def, b: Def)
    requires Opens(objects, upTo, name, f) && !Odd(SymbolAt(objects, f))
    requires Candidate(objects, upTo, name, a) && Candidate(objects, upTo, name, b) && a != b
    requires Strong(SymbolAt(objects, a)) && Strong(SymbolAt(objects, b))
    ensures Clash(objects, upTo, name)
  {
  }

  /** The first definition of a name. */
  lemma FirstStep(objects: seq<Object>, at: Def, name: string)
    requires Exists(objects, at) && Defines(SymbolAt(objects, at)) && SymbolAt(objects, at).name == name
    requires forall d :: !Candidate(objects, at, name, d)
    ensures Wins(objects, After(at), name, at) && !Clash(objects, After(at), name)
  {
    var next := After(at);
    forall d ensures Candidate(objects, next, name, d) <==> d == at {
      assert !Candidate(objects, at, name, d);
    }
    assert Opens(objects, next, name, at);
    assert !Odd(SymbolAt(objects, at)) ==> Best(objects, next, name, at);
  }

  /** The name this symbol defines, after one step of the fold. */
  lemma StepName(objects: seq<Object>, at: Def, g: Globals)
    requires Settled(objects, at, g) && Exists(objects, at) && Defines(SymbolAt(objects, at))
    ensures var name, next, r := SymbolAt(objects, at).name, After(at), Step(objects, g, at);
      && (r.Err? ==> Clash(objects, next, name))
      && (r.Ok? ==> name in r.value && Wins(objects, next, name, r.value[name]) && !Clash(objects, next, name))
  {
    var name := SymbolAt(objects, at).name;
    if name !in g {
      FirstStep(objects, at, name);
    } else {
      assert Wins(objects, at, name, g[name]) && !Clash(objects, at, name);
      hide Wins, Clash, Candidate, Judge;
      if Odd(SymbolAt(objects, g[name])) {
        OddStays(objects, at, name, g[name]);
      } else {
        EvenStep(objects, at, name, g[name]);
      }
    }
  }

  lemma StepOther(objects: seq<Object>, at: Def, g: Globals, name: string)
    requires Settled(objects, at, g) && Exists(objects, at)
    requires !Defines(SymbolAt(objects, at)) || SymbolAt(objects, at).name != name
    ensures !Clash(objects, After(at), name)
    ensures name in g ==> Wins(objects, After(at), name, g[name])
    ensures forall d :: Candidate(objects, After(at), name, d) ==> name in g
  {
    var next := After(at);
    forall d ensures Candidate(objects, next, name, d) <==> Candidate(objects, at, name, d) {
    }
    assert !Clash(objects, at, name);
    hide Wins, Clash;
    SameCandidates(objects, at, next, name);
  }

  lemma StepSettled(objects: seq<Object>, at: Def, g: Globals)
    requires Settled(objects, at, g) && Exists(objects, at)
    ensures var r := Step(objects, g, at);
      && (r.Err? ==> exists name :: Clash(objects, After(at), name))
      && (r.Ok? ==> Settled(objects, After(at), r.value))
  {
    assert Sound(objects, g);
    hide Settled, Clash, SettledName, Wins;
    if Defines(SymbolAt(objects, at)) {
      StepName(objects, at, g);
    }
    if Step(objects, g, at).Ok? {
      forall name ensures SettledName(objects, After(at), Step(objects, g, at).value, name) {
        StepSettlesName(objects, at, g, name);
      }
      hide Step;
      SettledByName(objects, After(at), Step(objects, g, at).value);
    }
  }

  lemma StepSettlesName(objects: seq<Object>, at: Def, g: Globals, name: string)
    requires Settled(objects, at, g) && Exists(objects, at) && Step(objects, g, at).Ok?
    ensures SettledName(objects, After(at), Step(objects, g, at).value, name)
  {
    if Defines(SymbolAt(objects, at)) && SymbolAt(objects, at).name == name {
      StepName(objects, at, g);
      hide Settled, Clash, Wins, Step;
    } else {
      StepOther(objects, at, g, name);
      hide Settled, Clash, Wins;
    }
  }

  ghost predicate SettledName(objects: seq<Object>, upTo: Def, g: Globals, name: string) {
    && (name in g ==> Wins(objects, upTo, name, g[name]))
    && ((exists d :: Candidate(objects, upTo, name, d)) ==> name in g)
    && !Clash(objects, upTo, name)
  }

  lemma SettledByName(objects: seq<Object>, upTo: Def, g: Globals)
    requires Sound(objects, g) && forall name :: SettledName(objects, upTo, g, name)
    ensures Settled(objects, upTo, g)
  {
    hide Wins, Clash;
    forall name ensures name in g ==> Wins(objects, upTo, name, g[name])
                ensures !Clash(objects, upTo, name)
                ensures forall d :: Candidate(objects, upTo, name, d) ==> name in g {
      assert SettledName(objects, upTo, g, name);
    }
  }

  /** Reaching the end of an object's symbols adds no definitions. */
  lemma NextObject(objects: seq<Object>, oi: nat, g: Globals)
    requires oi < |objects| && Settled(objects, Def(oi, |objects[oi].symbols|), g)
    ensures Settled(objects, Def(oi + 1, 0), g)
  {
    var at, next := Def(oi, |objects[oi].symbols|), Def(oi + 1, 0);
    forall name, d ensures Candidate(objects, next, name, d) <==> Candidate(objects, at, name, d) {
    }
    forall name {
      SameCandidates(objects, at, next, name);
    }
    hide Wins, Clash;
  }

  lemma OpensLater(objects: seq<Object>, u: Def, v: Def, name: string, f: Def)
    requires Opens(objects, u, name, f) && (u == v || Before(u, v))
    ensures Opens(objects, v, name, f)
  {
    forall e | Candidate(objects, v, name, e) ensures e == f || Before(f, e) {
      assert Before(e, u) ==> Candidate(objects, u, name, e);
    }
  }

  lemma ClashLater(objects: seq<Object>, u: Def, v: Def, name: string)
    requires Clash(objects, u, name) && (u == v || Before(u, v))
    ensures Clash(objects, v, name)
  {
    var f :| Opens(objects, u, name, f) && !Odd(SymbolAt(objects, f));
    OpensLater(objects, u, v, name, f);
    hide Opens;
    var a, b :| Candidate(objects, u, name, a) && Candidate(objects, u, name, b)
         && a != b && Strong(SymbolAt(objects, a)) && Strong(SymbolAt(objects, b));
    ClashOf(objects, v, name, f, a, b);
  }

  lemma SettledSound(objects: seq<Object>, at: Def, g: Globals)
    requires Settled(objects, at, g)
    ensures Sound(objects, g)
  {
  }

  lemma EndAfter(objects: seq<Object>, at: Def)
    requires at.oi <= |objects| && (at.oi == |objects| ==> at.si == 0)
    ensures at.oi == |objects| ==> at == End(objects)
    ensures After(at) == Def(at.oi, at.si + 1)
    ensures at.oi < |objects| ==> Before(After(at), End(objects))
    ensures at.oi < |objects| && at.si < |objects[at.oi].symbols| ==> Exists(objects, at)
  {
  }

  lemma CoalesceUnfold(objects: seq<Object>, at: Def, g: Globals)
    requires Sound(objects, g) && at.oi <= |objects|
    requires at.oi < |objects| ==> at.si <= |objects[at.oi].symbols|
    ensures CoalesceFrom(objects, at, g) ==
      if at.oi == |objects| then Ok(g)
      else if at.si == |objects[at.oi].symbols| then CoalesceFrom(objects, Def(at.oi + 1, 0), g)
      else if Step(objects, g, at).Err? then Err
      else CoalesceFrom(objects, After(at), Step(objects, g, at).value)
  {
    hide Step, Sound;
  }

  lemma {:induction false} CoalesceSettled(objects: seq<Object>, at: Def, g: Globals)
    requires Settled(objects, at, g) && at.oi <= |objects|
    requires at.oi < |objects| ==> at.si <= |objects[at.oi].symbols|
    requires at.oi == |objects| ==> at.si == 0
    ensures var r := CoalesceFrom(objects, at, g);
      && (r.Err? ==> exists name :: Clash(objects, End(objects), name))
      && (r.Ok? ==> Settled(objects, End(objects), r.value))
    decreases |objects| - at.oi, if at.oi < |objects| then |objects[at.oi].symbols| - at.si else 0
  {
    hide *;
    SettledSound(objects, at, g);
    CoalesceUnfold(objects, at, g);
    EndAfter(objects, at);
    if at.oi < |objects| {
      if at.si == |objects[at.oi].symbols| {
        NextObject(objects, at.oi, g);
        CoalesceSettled(objects, Def(at.oi + 1, 0), g);
      } else {
        StepSettled(objects, at, g);
        var r := Step(objects, g, at);
        if r.Err? {
          var name :| Clash(objects, After(at), name);
          ClashLater(objects, After(at), End(objects), name);
        } else {
          CoalesceSettled(objects, After(at), r.value);
        }
      }
    }
  }

  function Coalesce(objects: seq<Object>): Result<Globals> {
    CoalesceFrom(objects, Def(0, 0), map[])
  }

  /** Closed form of the fold: it fails exactly when some name clashes; otherwise it maps
      exactly the defined names, each to its winner. */
  lemma CoalesceClosedForm(objects: seq<Object>)
    ensures Coalesce(objects).Err? <==> exists name :: Clash(objects, End(objects), name)
    ensures Coalesce(objects).Ok? ==> Settled(objects, End(objects), Coalesce(objects).value)
  {
    CoalesceSettled(objects, Def(0, 0), map[]);
  }

  /** Winners are unique, so the closed form determines the map. */
  lemma WinsUnique(objects: seq<Object>, upTo: Def, name: string, v: Def, w: Def)
    requires Wins(objects, upTo, name, v) && Wins(objects, upTo, name, w)
    ensures v == w
  {
    var f :| Opens(objects, upTo, name, f) &&
      if Odd(SymbolAt(objects, f)) then v == f else Best(objects, upTo, name, v);
    var h :| Opens(objects, upTo, name, h) &&
      if Odd(SymbolAt(objects, h)) then w == h else Best(objects, upTo, name, w);
    assert f == h;
  }

  /** A definition with an odd binding hides a duplicate: two strong definitions of one
      name link without an error when such a definition comes first. */
  lemma OddHidesDuplicates()
    ensures var odd := Symbol("foo", 10, 0, 1, None, 0, 0);
      var strong := odd.(bind := STB_GLOBAL);
      Coalesce([Object("a.o", [], [odd, strong, strong])]) == Ok(map["foo" := Def(0, 0)])
  {
    var odd := Symbol("foo", 10, 0, 1, None, 0, 0);
    var strong := odd.(bind := STB_GLOBAL);
    var objects, g := [Object("a.o", [], [odd, strong, strong])], map["foo" := Def(0, 0)];
    assert CoalesceFrom(objects, Def(0, 3), g) == Ok(g);
    assert Step(objects, g, Def(0, 2)) == Ok(g) && Step(objects, g, Def(0, 1)) == Ok(g);
    assert CoalesceFrom(objects, Def(0, 1), g) == CoalesceFrom(objects, Def(0, 2), g) == Ok(g);
    assert Step(objects, map[], Def(0, 0)) == Ok(g);
  }

  // ---- version aliases ----------------------------------------------------------

  function FindAt(name: string): (k: Option<nat>)
    ensures k.Some? ==> k.value < |name| && name[k.value] == '@'
  {
    if name == "" then None
    else if name[0] == '@' then Some(0)
    else
      var k := FindAt(name[1..]);
      if k.Some? then Some(k.value + 1) else None
  }

  predicate VersionOf(full: string, base: string) {
    FindAt(full).Some? && full[..FindAt(full).value] == base
  }

  predicate IsDefault(full: string)
    requires FindAt(full).Some?
  {
    var k := FindAt(full).value;
    k + 1 < |full| && full[k + 1] == '@'
  }

  datatype Version = Version(isDefault: bool, def: Def, base: string)

  /** Default versions first, then link order. */
  predicate Prior(a: Version, b: Version) {
    (a.isDefault && !b.isDefault) ||
    (a.isDefault == b.isDefault && (Before(a.def, b.def) || a.def == b.def))
  }

  function VersionAt(g: Globals, full: string): Version
    requires full in g && FindAt(full).Some?
  {
    Version(IsDefault(full), g[full], full[..FindAt(full).value])
  }

  /** `full` is the version that answers for `base`. */
  ghost predicate Answers(g: Globals, base: string, full: string) {
    && full in g && VersionOf(full, base)
    && forall other :: other in g && VersionOf(other, base) ==> Prior(VersionAt(g, full), VersionAt(g, other))
  }

  /** Explicit definitions stay; a base defined nowhere goes to its earliest default
      version, else to its earliest version; nothing else is added. */
  ghost predicate Aliased(g: Globals, out: Globals) {
    && (forall name :: name in g ==> name in out && out[name] == g[name])
    && (forall name :: name in out && name !in g ==> exists full :: Answers(g, name, full) && out[name] == g[full])
    && (forall full, base :: full in g && VersionOf(full, base) ==> base in out)
  }

  /** The aliased map is determined by the coalesced one. */
  lemma AliasedUnique(objects: seq<Object>, g: Globals, a: Globals, b: Globals)
    requires Sound(objects, g) && Aliased(g, a) && Aliased(g, b)
    ensures a == b
  {
    forall name | name in a ensures name in b && a[name] == b[name] {
      AliasedAgree(g, a, b, name);
    }
    forall name | name in b ensures name in a {
      AliasedAgree(g, b, a, name);
    }
  }

  lemma AliasedAgree(g: Globals, a: Globals, b: Globals, name: string)
    requires Aliased(g, a) && Aliased(g, b) && name in a
    ensures name in b && a[name] == b[name]
  {
    if name !in g {
      var full :| Answers(g, name, full) && a[name] == g[full];
      assert name in b;
      var other :| Answers(g, name, other) && b[name] == g[other];
    }
  }

  ghost predicate Sorted(vs: seq<Version>) {
    forall i, j :: 0 <= i < j < |vs| ==> Prior(vs[i], vs[j])
  }

  function Insert(v: Version, vs: seq<Version>): (out: seq<Version>)
    requires Sorted(vs)
    ensures Sorted(out) && forall x :: x in out <==> x == v || x in vs
  {
    if vs == [] || Prior(v, vs[0]) then [v] + vs
    else
      var rest := Insert(v, vs[1..]);
      assert forall x :: x in vs <==> x == vs[0] || x in vs[1..];
      assert forall x :: x in vs[1..] ==> Prior(vs[0], x);
      assert forall j :: 0 <= j < |rest| ==> rest[j] in rest && Prior(vs[0], rest[j]);
      [vs[0]] + rest
  }

  /** The versioned definitions of the map, met in any order, sorted. */
  method CollectVersions(g: Globals) returns (vs: seq<Version>)
    ensures Sorted(vs)
    ensures forall v :: v in vs <==> exists full :: full in g && FindAt(full).Some? && v == VersionAt(g, full)
  {
    vs := [];
    var todo := g.Keys;
    while todo != {}
      invariant todo <= g.Keys && Sorted(vs)
      invariant forall v :: v in vs <==>
        exists full :: full in g && full !in todo && FindAt(full).Some? && v == VersionAt(g, full)
    {
      var full :| full in todo;
      if FindAt(full).Some? {
        vs := Insert(VersionAt(g, full), vs);
      }
      todo := todo - {full};
    }
  }

  method AliasVersions(g: Globals) returns (out: Globals)
    ensures Aliased(g, out)
  {
    var vs := CollectVersions(g);
    out := g;
    for i := 0 to |vs|
      invariant forall name :: name in g ==> name in out && out[name] == g[name]
      invariant forall j :: 0 <= j < i ==> vs[j].base in out
      invariant forall name :: name in out && name !in g ==> FirstOf(vs, i, name, out[name])
    {
      if vs[i].base !in out {
        out := out[vs[i].base := vs[i].def];
        assert FirstOf(vs, i + 1, vs[i].base, vs[i].def);
      }
    }
    forall full, base | full in g && VersionOf(full, base) ensures base in out {
      assert VersionAt(g, full) in vs;
    }
    forall name | name in out && name !in g
      ensures exists full :: Answers(g, name, full) && out[name] == g[full]
    {
      FirstAnswers(g, vs, name, out[name]);
    }
  }

  ghost predicate FirstOf(vs: seq<Version>, n: nat, base: string, def: Def) {
    exists j :: 0 <= j < n <= |vs| && vs[j].base == base && vs[j].def == def
      && forall k :: 0 <= k < j ==> vs[k].base != base
  }

  lemma FirstAnswers(g: Globals, vs: seq<Version>, base: string, def: Def)
    requires Sorted(vs) && FirstOf(vs, |vs|, base, def)
    requires forall v :: v in vs <==> exists full :: full in g && FindAt(full).Some? && v == VersionAt(g, full)
    ensures exists full :: Answers(g, base, full) && def == g[full]
  {
    var j :| 0 <= j < |vs| && vs[j].base == base && vs[j].def == def
      && forall k :: 0 <= k < j ==> vs[k].base != base;
    assert vs[j] in vs;
    var full :| full in g && FindAt(full).Some? && vs[j] == VersionAt(g, full);
    forall other | other in g && VersionOf(other, base) ensures Prior(VersionAt(g, full), VersionAt(g, other)) {
      assert VersionAt(g, other) in vs;
      var k :| 0 <= k < |vs| && vs[k] == VersionAt(g, other);
    }
    assert Answers(g, base, full);
  }

  // ---- the pass --------------------------------------------------------------------

  /** `resolve_globals` computes `out` for these objects. */
  ghost predicate Resolves(objects: seq<Object>, out: Globals) {
    Coalesce(objects).Ok? && Aliased(Coalesce(objects).value, out)
  }

  /** `resolve_globals`. */
  method ResolveGlobals(objects: seq<Object>) returns (r: Result<Globals>)
    ensures r.Err? <==> exists name :: Clash(objects, End(objects), name)
    ensures r.Ok? ==> Resolves(objects, r.value)
  {
    CoalesceClosedForm(objects);
    hide Clash, Aliased, Step;
    var g: Globals := map[];
    for oi := 0 to |objects|
      invariant Sound(objects, g) && CoalesceFrom(objects, Def(oi, 0), g) == Coalesce(objects)
    {
      for si := 0 to |objects[oi].symbols|
        invariant Sound(objects, g) && CoalesceFrom(objects, Def(oi, si), g) == Coalesce(objects)
      {
        var next := Step(objects, g, Def(oi, si));
        if next.Err? {
          return Err;
        }
        g := next.value;
      }
    }
    var out := AliasVersions(g);
    r := Ok(out);
  }

  /** Every definition in the resolved map exists. */
  lemma ResolvedExists(objects: seq<Object>, out: Globals, name: string)
    requires Resolves(objects, out) && name in out
    ensures Exists(objects, out[name])
  {
    CoalesceClosedForm(objects);
    var g := Coalesce(objects).value;
    if name !in g {
      var full :| Answers(g, name, full) && out[name] == g[full];
    }
  }

  // ---- what resolution looks at --------------------------------------------------------

  /** The symbols agree wherever they define something. */
  ghost predicate SameDefinitions(a: Symbol, b: Symbol) {
    && Defines(a) == Defines(b)
    && (Defines(a) ==> a.name == b.name && a.bind == b.bind && a.shndx == b.shndx)
    && (Defines(a) ==> a.value == b.value && a.size == b.size)
  }

  ghost predicate SameObjects(a: seq<Object>, b: seq<Object>) {
    && |a| == |b|
    && (forall oi :: 0 <= oi < |a| ==> |a[oi].symbols| == |b[oi].symbols|)
    && forall d :: Exists(a, d) ==> Exists(b, d) && SameDefinitions(SymbolAt(a, d), SymbolAt(b, d))
  }

  ghost predicate Grounded(objects: seq<Object>, g: Globals) {
    Sound(objects, g) && forall name :: name in g ==> Defines(SymbolAt(objects, g[name]))
  }

  lemma StepSame(a: seq<Object>, b: seq<Object>, g: Globals, at: Def)
    requires SameObjects(a, b) && Grounded(a, g) && Grounded(b, g) && Exists(a, at)
    ensures Step(a, g, at) == Step(b, g, at)
    ensures Step(a, g, at).Ok? ==> Grounded(a, Step(a, g, at).value) && Grounded(b, Step(a, g, at).value)
  {
    assert SameDefinitions(SymbolAt(a, at), SymbolAt(b, at));
    var sym := SymbolAt(a, at);
    if Defines(sym) && sym.name in g {
      assert SameDefinitions(SymbolAt(a, g[sym.name]), SymbolAt(b, g[sym.name]));
    }
  }

  lemma {:induction false} CoalesceSame(a: seq<Object>, b: seq<Object>, at: Def, g: Globals)
    requires SameObjects(a, b) && Grounded(a, g) && Grounded(b, g) && at.oi <= |a|
    requires at.oi < |a| ==> at.si <= |a[at.oi].symbols|
    ensures CoalesceFrom(a, at, g) == CoalesceFrom(b, at, g)
    decreases |a| - at.oi, if at.oi < |a| then |a[at.oi].symbols| - at.si else 0
  {
    if at.oi < |a| {
      hide Grounded, Step;
      if at.si == |a[at.oi].symbols| {
        CoalesceSame(a, b, Def(at.oi + 1, 0), g);
      } else {
        StepSame(a, b, g, at);
        if Step(a, g, at).Ok? {
          CoalesceSame(a, b, After(at), Step(a, g, at).value);
        }
      }
    }
  }

  /** Resolution depends on defining symbols only. */
  lemma ResolveSame(a: seq<Object>, b: seq<Object>, out: Globals)
    requires SameObjects(a, b)
    ensures Resolves(a, out) <==> Resolves(b, out)
  {
    CoalesceSame(a, b, Def(0, 0), map[]);
  }
}
