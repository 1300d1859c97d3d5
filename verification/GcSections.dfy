/** ELF section garbage collection: `analyze_gc_sections`. */
module GcSections {
  import opened Wrappers
  import opened Elf
  import opened Resolve
  import EhFrame

  const SHT_X86_64_UNWIND: nat := 0x7000_0001

  datatype Sec = Sec(oi: nat, si: nat)
  datatype Rec = Rec(sec: Sec, index: nat)

  /** What the analysis reads: the objects, their resolved globals, the parsed unwind
      sections and the names that are roots. */
  datatype Link = Link(objects: seq<Object>, globals: Globals, frames: map<Sec, seq<EhFrame.Record>>,
                       roots: seq<string>)

  /** What the analysis computes. */
  datatype Marks = Marks(live: set<Sec>, keep: set<Rec>, forced: set<Sec>, referenced: set<Def>,
                         undefined: set<string>)

  ghost predicate Leq(a: Marks, b: Marks) {
    a.live <= b.live && a.keep <= b.keep && a.forced <= b.forced && a.referenced <= b.referenced
    && a.undefined <= b.undefined
  }

  predicate IsEhFrame(section: Section) {
    section.name == ".eh_frame" || section.shType == SHT_X86_64_UNWIND
  }

  predicate StartsWith(name: string, prefix: string) {
    prefix <= name
  }

  /** `gc_root_section`. */
  predicate IsRoot(section: Section) {
    || section.retain
    || section.shType in {14, 15, 16}
    || section.name in {".init", ".fini", ".ctors", ".dtors"}
    || StartsWith(section.name, ".ctors.") || StartsWith(section.name, ".dtors.")
  }

  predicate IsSection(objects: seq<Object>, s: Sec) {
    s.oi < |objects| && s.si < |objects[s.oi].sections|
  }

  function SectionAt(objects: seq<Object>, s: Sec): Section
    requires IsSection(objects, s)
  {
    objects[s.oi].sections[s.si]
  }

  predicate Eh(l: Link, s: Sec) {
    IsSection(l.objects, s) && IsEhFrame(SectionAt(l.objects, s))
  }

  // ---- validation ------------------------------------------------------------

  predicate RelaInRange(obj: Object, section: Section, rela: Rela) {
    var width := RelocationWidth(rela.rType);
    && rela.sym < |obj.symbols|
    && rela.offset + (if width.Some? then width.value else 1) <= |section.data|
  }

  predicate ObjectInRange(obj: Object) {
    && (forall sym :: sym in obj.symbols && sym.section.Some? ==> sym.section.value < |obj.sections|)
    && (forall section, rela :: section in obj.sections && rela in section.relas ==>
          RelaInRange(obj, section, rela))
  }

  /** `validate_object_relocations` accepts. */
  predicate Validated(objects: seq<Object>) {
    forall obj :: obj in objects ==> ObjectInRange(obj)
  }

  ghost predicate ValidLink(l: Link) {
    && Validated(l.objects) && Resolves(l.objects, l.globals)
    && (forall s :: s in l.frames <==> Eh(l, s))
    && (forall s :: s in l.frames ==> EhFrame.Parse(SectionAt(l.objects, s)) == Ok(l.frames[s]))
  }

  predicate IsRecord(l: Link, r: Rec) {
    r.sec in l.frames && r.index < |l.frames[r.sec]|
  }

  // ---- where a relocation leads -------------------------------------------------

  /** The definition a symbol stands for, if any. */
  function Definition(objects: seq<Object>, globals: Globals, d: Def): Option<Def>
    requires Exists(objects, d)
  {
    var sym := SymbolAt(objects, d);
    if sym.shndx == SHN_UNDEF then
      if sym.name in globals then Some(globals[sym.name]) else None
    else if sym.shndx == SHN_COMMON && sym.bind != STB_LOCAL && sym.name in globals then Some(globals[sym.name])
    else Some(d)
  }

  /** `gc_symbol_section`. */
  function SymbolSection(l: Link, d: Def): (t: Option<Sec>)
    requires ValidLink(l) && Exists(l.objects, d)
    ensures t.Some? ==> IsSection(l.objects, t.value)
  {
    var def := Definition(l.objects, l.globals, d);
    if def.None? then None else
    DefinitionExists(l, d);
    var section := SymbolAt(l.objects, def.value).section;
    if section.None? then None
    else
      assert l.objects[def.value.oi] in l.objects;
      assert SymbolAt(l.objects, def.value) in l.objects[def.value.oi].symbols;
      Some(Sec(def.value.oi, section.value))
  }

  lemma DefinitionExists(l: Link, d: Def)
    requires ValidLink(l) && Exists(l.objects, d)
    ensures var def := Definition(l.objects, l.globals, d); def.Some? ==> Exists(l.objects, def.value)
  {
    var sym := SymbolAt(l.objects, d);
    if sym.name in l.globals {
      ResolvedExists(l.objects, l.globals, sym.name);
    }
  }

  /** The name a followed relocation leaves undefined. */
  function UndefinedName(l: Link, d: Def): Option<string>
    requires Exists(l.objects, d)
  {
    var sym := SymbolAt(l.objects, d);
    if sym.shndx == SHN_UNDEF && sym.bind == STB_GLOBAL && sym.name != "" && sym.name != "__tls_get_addr"
       && sym.name !in LINKER_SYMS && sym.name !in l.globals
    then Some(sym.name) else None
  }

  /** Relocations at an FDE's initial location. */
  function At(relas: seq<Rela>, offset: nat): seq<Rela> {
    if relas == [] then []
    else (if relas[0].offset == offset then [relas[0]] else []) + At(relas[1..], offset)
  }

  lemma {:induction false} AtIn(relas: seq<Rela>, offset: nat, r: Rela)
    requires r in At(relas, offset)
    ensures r in relas && r.offset == offset
  {
    if r in At(relas[1..], offset) {
      AtIn(relas[1..], offset, r);
    }
  }

  predicate IsFde(l: Link, r: Rec)
    requires IsRecord(l, r)
  {
    l.frames[r.sec][r.index].cie.Some? && l.frames[r.sec][r.index].initialLocation.Some?
  }

  lemma RelaExists(l: Link, s: Sec, rela: Rela)
    requires ValidLink(l) && IsSection(l.objects, s) && rela in SectionAt(l.objects, s).relas
    ensures Exists(l.objects, Def(s.oi, rela.sym))
  {
    assert l.objects[s.oi] in l.objects && SectionAt(l.objects, s) in l.objects[s.oi].sections;
    assert RelaInRange(l.objects[s.oi], SectionAt(l.objects, s), rela);
  }

  /** The code an FDE describes; `None` when its initial-location relocation is missing,
      duplicated, of another type, or aimed at no executable section. */
  function FdeTarget(l: Link, r: Rec): (t: Option<Sec>)
    requires ValidLink(l) && IsRecord(l, r) && IsFde(l, r)
    ensures t.Some? ==> IsSection(l.objects, t.value)
  {
    var section := SectionAt(l.objects, r.sec);
    var here := At(section.relas, l.frames[r.sec][r.index].initialLocation.value);
    if |here| != 1 || here[0].rType != R_X86_64_PC32 then None else
    AtIn(section.relas, l.frames[r.sec][r.index].initialLocation.value, here[0]);
    RelaExists(l, r.sec, here[0]);
    var target := SymbolSection(l, Def(r.sec.oi, here[0].sym));
    if target.Some? && SectionAt(l.objects, target.value).exec then target else None
  }

  ghost predicate FdesOk(l: Link)
    requires ValidLink(l)
  {
    forall r :: IsRecord(l, r) && IsFde(l, r) ==> FdeTarget(l, r).Some?
  }

  // ---- the rules -------------------------------------------------------------------

  ghost predicate Marked(l: Link, m: Marks, t: Sec) {
    t in m.live && (Eh(l, t) ==> t in m.forced)
  }

  /** The relocation's symbol, undefined name and target section are all marked. */
  ghost predicate Followed(l: Link, m: Marks, d: Def)
    requires ValidLink(l) && Exists(l.objects, d)
  {
    && d in m.referenced
    && (UndefinedName(l, d).Some? ==> UndefinedName(l, d).value in m.undefined)
    && (SymbolSection(l, d).Some? ==> Marked(l, m, SymbolSection(l, d).value))
  }

  ghost predicate FollowedIn(l: Link, m: Marks, s: Sec, rela: Rela)
    requires ValidLink(l)
  {
    Exists(l.objects, Def(s.oi, rela.sym)) && Followed(l, m, Def(s.oi, rela.sym))
  }

  /** All relocations of an ordinary section are followed. */
  ghost predicate SectionDone(l: Link, m: Marks, s: Sec)
    requires ValidLink(l) && IsSection(l.objects, s)
  {
    forall rela :: rela in SectionAt(l.objects, s).relas ==> FollowedIn(l, m, s, rela)
  }

  predicate InRecord(l: Link, r: Rec, rela: Rela)
    requires IsRecord(l, r)
  {
    l.frames[r.sec][r.index].start <= rela.offset < l.frames[r.sec][r.index].end
  }

  ghost predicate RecordDone(l: Link, m: Marks, r: Rec)
    requires ValidLink(l) && IsRecord(l, r)
  {
    forall rela :: rela in SectionAt(l.objects, r.sec).relas && InRecord(l, r, rela) ==> FollowedIn(l, m, r.sec, rela)
  }

  ghost predicate RootRule(l: Link, m: Marks) {
    forall s :: IsSection(l.objects, s) && IsRoot(SectionAt(l.objects, s)) ==> Marked(l, m, s)
  }

  /** A root name's section, if the name is defined in one. */
  function NamedRoot(l: Link, name: string): Option<Sec>
    requires ValidLink(l)
  {
    if name !in l.globals then None else
    ResolvedExists(l.objects, l.globals, name);
    SymbolSection(l, l.globals[name])
  }

  ghost predicate NamedRule(l: Link, m: Marks)
    requires ValidLink(l)
  {
    forall name :: name in l.roots && NamedRoot(l, name).Some? ==> Marked(l, m, NamedRoot(l, name).value)
  }

  ghost predicate SectionRule(l: Link, m: Marks, except: set<Sec>)
    requires ValidLink(l)
  {
    forall s :: IsSection(l.objects, s) && s in m.live && !Eh(l, s) && s !in except ==> SectionDone(l, m, s)
  }

  /** An FDE is wanted when its section is forced or its code is live, a CIE when forced. */
  ghost predicate Wanted(l: Link, m: Marks, r: Rec)
    requires ValidLink(l) && IsRecord(l, r)
  {
    r.sec in m.forced ||
    (IsFde(l, r) && FdeTarget(l, r).Some? && FdeTarget(l, r).value in m.live)
  }

  ghost predicate FdeRule(l: Link, m: Marks)
    requires ValidLink(l)
  {
    forall r :: IsRecord(l, r) && Wanted(l, m, r) ==> r in m.keep
  }

  /** A kept record keeps its section, and an FDE its CIE. */
  ghost predicate Supported(l: Link, m: Marks, r: Rec)
    requires IsRecord(l, r)
  {
    && r.sec in m.live
    && (l.frames[r.sec][r.index].cie.Some? ==> Rec(r.sec, l.frames[r.sec][r.index].cie.value) in m.keep)
  }

  ghost predicate KeepRule(l: Link, m: Marks)
    requires ValidLink(l)
  {
    forall r :: IsRecord(l, r) && r in m.keep ==> Supported(l, m, r)
  }

  ghost predicate RecordRule(l: Link, m: Marks, except: set<Rec>)
    requires ValidLink(l)
  {
    forall r :: IsRecord(l, r) && r in m.keep && r !in except ==> RecordDone(l, m, r)
  }

  /** Closed under every rule. */
  ghost predicate Closed(l: Link, m: Marks)
    requires ValidLink(l)
  {
    && RootRule(l, m) && NamedRule(l, m) && SectionRule(l, m, {})
    && FdeRule(l, m) && KeepRule(l, m) && RecordRule(l, m, {})
  }

  /** Contained in every closed marking. */
  ghost predicate Needed(l: Link, m: Marks)
    requires ValidLink(l)
  {
    forall t :: Closed(l, t) ==> Leq(m, t)
  }

  /** The analysis' answer: the least closed marking. */
  ghost predicate Least(l: Link, m: Marks)
    requires ValidLink(l)
  {
    Closed(l, m) && Needed(l, m)
  }

  // ---- one marking step at a time ---------------------------------------------------

  function Mark(l: Link, m: Marks, t: Sec): Marks {
    m.(live := m.live + {t}, forced := if Eh(l, t) then m.forced + {t} else m.forced)
  }

  function Follow(l: Link, m: Marks, d: Def): Marks
    requires ValidLink(l) && Exists(l.objects, d)
  {
    var name, target := UndefinedName(l, d), SymbolSection(l, d);
    var m1 := m.(referenced := m.referenced + {d},
                 undefined := if name.Some? then m.undefined + {name.value} else m.undefined);
    if target.Some? then Mark(l, m1, target.value) else m1
  }

  function Retain(l: Link, m: Marks, r: Rec): Marks
    requires IsRecord(l, r)
  {
    var cie := l.frames[r.sec][r.index].cie;
    m.(live := m.live + {r.sec}, keep := m.keep + {r} + if cie.Some? then {Rec(r.sec, cie.value)} else {})
  }

  ghost predicate InBounds(l: Link, m: Marks) {
    && (forall s :: s in m.live ==> IsSection(l.objects, s))
    && (forall r :: r in m.keep ==> IsRecord(l, r))
  }

  /** What holds between steps, with `pending` sections and `todo` records not yet followed. */
  ghost predicate Progress(l: Link, m: Marks, pending: set<Sec>, todo: set<Rec>)
    requires ValidLink(l)
  {
    && InBounds(l, m) && pending <= m.live
    && SectionRule(l, m, pending) && KeepRule(l, m) && RecordRule(l, m, todo) && Needed(l, m)
  }

  lemma FollowedMono(l: Link, m: Marks, n: Marks, s: Sec, rela: Rela)
    requires ValidLink(l) && Leq(m, n) && FollowedIn(l, m, s, rela)
    ensures FollowedIn(l, n, s, rela)
  {
    hide ValidLink, UndefinedName, SymbolSection;
  }

  lemma RulesMono(l: Link, m: Marks, n: Marks)
    requires ValidLink(l) && Leq(m, n)
    ensures RootRule(l, m) ==> RootRule(l, n)
    ensures NamedRule(l, m) ==> NamedRule(l, n)
    ensures forall s :: IsSection(l.objects, s) && SectionDone(l, m, s) ==> SectionDone(l, n, s)
    ensures forall r :: IsRecord(l, r) && RecordDone(l, m, r) ==> RecordDone(l, n, r)
  {
    hide ValidLink, SymbolSection, UndefinedName, NamedRoot, FollowedIn, IsRoot, Eh;
    forall s, rela | FollowedIn(l, m, s, rela) ensures FollowedIn(l, n, s, rela) {
      FollowedMono(l, m, n, s, rela);
    }
  }

  /** Every closed marking above `m` has followed this symbol. */
  ghost predicate Forced(l: Link, m: Marks, d: Def)
    requires ValidLink(l) && Exists(l.objects, d)
  {
    forall t :: Closed(l, t) && Leq(m, t) ==> Followed(l, t, d)
  }

  lemma SectionForces(l: Link, m: Marks, s: Sec, rela: Rela)
    requires ValidLink(l) && IsSection(l.objects, s) && s in m.live && !Eh(l, s)
    requires rela in SectionAt(l.objects, s).relas
    ensures Exists(l.objects, Def(s.oi, rela.sym)) && Forced(l, m, Def(s.oi, rela.sym))
  {
    RelaExists(l, s, rela);
    hide ValidLink, SymbolSection, UndefinedName, Followed, RootRule, NamedRule, FdeRule, KeepRule, RecordRule, Eh;
    forall t | Closed(l, t) && Leq(m, t) ensures Followed(l, t, Def(s.oi, rela.sym)) {
      assert SectionDone(l, t, s);
      assert FollowedIn(l, t, s, rela);
    }
  }

  lemma RecordForces(l: Link, m: Marks, r: Rec, rela: Rela)
    requires ValidLink(l) && IsRecord(l, r) && r in m.keep
    requires rela in SectionAt(l.objects, r.sec).relas && InRecord(l, r, rela)
    ensures Exists(l.objects, Def(r.sec.oi, rela.sym)) && Forced(l, m, Def(r.sec.oi, rela.sym))
  {
    RelaExists(l, r.sec, rela);
    assert IsSection(l.objects, r.sec);
    hide ValidLink, SymbolSection, UndefinedName, Followed, RootRule, NamedRule, FdeRule, KeepRule, SectionRule, Eh;
    forall t | Closed(l, t) && Leq(m, t) ensures Followed(l, t, Def(r.sec.oi, rela.sym)) {
      assert RecordDone(l, t, r);
      assert FollowedIn(l, t, r.sec, rela);
    }
  }

  lemma FollowShape(l: Link, m: Marks, d: Def)
    requires ValidLink(l) && Exists(l.objects, d)
    ensures Leq(m, Follow(l, m, d)) && Followed(l, Follow(l, m, d), d)
    ensures Follow(l, m, d).keep == m.keep
    ensures InBounds(l, m) ==> InBounds(l, Follow(l, m, d))
    ensures forall s :: s in Follow(l, m, d).live && s !in m.live ==> SymbolSection(l, d) == Some(s)
  {
    hide ValidLink;
  }

  lemma FollowNeeded(l: Link, m: Marks, d: Def)
    requires ValidLink(l) && Exists(l.objects, d) && Needed(l, m) && Forced(l, m, d)
    ensures Needed(l, Follow(l, m, d))
  {
    hide ValidLink, Closed, SymbolSection, UndefinedName;
    forall t | Closed(l, t) ensures Leq(Follow(l, m, d), t) {
      assert Leq(m, t);
      assert Followed(l, t, d);
    }
  }

  /** Marks may grow; whatever they newly make live must be pending. */
  lemma Grow(l: Link, m: Marks, n: Marks, pending: set<Sec>, more: set<Sec>, todo: set<Rec>)
    requires ValidLink(l) && Progress(l, m, pending, todo) && Leq(m, n) && n.keep == m.keep
    requires InBounds(l, n) && Needed(l, n) && pending <= more <= n.live
    requires forall s :: s in n.live && s !in m.live ==> s in more
    ensures Progress(l, n, more, todo)
  {
    hide ValidLink, Needed;
    RulesMono(l, m, n);
    hide SectionDone, RecordDone, Eh;
    forall r | IsRecord(l, r) && r in n.keep ensures Supported(l, n, r) {
      assert Supported(l, m, r);
    }
  }

  /** Following a forced symbol keeps the invariant; a newly live target becomes pending. */
  lemma FollowProgress(l: Link, m: Marks, d: Def, pending: set<Sec>, more: set<Sec>, todo: set<Rec>)
    requires ValidLink(l) && Exists(l.objects, d) && Progress(l, m, pending, todo) && Forced(l, m, d)
    requires pending <= more <= Follow(l, m, d).live
    requires SymbolSection(l, d).Some? && SymbolSection(l, d).value !in m.live ==> SymbolSection(l, d).value in more
    ensures Progress(l, Follow(l, m, d), more, todo)
    ensures Leq(m, Follow(l, m, d)) && Followed(l, Follow(l, m, d), d)
  {
    FollowShape(l, m, d);
    assert InBounds(l, m) && Needed(l, m);
    hide ValidLink, Progress, Follow, SymbolSection, Forced, Needed, Followed;
    FollowNeeded(l, m, d);
    Grow(l, m, Follow(l, m, d), pending, more, todo);
  }

  lemma MarkProgress(l: Link, m: Marks, t: Sec, pending: set<Sec>, more: set<Sec>, todo: set<Rec>)
    requires ValidLink(l) && IsSection(l.objects, t) && Progress(l, m, pending, todo)
    requires forall c :: Closed(l, c) ==> Marked(l, c, t)
    requires pending <= more <= m.live + {t} && (t !in m.live ==> t in more)
    ensures Progress(l, Mark(l, m, t), more, todo)
    ensures Leq(m, Mark(l, m, t)) && Marked(l, Mark(l, m, t), t)
  {
    var n := Mark(l, m, t);
    hide ValidLink, Closed;
    assert Needed(l, n) by {
      forall c | Closed(l, c) ensures Leq(n, c) {
        assert Leq(m, c) && Marked(l, c, t);
      }
    }
    hide Needed;
    Grow(l, m, n, pending, more, todo);
  }

  lemma WantedMono(l: Link, m: Marks, n: Marks, r: Rec)
    requires ValidLink(l) && IsRecord(l, r) && Leq(m, n) && Wanted(l, m, r)
    ensures Wanted(l, n, r)
  {
    hide ValidLink, FdeTarget;
  }

  lemma KeepNeeded(l: Link, m: Marks, r: Rec)
    requires ValidLink(l) && IsRecord(l, r) && Needed(l, m) && Wanted(l, m, r)
    ensures Needed(l, Retain(l, m, r))
  {
    hide ValidLink, FdeTarget, Wanted, RootRule, NamedRule, SectionRule, RecordRule;
    forall t | Closed(l, t) ensures Leq(Retain(l, m, r), t) {
      assert Leq(m, t);
      WantedMono(l, m, t, r);
      assert Supported(l, t, r);
    }
  }

  lemma CieRecord(l: Link, r: Rec)
    requires ValidLink(l) && IsRecord(l, r)
    ensures var cie := l.frames[r.sec][r.index].cie;
      cie.Some? ==> cie.value < r.index && l.frames[r.sec][cie.value].cie.None? && IsFde(l, r)
  {
    if l.frames[r.sec][r.index].cie.Some? {
      EhFrame.CieIsEarlier(SectionAt(l.objects, r.sec), l.frames[r.sec], r.index);
    }
  }

  lemma KeepSupports(l: Link, m: Marks, r: Rec)
    requires ValidLink(l) && IsRecord(l, r) && InBounds(l, m) && KeepRule(l, m)
    ensures KeepRule(l, Retain(l, m, r)) && InBounds(l, Retain(l, m, r))
  {
    var n := Retain(l, m, r);
    assert IsSection(l.objects, r.sec);
    CieRecord(l, r);
    hide ValidLink, IsSection;
    forall q | IsRecord(l, q) && q in n.keep ensures Supported(l, n, q) {
      if q in m.keep {
        assert Supported(l, m, q);
      }
    }
  }

  lemma KeepFollows(l: Link, m: Marks, n: Marks, r: Rec, pending: set<Sec>, todo: set<Rec>, more: set<Rec>)
    requires ValidLink(l) && IsRecord(l, r) && n == Retain(l, m, r)
    requires SectionRule(l, m, pending) && RecordRule(l, m, todo) && todo <= more
    requires forall q :: q in n.keep && q !in m.keep ==> q in more
    ensures SectionRule(l, n, pending) && RecordRule(l, n, more)
  {
    assert Eh(l, r.sec);
    RulesMono(l, m, n);
    hide ValidLink, SectionDone, RecordDone, Eh;
  }

  /** Keeping a wanted record; it and its CIE are still to be followed. */
  lemma KeepProgress(l: Link, m: Marks, r: Rec, pending: set<Sec>, todo: set<Rec>, more: set<Rec>)
    requires ValidLink(l) && IsRecord(l, r) && Progress(l, m, pending, todo) && Wanted(l, m, r)
    requires todo <= more
    requires forall q :: q in Retain(l, m, r).keep && q !in m.keep ==> q in more
    ensures Progress(l, Retain(l, m, r), pending, more) && Leq(m, Retain(l, m, r))
  {
    hide ValidLink, Wanted, Needed, SectionRule, RecordRule, KeepRule, InBounds;
    KeepNeeded(l, m, r);
    KeepSupports(l, m, r);
    KeepFollows(l, m, Retain(l, m, r), r, pending, todo, more);
  }

  // ---- the analysis -------------------------------------------------------------------

  ghost function Elems(recs: seq<Rec>): set<Rec> { set x | x in recs }

  function AllSections(objects: seq<Object>): (all: set<Sec>)
    ensures forall s :: s in all <==> IsSection(objects, s)
  {
    set oi, si | 0 <= oi < |objects| && 0 <= si < |objects[oi].sections| :: Sec(oi, si)
  }

  ghost function AllRecords(l: Link): (all: set<Rec>)
    ensures forall r :: r in all <==> IsRecord(l, r)
  {
    set s, i | s in l.frames && 0 <= i < |l.frames[s]| :: Rec(s, i)
  }

  lemma Shrinks<T>(all: set<T>, old': set<T>, new': set<T>, x: T)
    requires old' <= new' && x in all && x !in old' && x in new'
    ensures |all - new'| < |all - old'|
  {
    assert all - old' == (all - new') + (all * (new' - old'));
    assert x in all * (new' - old');
  }

  class Analysis {
    var live: set<Sec>
    var keep: set<Rec>
    var forced: set<Sec>
    var referenced: set<Def>
    var undefined: set<string>
    var pending: seq<Sec>

    constructor ()
      ensures Now() == Marks({}, {}, {}, {}, {}) && pending == []
    {
      live, keep, forced, referenced, undefined, pending := {}, {}, {}, {}, {}, [];
    }

    ghost function Now(): Marks
      reads this
    {
      Marks(live, keep, forced, referenced, undefined)
    }

    ghost function Pending(): set<Sec>
      reads this
    {
      set s | s in pending
    }

    /** `mark_gc_section`, preceded by forcing an unwind section. */
    method MarkSection(l: Link, t: Sec)
      modifies this
      ensures Now() == Mark(l, old(Now()), t)
      ensures pending == if t in old(live) then old(pending) else old(pending) + [t]
    {
      if Eh(l, t) {
        forced := forced + {t};
      }
      if t !in live {
        live := live + {t};
        pending := pending + [t];
      }
      assert live == old(live) + {t};
    }

    /** `follow_gc_relocation`. */
    method FollowSymbol(l: Link, d: Def)
      requires ValidLink(l) && Exists(l.objects, d)
      modifies this
      ensures Now() == Follow(l, old(Now()), d)
      ensures pending == if SymbolSection(l, d).Some? && SymbolSection(l, d).value !in old(live)
                         then old(pending) + [SymbolSection(l, d).value] else old(pending)
    {
      referenced := referenced + {d};
      var name := UndefinedName(l, d);
      if name.Some? {
        undefined := undefined + {name.value};
      }
      var target := SymbolSection(l, d);
      if target.Some? {
        MarkSection(l, target.value);
      }
    }

    /** Following a relocation the rules demand. */
    method FollowRela(l: Link, s: Sec, rela: Rela, ghost extra: set<Sec>, ghost todo: set<Rec>)
      requires ValidLink(l) && Exists(l.objects, Def(s.oi, rela.sym)) && Forced(l, Now(), Def(s.oi, rela.sym))
      requires Progress(l, Now(), Pending() + extra, todo)
      modifies this
      ensures Progress(l, Now(), Pending() + extra, todo)
      ensures Leq(old(Now()), Now()) && FollowedIn(l, Now(), s, rela) && keep == old(keep)
      ensures old(live) == live ==> pending == old(pending)
    {
      ghost var d := Def(s.oi, rela.sym);
      ghost var m, was := Now(), Pending() + extra;
      FollowShape(l, m, d);
      hide ValidLink, Progress, Follow, Forced, Followed, UndefinedName, SymbolSection;
      FollowSymbol(l, Def(s.oi, rela.sym));
      PendingGrows(l, m, d, was);
      FollowProgress(l, m, d, was, Pending() + extra, todo);
    }

    /** All relocations of one live ordinary section, which is no longer pending. */
    method FollowSection(l: Link, s: Sec, ghost todo: set<Rec>)
      requires ValidLink(l) && IsSection(l.objects, s) && s in live && !Eh(l, s)
      requires Progress(l, Now(), Pending() + {s}, todo)
      modifies this
      ensures Progress(l, Now(), Pending(), todo)
      ensures Leq(old(Now()), Now()) && keep == old(keep)
      ensures live == old(live) ==> pending == old(pending)
    {
      hide ValidLink, Progress, FollowedIn, Eh;
      var relas := SectionAt(l.objects, s).relas;
      for i := 0 to |relas|
        invariant Progress(l, Now(), Pending() + {s}, todo)
        invariant Leq(old(Now()), Now()) && keep == old(keep)
        invariant live == old(live) ==> pending == old(pending)
        invariant forall j :: 0 <= j < i ==> FollowedIn(l, Now(), s, relas[j])
      {
        SectionForces(l, Now(), s, relas[i]);
        ghost var m := Now();
        FollowRela(l, s, relas[i], {s}, todo);
        forall j | 0 <= j < i ensures FollowedIn(l, Now(), s, relas[j]) {
          FollowedMono(l, m, Now(), s, relas[j]);
        }
      }
      SectionFinished(l, Now(), s, Pending(), todo);
    }

    /** The inner worklist: follow every pending section until none is left. */
    method Drain(l: Link)
      requires ValidLink(l) && Progress(l, Now(), Pending(), {})
      modifies this
      ensures pending == [] && Progress(l, Now(), {}, {})
      ensures Leq(old(Now()), Now()) && keep == old(keep)
    {
      hide ValidLink, Progress, Eh;
      ghost var all := AllSections(l.objects);
      while pending != []
        invariant Progress(l, Now(), Pending(), {})
        invariant Leq(old(Now()), Now()) && keep == old(keep)
        decreases |all - live|, |pending|
      {
        var s := pending[|pending| - 1];
        ghost var m, was := Now(), Pending();
        pending := pending[..|pending| - 1];
        PopPending(l, m, s, was, Pending());
        if !Eh(l, s) {
          FollowSection(l, s, {});
          if live != m.live {
            NewSection(l, m, Now(), Pending());
          }
        } else {
          EhNotPending(l, m, s, Pending());
        }
      }
      assert Pending() == {};
    }

    /** One look at every unkept unwind record.  Nothing new means nothing is wanted. */
    method ScanFrames(l: Link) returns (r: Result<seq<Rec>>)
      requires ValidLink(l) && Progress(l, Now(), {}, {}) && pending == []
      modifies this
      ensures pending == [] && Leq(old(Now()), Now())
      ensures r.Err? ==> !FdesOk(l)
      ensures r.Ok? ==> Progress(l, Now(), {}, Elems(r.value))
      ensures r.Ok? ==> forall x :: IsRecord(l, x) && x !in old(keep) && IsFde(l, x) ==> FdeTarget(l, x).Some?
      ensures r.Ok? && r.value == [] ==> Now() == old(Now()) && FdeRule(l, Now())
      ensures r.Ok? ==> forall x :: x in r.value ==> IsRecord(l, x) && x in keep && x !in old(keep)
    {
      hide ValidLink, Progress, FdeTarget, LookedAll, FdeRule, ScanState;
      var found: seq<Rec> := [];
      FramesAreSections(l);
      ScanStart(l, Now());
      ghost var done: set<Rec> := {};
      for oi := 0 to |l.objects|
        invariant ScanState(l, old(Now()), Now(), found) && pending == []
        invariant LookedAll(l, old(Now()), Now(), found, done)
        invariant forall x :: IsRecord(l, x) && x.sec.oi < oi ==> x in done
      {
        for si := 0 to |l.objects[oi].sections|
          invariant ScanState(l, old(Now()), Now(), found) && pending == []
          invariant LookedAll(l, old(Now()), Now(), found, done)
          invariant forall x :: IsRecord(l, x) && (x.sec.oi < oi || (x.sec.oi == oi && x.sec.si < si)) ==> x in done
        {
          var s := Sec(oi, si);
          if s in l.frames {
            var more := ScanSection(l, s, old(Now()), found, done);
            if more.Err? {
              return Err;
            }
            found := more.value;
            done := done + RecordsOf(s, |l.frames[s]|);
          }
        }
      }
      ScanDone(l, old(Now()), Now(), found, done);
      r := Ok(found);
    }

    method ScanSection(l: Link, s: Sec, ghost was: Marks, start: seq<Rec>, ghost done: set<Rec>)
      returns (r: Result<seq<Rec>>)
      requires ValidLink(l) && s in l.frames && ScanState(l, was, Now(), start)
      requires LookedAll(l, was, Now(), start, done)
      modifies this
      ensures pending == old(pending) && Leq(was, Now())
      ensures r.Err? ==> !FdesOk(l)
      ensures r.Ok? ==> ScanState(l, was, Now(), r.value)
      ensures r.Ok? ==> LookedAll(l, was, Now(), r.value, done + RecordsOf(s, |l.frames[s]|))
    {
      ScanLeq(l, was, Now(), start);
      hide ValidLink, ScanState, FdeTarget, LookedAll;
      var found := start;
      var kept, forceAll := keep, s in forced;
      assert done + RecordsOf(s, 0) == done;
      for i := 0 to |l.frames[s]|
        invariant ScanState(l, was, Now(), found) && pending == old(pending)
        invariant kept <= keep && Leq(was, Now()) && forced == old(forced)
        invariant LookedAll(l, was, Now(), found, done + RecordsOf(s, i))
      {
        var more := ScanRecord(l, Rec(s, i), kept, forceAll, was, found, done + RecordsOf(s, i));
        if more.Err? {
          return Err;
        }
        found := more.value;
        assert done + RecordsOf(s, i) + {Rec(s, i)} == done + RecordsOf(s, i + 1);
      }
      r := Ok(found);
    }

    method ScanRecord(l: Link, rec: Rec, kept: set<Rec>, forceAll: bool, ghost was: Marks, start: seq<Rec>,
                      ghost done: set<Rec>)
      returns (r: Result<seq<Rec>>)
      requires ValidLink(l) && IsRecord(l, rec) && ScanState(l, was, Now(), start) && Leq(was, Now())
      requires kept <= keep && (forceAll <==> rec.sec in forced) && LookedAll(l, was, Now(), start, done)
      modifies this
      ensures pending == old(pending) && forced == old(forced) && kept <= keep && Leq(was, Now())
      ensures r.Err? ==> !FdesOk(l)
      ensures r.Ok? ==> ScanState(l, was, Now(), r.value) && LookedAll(l, was, Now(), r.value, done + {rec})
    {
      hide ValidLink, ScanState, FdeTarget, LookedAll;
      ghost var m := Now();
      var found, keepIt := start, false;
      if rec !in kept {
        if IsFde(l, rec) && FdeTarget(l, rec).None? {
          MalformedFde(l, rec);
          return Err;
        }
        keepIt := forceAll || (IsFde(l, rec) && FdeTarget(l, rec).value in live);
      }
      if keepIt {
        found := KeepRecord(l, rec, was, found);
      }
      LookedNow(l, was, m, Now(), start, found, done, rec, keepIt);
      r := Ok(found);
    }

    /** Keeping one wanted record and its CIE, noting what is newly kept. */
    method KeepRecord(l: Link, rec: Rec, ghost was: Marks, start: seq<Rec>) returns (found: seq<Rec>)
      requires ValidLink(l) && IsRecord(l, rec) && Wanted(l, Now(), rec) && ScanState(l, was, Now(), start)
      requires IsFde(l, rec) ==> FdeTarget(l, rec).Some?
      modifies this
      ensures pending == old(pending) && Now() == Retain(l, old(Now()), rec)
      ensures start <= found && ScanState(l, was, Now(), found)
    {
      hide ValidLink, ScanState, Wanted, FdeTarget;
      ghost var m := Now();
      live := live + {rec.sec};
      found := start;
      if rec !in keep {
        keep := keep + {rec};
        found := found + [rec];
      }
      var cie := l.frames[rec.sec][rec.index].cie;
      if cie.Some? {
        if Rec(rec.sec, cie.value) !in keep {
          keep := keep + {Rec(rec.sec, cie.value)};
          found := found + [Rec(rec.sec, cie.value)];
        }
      }
      assert keep == Retain(l, m, rec).keep;
      assert Now() == Retain(l, m, rec);
      KeepScan(l, was, m, rec, start, found);
    }

    /** The relocations inside newly kept records. */
    method FollowRecords(l: Link, recs: seq<Rec>)
      requires ValidLink(l) && pending == [] && Progress(l, Now(), {}, Elems(recs))
      requires forall x :: x in recs ==> IsRecord(l, x) && x in keep
      modifies this
      ensures Progress(l, Now(), Pending(), {})
      ensures Leq(old(Now()), Now()) && keep == old(keep)
    {
      hide ValidLink, Progress, RecordDone;
      assert Pending() == {} && recs[0..] == recs;
      for i := 0 to |recs|
        invariant Progress(l, Now(), Pending(), Elems(recs[i..]))
        invariant Leq(old(Now()), Now()) && keep == old(keep)
      {
        FollowRecord(l, recs[i], Elems(recs[i..]));
        RecordFinished(l, Now(), recs[i], Pending(), Elems(recs[i..]), Elems(recs[i + 1..]));
      }
      assert (Elems(recs[|recs|..])) == {};
    }

    method FollowRecord(l: Link, rec: Rec, ghost todo: set<Rec>)
      requires ValidLink(l) && IsRecord(l, rec) && rec in keep && Progress(l, Now(), Pending(), todo)
      modifies this
      ensures Progress(l, Now(), Pending(), todo) && RecordDone(l, Now(), rec)
      ensures Leq(old(Now()), Now()) && keep == old(keep)
    {
      FramesAreSections(l);
      hide ValidLink, Progress, FollowedIn, RecordDone, InRecord;
      var relas := SectionAt(l.objects, rec.sec).relas;
      assert Pending() + {} == Pending();
      for i := 0 to |relas|
        invariant Progress(l, Now(), Pending() + {}, todo)
        invariant Leq(old(Now()), Now()) && keep == old(keep)
        invariant FollowedUpTo(l, Now(), rec, relas, i)
      {
        ghost var m := Now();
        if InRecord(l, rec, relas[i]) {
          RecordForces(l, m, rec, relas[i]);
          FollowRela(l, rec.sec, relas[i], {}, todo);
        }
        FollowedNext(l, m, Now(), rec, relas, i);
      }
      assert Pending() + {} == Pending();
      RecordDoneBy(l, Now(), rec, relas);
    }

    /** Sections that are roots by themselves. */
    method MarkRoots(l: Link)
      requires ValidLink(l) && Progress(l, Now(), Pending(), {})
      modifies this
      ensures Progress(l, Now(), Pending(), {}) && Leq(old(Now()), Now()) && keep == old(keep)
      ensures RootRule(l, Now())
    {
      hide ValidLink, Progress, IsRoot, Eh;
      for oi := 0 to |l.objects|
        invariant Progress(l, Now(), Pending(), {}) && Leq(old(Now()), Now()) && keep == old(keep)
        invariant forall s :: IsSection(l.objects, s) && s.oi < oi && IsRoot(SectionAt(l.objects, s)) ==>
          Marked(l, Now(), s)
      {
        for si := 0 to |l.objects[oi].sections|
          invariant Progress(l, Now(), Pending(), {}) && Leq(old(Now()), Now()) && keep == old(keep)
          invariant forall s :: IsSection(l.objects, s) && (s.oi < oi || (s.oi == oi && s.si < si)) ==>
            IsRoot(SectionAt(l.objects, s)) ==> Marked(l, Now(), s)
        {
          var s := Sec(oi, si);
          if IsRoot(SectionAt(l.objects, s)) {
            ghost var m, was := Now(), Pending();
            RootForced(l, s);
            MarkSection(l, s);
            PendingLive(l, m, was, {});
            MarkProgress(l, m, s, was, Pending(), {});
          }
        }
      }
    }

    /** The entry and the exported names. */
    method MarkNames(l: Link)
      requires ValidLink(l) && Progress(l, Now(), Pending(), {})
      modifies this
      ensures Progress(l, Now(), Pending(), {}) && Leq(old(Now()), Now()) && keep == old(keep)
      ensures NamedRule(l, Now())
    {
      hide ValidLink, Progress, NamedRoot, Eh;
      for i := 0 to |l.roots|
        invariant Progress(l, Now(), Pending(), {}) && Leq(old(Now()), Now()) && keep == old(keep)
        invariant forall j :: 0 <= j < i && NamedRoot(l, l.roots[j]).Some? ==>
          Marked(l, Now(), NamedRoot(l, l.roots[j]).value)
      {
        var t := NamedRoot(l, l.roots[i]);
        if t.Some? {
          ghost var m, was := Now(), Pending();
          NameForced(l, l.roots[i]);
          MarkSection(l, t.value);
          PendingLive(l, m, was, {});
          MarkProgress(l, m, t.value, was, Pending(), {});
        }
      }
    }

    /** The nested fixpoint of `analyze_gc_sections`. */
    method Run(l: Link) returns (ok: bool)
      requires ValidLink(l) && Now() == Marks({}, {}, {}, {}, {}) && pending == []
      modifies this
      ensures ok <==> FdesOk(l)
      ensures ok ==> Least(l, Now()) && InBounds(l, Now())
    {
      StartProgress(l);
      assert Pending() == {};
      hide ValidLink, Progress, RootRule, NamedRule, FdeRule, Least, FdeTarget;
      MarkRoots(l);
      ghost var m := Now();
      MarkNames(l);
      RulesMono(l, m, Now());
      ghost var all, first := AllRecords(l), true;
      while true
        invariant Progress(l, Now(), Pending(), {}) && RootRule(l, Now()) && NamedRule(l, Now())
        invariant if first then keep == {} else FdesOk(l)
        decreases |all - keep|
      {
        m := Now();
        Drain(l);
        RulesMono(l, m, Now());
        m := Now();
        var found := ScanFrames(l);
        if found.Err? {
          return false;
        }
        first := false;
        RulesMono(l, m, Now());
        if found.value == [] {
          assert Elems(found.value) == {};
          Finished(l, Now());
          return true;
        }
        Shrinks(all, m.keep, keep, found.value[0]);
        m := Now();
        FollowRecords(l, found.value);
        RulesMono(l, m, Now());
      }
    }
  }

  ghost predicate ScanState(l: Link, was: Marks, m: Marks, found: seq<Rec>)
    requires ValidLink(l)
  {
    && Leq(was, m) && Progress(l, m, {}, Elems(found))
    && (found == [] ==> m == was)
    && (forall x :: x in found ==> IsRecord(l, x) && x in m.keep && x !in was.keep)
    && (forall x :: IsRecord(l, x) && x in m.keep && x !in was.keep && IsFde(l, x) ==> FdeTarget(l, x).Some?)
  }

  /** The record was checked, and if the scan finds nothing it is not wanted unless kept. */
  ghost predicate Looked(l: Link, was: Marks, m: Marks, found: seq<Rec>, x: Rec)
    requires ValidLink(l) && IsRecord(l, x)
  {
    && (x !in was.keep && IsFde(l, x) ==> FdeTarget(l, x).Some?)
    && (found == [] && Wanted(l, m, x) ==> x in m.keep)
  }

  ghost predicate LookedAll(l: Link, was: Marks, m: Marks, found: seq<Rec>, done: set<Rec>)
    requires ValidLink(l)
  {
    forall x :: x in done ==> IsRecord(l, x) && Looked(l, was, m, found, x)
  }

  ghost function RecordsOf(s: Sec, n: nat): (all: set<Rec>)
    ensures forall x :: x in all <==> x.sec == s && x.index < n
  {
    set i | 0 <= i < n :: Rec(s, i)
  }

  lemma ScanStart(l: Link, m: Marks)
    requires ValidLink(l) && Progress(l, m, {}, {})
    ensures ScanState(l, m, m, []) && LookedAll(l, m, m, [], {})
  {
    hide ValidLink, Progress;
    assert Elems([]) == {};
  }

  lemma ScanLeq(l: Link, was: Marks, m: Marks, found: seq<Rec>)
    requires ValidLink(l) && ScanState(l, was, m, found)
    ensures Leq(was, m)
  {
  }

  lemma ScanDone(l: Link, was: Marks, m: Marks, found: seq<Rec>, done: set<Rec>)
    requires ValidLink(l) && ScanState(l, was, m, found) && LookedAll(l, was, m, found, done)
    requires forall x :: IsRecord(l, x) ==> x in done
    ensures Leq(was, m) && Progress(l, m, {}, Elems(found))
    ensures forall x :: IsRecord(l, x) && x !in was.keep && IsFde(l, x) ==> FdeTarget(l, x).Some?
    ensures found == [] ==> m == was && FdeRule(l, m)
    ensures forall x :: x in found ==> IsRecord(l, x) && x in m.keep && x !in was.keep
  {
    hide ValidLink, Progress, FdeTarget;
  }

  /** Looking at one more record, kept or not, keeps the others looked at. */
  lemma LookedNow(l: Link, was: Marks, m: Marks, n: Marks, before: seq<Rec>, found: seq<Rec>, done: set<Rec>,
                  x: Rec, kept: bool)
    requires ValidLink(l) && IsRecord(l, x) && ScanState(l, was, m, before) && ScanState(l, was, n, found)
    requires before <= found && (if kept then x in n.keep else m == n && before == found)
    requires !kept && x !in m.keep ==> (IsFde(l, x) ==> FdeTarget(l, x).Some?) && !Wanted(l, m, x)
    requires LookedAll(l, was, m, before, done)
    ensures LookedAll(l, was, n, found, done + {x})
  {
    hide ValidLink, Progress, FdeTarget, Wanted;
  }

  lemma MalformedFde(l: Link, r: Rec)
    requires ValidLink(l) && IsRecord(l, r) && IsFde(l, r) && FdeTarget(l, r).None?
    ensures !FdesOk(l)
  {
  }

  lemma KeepScan(l: Link, was: Marks, m: Marks, rec: Rec, start: seq<Rec>, found: seq<Rec>)
    requires ValidLink(l) && IsRecord(l, rec) && Wanted(l, m, rec) && ScanState(l, was, m, start)
    requires IsFde(l, rec) ==> FdeTarget(l, rec).Some?
    requires start <= found
    requires forall x :: x in found <==> x in start || (x in Retain(l, m, rec).keep && x !in m.keep)
    ensures ScanState(l, was, Retain(l, m, rec), found)
  {
    hide ValidLink, Wanted, FdeTarget;
    if rec in m.keep {
      assert KeepRule(l, m);
      hide ScanState, Progress, KeepRule;
      KeepAgain(l, m, rec);
      assert Elems(start) == Elems(found);
      KeepScanSame(l, was, m, start, found);
    } else {
      hide Progress;
      KeepProgress(l, m, rec, {}, Elems(start), Elems(found));
      KeepScanFresh(l, was, m, rec, start, found);
    }
  }

  lemma KeepScanFresh(l: Link, was: Marks, m: Marks, rec: Rec, start: seq<Rec>, found: seq<Rec>)
    requires ValidLink(l) && IsRecord(l, rec) && ScanState(l, was, m, start) && rec !in m.keep
    requires IsFde(l, rec) ==> FdeTarget(l, rec).Some?
    requires Progress(l, Retain(l, m, rec), {}, Elems(found))
    requires forall x :: x in found <==> x in start || (x in Retain(l, m, rec).keep && x !in m.keep)
    ensures ScanState(l, was, Retain(l, m, rec), found)
  {
    assert rec in found;
    CieRecord(l, rec);
    hide ValidLink, FdeTarget, Progress;
    var n := Retain(l, m, rec);
    forall x | x in n.keep && x !in m.keep
      ensures IsRecord(l, x) && (IsFde(l, x) ==> FdeTarget(l, x).Some?)
    {
    }
  }

  lemma KeepScanSame(l: Link, was: Marks, m: Marks, start: seq<Rec>, found: seq<Rec>)
    requires ValidLink(l) && ScanState(l, was, m, start) && start <= found && Elems(start) == Elems(found)
    ensures ScanState(l, was, m, found)
  {
    hide ValidLink, Progress, FdeTarget;
    assert forall x :: x in found ==> x in Elems(start);
  }

  lemma KeepAgain(l: Link, m: Marks, rec: Rec)
    requires ValidLink(l) && IsRecord(l, rec) && rec in m.keep && KeepRule(l, m)
    ensures Retain(l, m, rec) == m
  {
    assert Supported(l, m, rec);
  }

  lemma FramesAreSections(l: Link)
    requires ValidLink(l)
    ensures forall s :: s in l.frames ==> IsSection(l.objects, s)
  {
  }

  lemma RootForced(l: Link, s: Sec)
    requires ValidLink(l) && IsSection(l.objects, s) && IsRoot(SectionAt(l.objects, s))
    ensures forall c :: Closed(l, c) ==> Marked(l, c, s)
  {
    hide ValidLink, NamedRule, SectionRule, FdeRule, KeepRule, RecordRule, IsRoot, Marked;
  }

  lemma NameForced(l: Link, name: string)
    requires ValidLink(l) && name in l.roots && NamedRoot(l, name).Some?
    ensures IsSection(l.objects, NamedRoot(l, name).value)
    ensures forall c :: Closed(l, c) ==> Marked(l, c, NamedRoot(l, name).value)
  {
    hide ValidLink, RootRule, SectionRule, FdeRule, KeepRule, RecordRule, Marked;
  }

  lemma PendingLive(l: Link, m: Marks, pending: set<Sec>, todo: set<Rec>)
    requires ValidLink(l) && Progress(l, m, pending, todo)
    ensures pending <= m.live
  {
  }

  lemma StartProgress(l: Link)
    requires ValidLink(l)
    ensures Progress(l, Marks({}, {}, {}, {}, {}), {}, {})
  {
  }

  lemma Finished(l: Link, m: Marks)
    requires ValidLink(l) && Progress(l, m, {}, {}) && RootRule(l, m) && NamedRule(l, m) && FdeRule(l, m)
    ensures Least(l, m) && InBounds(l, m)
  {
    hide ValidLink, RootRule, NamedRule, FdeRule, SectionRule, KeepRule, RecordRule, InBounds;
  }

  lemma SectionFinished(l: Link, m: Marks, s: Sec, pending: set<Sec>, todo: set<Rec>)
    requires ValidLink(l) && IsSection(l.objects, s) && Progress(l, m, pending + {s}, todo)
    requires forall j :: 0 <= j < |SectionAt(l.objects, s).relas| ==>
      FollowedIn(l, m, s, SectionAt(l.objects, s).relas[j])
    ensures Progress(l, m, pending, todo)
  {
    hide ValidLink, FollowedIn, KeepRule, RecordRule, Needed, InBounds, Eh;
    assert SectionDone(l, m, s);
    hide SectionDone;
  }

  lemma RecordFinished(l: Link, m: Marks, rec: Rec, pending: set<Sec>, todo: set<Rec>, rest: set<Rec>)
    requires ValidLink(l) && IsRecord(l, rec) && Progress(l, m, pending, todo) && RecordDone(l, m, rec)
    requires todo <= rest + {rec}
    ensures Progress(l, m, pending, rest)
  {
    hide ValidLink, RecordDone, SectionRule, KeepRule, Needed, InBounds;
  }

  lemma PopPending(l: Link, m: Marks, s: Sec, was: set<Sec>, now: set<Sec>)
    requires ValidLink(l) && Progress(l, m, was, {}) && s in was && was <= now + {s} && now <= was
    ensures IsSection(l.objects, s) && s in m.live && Progress(l, m, now + {s}, {})
  {
    assert was == now + {s};
    hide ValidLink, SectionRule, KeepRule, RecordRule, Needed;
  }

  lemma EhNotPending(l: Link, m: Marks, s: Sec, now: set<Sec>)
    requires ValidLink(l) && Progress(l, m, now + {s}, {}) && Eh(l, s)
    ensures Progress(l, m, now, {})
  {
    hide ValidLink, SectionDone, KeepRule, RecordRule, Needed, Eh;
  }

  lemma NewSection(l: Link, m: Marks, n: Marks, pending: set<Sec>)
    requires ValidLink(l) && Progress(l, n, pending, {}) && Leq(m, n) && m.live != n.live
    ensures |AllSections(l.objects) - n.live| < |AllSections(l.objects) - m.live|
  {
    var s :| s in n.live && s !in m.live;
    hide ValidLink, SectionRule, KeepRule, RecordRule, Needed;
    Shrinks(AllSections(l.objects), m.live, n.live, s);
  }

  ghost predicate FollowedUpTo(l: Link, m: Marks, rec: Rec, relas: seq<Rela>, n: nat)
    requires ValidLink(l) && IsRecord(l, rec)
  {
    n <= |relas| && forall j :: 0 <= j < n && InRecord(l, rec, relas[j]) ==> FollowedIn(l, m, rec.sec, relas[j])
  }

  lemma FollowedNext(l: Link, m: Marks, n: Marks, rec: Rec, relas: seq<Rela>, i: nat)
    requires ValidLink(l) && IsRecord(l, rec) && Leq(m, n) && i < |relas| && FollowedUpTo(l, m, rec, relas, i)
    requires InRecord(l, rec, relas[i]) ==> FollowedIn(l, n, rec.sec, relas[i])
    ensures FollowedUpTo(l, n, rec, relas, i + 1)
  {
    hide ValidLink, FollowedIn, InRecord;
    forall j | 0 <= j < i && InRecord(l, rec, relas[j]) ensures FollowedIn(l, n, rec.sec, relas[j]) {
      FollowedMono(l, m, n, rec.sec, relas[j]);
    }
  }

  lemma RecordDoneBy(l: Link, m: Marks, rec: Rec, relas: seq<Rela>)
    requires ValidLink(l) && IsRecord(l, rec) && FollowedUpTo(l, m, rec, relas, |relas|)
    requires IsSection(l.objects, rec.sec) && relas == SectionAt(l.objects, rec.sec).relas
    ensures RecordDone(l, m, rec)
  {
    hide ValidLink, FollowedIn, InRecord;
  }

  lemma PendingGrows(l: Link, m: Marks, d: Def, was: set<Sec>)
    requires ValidLink(l) && Exists(l.objects, d) && was <= m.live
    ensures var n, t := Follow(l, m, d), SymbolSection(l, d);
      was <= n.live && (t.Some? ==> t.value in n.live)
  {
  }

  /** The unwind sections, parsed. */
  method ParseFrames(objects: seq<Object>) returns (r: Result<map<Sec, seq<EhFrame.Record>>>)
    ensures r.Err? <==>
      exists s :: IsSection(objects, s) && IsEhFrame(SectionAt(objects, s)) && EhFrame.Parse(SectionAt(objects, s)).Err?
    ensures r.Ok? ==> forall s :: s in r.value <==> IsSection(objects, s) && IsEhFrame(SectionAt(objects, s))
    ensures r.Ok? ==> forall s :: s in r.value ==> EhFrame.Parse(SectionAt(objects, s)) == Ok(r.value[s])
  {
    hide EhFrame.Parse, IsEhFrame;
    var frames: map<Sec, seq<EhFrame.Record>> := map[];
    for oi := 0 to |objects|
      invariant forall s :: s in frames <==> IsSection(objects, s) && s.oi < oi && IsEhFrame(SectionAt(objects, s))
      invariant forall s :: s in frames ==> EhFrame.Parse(SectionAt(objects, s)) == Ok(frames[s])
    {
      for si := 0 to |objects[oi].sections|
        invariant forall s :: s in frames <==>
          IsSection(objects, s) && (s.oi < oi || (s.oi == oi && s.si < si)) && IsEhFrame(SectionAt(objects, s))
        invariant forall s :: s in frames ==> EhFrame.Parse(SectionAt(objects, s)) == Ok(frames[s])
      {
        var s := Sec(oi, si);
        if IsEhFrame(SectionAt(objects, s)) {
          var records := EhFrame.ParseEhFrame(SectionAt(objects, s));
          if records.Err? {
            return Err;
          }
          frames := frames[s := records.value];
        }
      }
    }
    r := Ok(frames);
  }

  /** When the analysis succeeds: the relocations are in range, no name clashes, every
      unwind section parses, and every FDE describes one executable section. */
  ghost predicate Analyzable(objects: seq<Object>, roots: seq<string>) {
    && Validated(objects) && (forall name :: !Clash(objects, End(objects), name))
    && (forall s :: IsSection(objects, s) && IsEhFrame(SectionAt(objects, s)) ==>
          EhFrame.Parse(SectionAt(objects, s)).Ok?)
    && (forall l :: ValidLink(l) && l.objects == objects && l.roots == roots ==> FdesOk(l))
  }

  /** `analyze_gc_sections`: it succeeds exactly on analyzable objects, with the least
      marking closed under the rules. */
  method AnalyzeGc(objects: seq<Object>, roots: seq<string>) returns (r: Result<(Link, Marks)>)
    ensures r.Ok? <==> Analyzable(objects, roots)
    ensures r.Ok? ==> var (l, m) := r.value;
      ValidLink(l) && l.objects == objects && l.roots == roots && Least(l, m) && InBounds(l, m)
  {
    hide Clash, Least, InBounds, FdesOk, EhFrame.Parse, Resolves;
    if !Validated(objects) {
      return Err;
    }
    hide Validated;
    var globals := ResolveGlobals(objects);
    if globals.Err? {
      return Err;
    }
    var frames := ParseFrames(objects);
    if frames.Err? {
      return Err;
    }
    var l := Link(objects, globals.value, frames.value, roots);
    LinkDetermined(l);
    var analysis := new Analysis();
    var ok := analysis.Run(l);
    if !ok {
      return Err;
    }
    r := Ok((l, Marks(analysis.live, analysis.keep, analysis.forced, analysis.referenced, analysis.undefined)));
  }

  /** The objects and roots determine the globals and the parsed frames. */
  lemma LinkDetermined(l: Link)
    requires ValidLink(l)
    ensures forall k :: ValidLink(k) && k.objects == l.objects && k.roots == l.roots ==> k == l
  {
    hide EhFrame.Parse, Validated;
    forall k | ValidLink(k) && k.objects == l.objects && k.roots == l.roots ensures k == l {
      CoalesceClosedForm(l.objects);
      AliasedUnique(l.objects, Coalesce(l.objects).value, k.globals, l.globals);
      assert k.frames == l.frames;
    }
  }
}
