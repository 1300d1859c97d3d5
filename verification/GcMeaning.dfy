/** What section GC keeps and why, told by the symbol tables. */
module GcMeaning {
  import opened Wrappers
  import opened Elf
  import opened Resolve
  import opened GcSections
  import opened GcApply
  import ResolveMeaning
  import Bytes
  import EhFrame

  // ---- what a symbol stands for --------------------------------------------------------------------------

  /**
   * An undefined symbol stands for what its name resolves to, and so does a non-local COMMON symbol; a COMMON
   * symbol without a resolved name, and every symbol defined in its own object, stands for itself.
   */
  ghost predicate StandsFor(objects: seq<Object>, globals: Globals, d: Def, e: Def) {
    && Exists(objects, d)
    && var sym := objects[d.oi].symbols[d.si];
       || (sym.shndx == 0 && sym.name in globals && e == globals[sym.name])
       || (sym.shndx == 0xfff2 && sym.bind != 0 && sym.name in globals && e == globals[sym.name])
       || (sym.shndx == 0xfff2 && (sym.bind == 0 || sym.name !in globals) && e == d)
       || (sym.shndx != 0 && sym.shndx != 0xfff2 && e == d)
  }

  lemma StandsForExactly(objects: seq<Object>, globals: Globals, d: Def, e: Def)
    requires Exists(objects, d)
    ensures StandsFor(objects, globals, d, e) <==> Definition(objects, globals, d) == Some(e)
  {
  }

  /** The symbol's definition lies in this section. */
  ghost predicate RefersTo(objects: seq<Object>, globals: Globals, d: Def, t: Sec) {
    exists e :: StandsFor(objects, globals, d, e) && Exists(objects, e) && e.oi == t.oi
      && objects[e.oi].symbols[e.si].section == Some(t.si)
  }

  lemma RefersToExactly(l: Link, d: Def, t: Sec)
    requires ValidLink(l) && Exists(l.objects, d)
    ensures RefersTo(l.objects, l.globals, d, t) <==> SymbolSection(l, d) == Some(t)
  {
    DefinitionExists(l, d);
    forall e ensures StandsFor(l.objects, l.globals, d, e) <==> Definition(l.objects, l.globals, d) == Some(e) {
      StandsForExactly(l.objects, l.globals, d, e);
    }
    hide StandsFor, Definition, ValidLink;
    if SymbolSection(l, d) == Some(t) {
      var e := Definition(l.objects, l.globals, d).value;
      assert StandsFor(l.objects, l.globals, d, e);
    }
  }

  /** Symbols name existing sections, relocations existing symbols, and their bytes lie in the section. */
  ghost predicate WellFormed(obj: Object) {
    && (forall k :: 0 <= k < |obj.symbols| && obj.symbols[k].section.Some? ==>
          obj.symbols[k].section.value < |obj.sections|)
    && (forall i, k :: 0 <= i < |obj.sections| && 0 <= k < |obj.sections[i].relas| ==>
          && obj.sections[i].relas[k].sym < |obj.symbols|
          && Inside(obj.sections[i], obj.sections[i].relas[k]))
  }

  /** A relocation of a type the linker does not know is taken to write one byte. */
  predicate Inside(section: Section, rela: Rela) {
    var length := if FieldLength(rela.rType) == 0 then 1 else FieldLength(rela.rType);
    rela.offset + length <= |section.data|
  }

  /** Section 4.4.1 of the x86-64 psABI: word64 and word32 fields, by the number of the type. */
  function FieldLength(rType: nat): nat {
    if rType == 1 || rType == 17 then 8              // R_X86_64_64, DTPOFF64
    else if rType == 2 || rType == 4 || rType == 9   // PC32, PLT32, GOTPCREL
            || rType == 10 || rType == 11            // 32, 32S
            || (19 <= rType <= 23)                   // TLSGD, TLSLD, DTPOFF32, GOTTPOFF, TPOFF32
            || rType == 41 || rType == 42            // GOTPCRELX, REX_GOTPCRELX
         then 4
    else 0
  }

  lemma FieldLengthExactly(rType: nat)
    ensures RelocationWidth(rType) == if FieldLength(rType) == 0 then None else Some(FieldLength(rType))
  {
  }

  lemma WellFormedExactly(obj: Object)
    ensures WellFormed(obj) <==> ObjectInRange(obj)
  {
    forall section, rela
      ensures RelaInRange(obj, section, rela) <==> rela.sym < |obj.symbols| && Inside(section, rela)
    {
      FieldLengthExactly(rela.rType);
    }
    hide Inside, RelaInRange;
    if WellFormed(obj) {
      forall sym | sym in obj.symbols && sym.section.Some? ensures sym.section.value < |obj.sections| {
        var k :| 0 <= k < |obj.symbols| && obj.symbols[k] == sym;
      }
      forall section, rela | section in obj.sections && rela in section.relas ensures RelaInRange(obj, section, rela) {
        var i :| 0 <= i < |obj.sections| && obj.sections[i] == section;
        var k :| 0 <= k < |section.relas| && section.relas[k] == rela;
        assert obj.sections[i].relas[k] == rela;
      }
    }
    if ObjectInRange(obj) {
      forall k | 0 <= k < |obj.symbols| && obj.symbols[k].section.Some?
        ensures obj.symbols[k].section.value < |obj.sections|
      {
        assert obj.symbols[k] in obj.symbols;
      }
      forall i, k | 0 <= i < |obj.sections| && 0 <= k < |obj.sections[i].relas|
        ensures obj.sections[i].relas[k].sym < |obj.symbols| && Inside(obj.sections[i], obj.sections[i].relas[k])
      {
        assert obj.sections[i] in obj.sections && obj.sections[i].relas[k] in obj.sections[i].relas;
      }
    }
  }

  // ---- what is kept whatever the references -----------------------------------------------------------------

  /** SHT_INIT_ARRAY, SHT_FINI_ARRAY, SHT_PREINIT_ARRAY, retained, or run by name at start or exit. */
  ghost predicate AlwaysKept(section: Section) {
    || section.retain
    || section.shType == 14 || section.shType == 15 || section.shType == 16
    || section.name == ".init" || section.name == ".fini"
    || section.name == ".ctors" || section.name == ".dtors"
    || exists suffix: string :: section.name == ".ctors." + suffix || section.name == ".dtors." + suffix
  }

  lemma PrefixIs(name: string, prefix: string)
    ensures StartsWith(name, prefix) <==> exists suffix: string :: name == prefix + suffix
  {
    if StartsWith(name, prefix) {
      assert name == prefix + name[|prefix|..];
    }
  }

  lemma AlwaysKeptExactly(section: Section)
    ensures AlwaysKept(section) <==> IsRoot(section)
  {
    PrefixIs(section.name, ".ctors.");
    PrefixIs(section.name, ".dtors.");
    hide StartsWith;
  }

  /** An unwind section. */
  predicate Unwind(l: Link, s: Sec) {
    IsSection(l.objects, s) &&
    (SectionAt(l.objects, s).name == ".eh_frame" || SectionAt(l.objects, s).shType == 0x7000_0001)
  }

  lemma UnwindExactly(l: Link, s: Sec)
    ensures Unwind(l, s) <==> Eh(l, s)
  {
  }

  /** The relocation at the FDE's initial location, the only one there and a PC32, leads to executable section `t`. */
  ghost predicate Describes(l: Link, r: Rec, t: Sec)
    requires IsRecord(l, r) && IsSection(l.objects, r.sec)
  {
    && IsSection(l.objects, t) && SectionAt(l.objects, t).exec
    && exists k :: 0 <= k < |SectionAt(l.objects, r.sec).relas| && OnlyAt(l, r, k)
         && SectionAt(l.objects, r.sec).relas[k].rType == 2
         && RefersTo(l.objects, l.globals, Def(r.sec.oi, SectionAt(l.objects, r.sec).relas[k].sym), t)
  }

  /** Relocation `k` of the section is the only one at eight bytes into the record. */
  ghost predicate OnlyAt(l: Link, r: Rec, k: nat)
    requires IsRecord(l, r) && IsSection(l.objects, r.sec)
  {
    var relas := SectionAt(l.objects, r.sec).relas;
    && k < |relas| && relas[k].offset == l.frames[r.sec][r.index].start + 8
    && forall j :: 0 <= j < |relas| && j != k ==> relas[j].offset != l.frames[r.sec][r.index].start + 8
  }

  lemma {:induction false} AtSplits(a: seq<Rela>, b: seq<Rela>, offset: nat)
    ensures At(a + b, offset) == At(a, offset) + At(b, offset)
  {
    hide *;
    if a == [] {
      AtNothing(offset);
      assert a + b == b;
    } else {
      AtSplits(a[1..], b, offset);
      AtCons(a[0], a[1..], offset);
      AtCons(a[0], a[1..] + b, offset);
      assert a == [a[0]] + a[1..] && a + b == [a[0]] + (a[1..] + b);
    }
  }

  lemma AtNothing(offset: nat)
    ensures At([], offset) == []
  {
  }

  lemma {:induction false} AtCons(rela: Rela, rest: seq<Rela>, offset: nat)
    ensures At([rela] + rest, offset) == (if rela.offset == offset then [rela] else []) + At(rest, offset)
  {
    assert ([rela] + rest)[1..] == rest;
  }

  lemma {:induction false} AtNone(relas: seq<Rela>, offset: nat)
    ensures At(relas, offset) == [] <==> forall j :: 0 <= j < |relas| ==> relas[j].offset != offset
  {
    if relas != [] {
      AtNone(relas[1..], offset);
      assert forall j :: 0 < j < |relas| ==> relas[j] == relas[1..][j - 1];
    }
  }

  /** One relocation at the offset, and it is number `k`. */
  lemma AtOnly(relas: seq<Rela>, offset: nat, k: nat)
    requires k < |relas| && relas[k].offset == offset
    ensures |At(relas, offset)| == 1 <==> forall j :: 0 <= j < |relas| && j != k ==> relas[j].offset != offset
    ensures |At(relas, offset)| == 1 ==> At(relas, offset)[0] == relas[k]
  {
    var a, b := relas[..k], relas[k + 1..];
    assert relas == a + [relas[k]] + b;
    AtSplits(a + [relas[k]], b, offset);
    AtSplits(a, [relas[k]], offset);
    assert At([relas[k]], offset) == [relas[k]];
    AtNone(a, offset);
    AtNone(b, offset);
    assert forall j :: 0 <= j < k ==> a[j] == relas[j];
    assert forall j :: k < j < |relas| ==> b[j - k - 1] == relas[j];
    assert forall j :: 0 <= j < |b| ==> b[j] == relas[k + 1 + j];
  }

  lemma FdeLocation(section: Section, records: seq<EhFrame.Record>, i: nat)
    requires EhFrame.Parse(section) == Ok(records) && i < |records|
    ensures records[i].initialLocation == if records[i].cie.Some? then Some(records[i].start + 8) else None
  {
    var end := EhFrame.ParsedFrom(section.data, 0, []);
    assert EhFrame.FoundAt(section.data, records, i);
    hide EhFrame.FoundAt, EhFrame.Parsed, EhFrame.RecordsFrom, EhFrame.RelaFits;
    FoundLocation(section.data, records, i);
  }

  lemma FoundLocation(data: seq<Bytes.byte>, records: seq<EhFrame.Record>, i: nat)
    requires i < |records| && EhFrame.FoundAt(data, records, i)
    ensures records[i].initialLocation == if records[i].cie.Some? then Some(records[i].start + 8) else None
  {
    hide EhFrame.CieFdeEncoding, EhFrame.FindCie, Ru32;
  }

  lemma FdeTargetIs(l: Link, r: Rec, at: nat, t: Sec)
    requires ValidLink(l) && IsRecord(l, r) && IsSection(l.objects, r.sec) && IsFde(l, r)
    requires l.frames[r.sec][r.index].initialLocation == Some(at)
    ensures var here := At(SectionAt(l.objects, r.sec).relas, at);
      && (|here| == 1 ==> here[0] in SectionAt(l.objects, r.sec).relas && Exists(l.objects, Def(r.sec.oi, here[0].sym)))
      && (FdeTarget(l, r) == Some(t) <==>
            |here| == 1 && here[0].rType == 2 && SymbolSection(l, Def(r.sec.oi, here[0].sym)) == Some(t)
            && IsSection(l.objects, t) && SectionAt(l.objects, t).exec)
  {
    var here := At(SectionAt(l.objects, r.sec).relas, at);
    if |here| == 1 {
      AtIn(SectionAt(l.objects, r.sec).relas, at, here[0]);
      RelaExists(l, r.sec, here[0]);
    }
    hide ValidLink, At, SymbolSection;
  }

  /** The analysis takes an FDE to be about exactly the section it describes. */
  lemma DescribesExactly(l: Link, r: Rec, t: Sec)
    requires ValidLink(l) && IsRecord(l, r) && IsSection(l.objects, r.sec)
    ensures IsFde(l, r) <==> l.frames[r.sec][r.index].cie.Some?
    ensures IsFde(l, r) ==> (FdeTarget(l, r) == Some(t) <==> Describes(l, r, t))
  {
    var relas, at := SectionAt(l.objects, r.sec).relas, l.frames[r.sec][r.index].start + 8;
    hide *;
    FdeIs(l, r);
    if IsFde(l, r) {
      FdeTargetIs(l, r, at, t);
      OnlyOne(l, r);
      if |At(relas, at)| == 1 {
        var k :| 0 <= k < |relas| && OnlyAt(l, r, k) && At(relas, at)[0] == relas[k];
        DescribesBy(l, r, k, t);
        RefersToExactly(l, Def(r.sec.oi, relas[k].sym), t);
      } else {
        DescribesNone(l, r, t);
      }
    }
  }

  lemma FdeIs(l: Link, r: Rec)
    requires ValidLink(l) && IsRecord(l, r) && IsSection(l.objects, r.sec)
    requires r.sec in l.frames && r.index < |l.frames[r.sec]|
    ensures IsFde(l, r) <==> l.frames[r.sec][r.index].cie.Some?
    ensures IsFde(l, r) ==>
      l.frames[r.sec][r.index].initialLocation == Some(l.frames[r.sec][r.index].start + 8)
  {
    hide *;
    FrameParsed(l, r.sec);
    FdeLocation(SectionAt(l.objects, r.sec), l.frames[r.sec], r.index);
    FdeWhen(l, r);
  }

  lemma FdeWhen(l: Link, r: Rec)
    requires IsRecord(l, r)
    ensures IsFde(l, r) <==> l.frames[r.sec][r.index].cie.Some? && l.frames[r.sec][r.index].initialLocation.Some?
  {
  }

  lemma FrameParsed(l: Link, s: Sec)
    requires ValidLink(l) && s in l.frames && IsSection(l.objects, s)
    ensures EhFrame.Parse(SectionAt(l.objects, s)) == Ok(l.frames[s])
  {
    hide EhFrame.Parse, Validated, Resolves;
  }

  /** The list of relocations at the initial location has one element exactly when one is the only one there. */
  lemma OnlyOne(l: Link, r: Rec)
    requires IsRecord(l, r) && IsSection(l.objects, r.sec)
    ensures var relas, at := SectionAt(l.objects, r.sec).relas, l.frames[r.sec][r.index].start + 8;
      if |At(relas, at)| == 1
      then exists k :: 0 <= k < |relas| && OnlyAt(l, r, k) && At(relas, at)[0] == relas[k]
      else forall k :: 0 <= k < |relas| ==> !OnlyAt(l, r, k)
  {
    var relas, at := SectionAt(l.objects, r.sec).relas, l.frames[r.sec][r.index].start + 8;
    if |At(relas, at)| == 1 {
      AtIn(relas, at, At(relas, at)[0]);
      var k :| 0 <= k < |relas| && relas[k] == At(relas, at)[0];
      AtOnly(relas, at, k);
      hide At;
      assert OnlyAt(l, r, k);
    } else {
      hide At;
      forall k | 0 <= k < |relas| ensures !OnlyAt(l, r, k) {
        if relas[k].offset == at {
          AtOnly(relas, at, k);
        }
      }
    }
  }

  lemma DescribesBy(l: Link, r: Rec, k: nat, t: Sec)
    requires IsRecord(l, r) && IsSection(l.objects, r.sec) && OnlyAt(l, r, k)
    ensures k < |SectionAt(l.objects, r.sec).relas|
    ensures var rela := SectionAt(l.objects, r.sec).relas[k];
      Describes(l, r, t) <==>
        && IsSection(l.objects, t) && SectionAt(l.objects, t).exec && rela.rType == 2
        && RefersTo(l.objects, l.globals, Def(r.sec.oi, rela.sym), t)
  {
    hide RefersTo;
  }

  lemma DescribesNone(l: Link, r: Rec, t: Sec)
    requires IsRecord(l, r) && IsSection(l.objects, r.sec)
    requires forall k :: 0 <= k < |SectionAt(l.objects, r.sec).relas| ==> !OnlyAt(l, r, k)
    ensures !Describes(l, r, t)
  {
    hide RefersTo, OnlyAt;
  }

  // ---- what a closed marking keeps ----------------------------------------------------------------------------

  /** Relocation `k` of section `s` refers to `t`. */
  ghost predicate Leads(l: Link, s: Sec, k: nat, t: Sec) {
    && IsSection(l.objects, s) && k < |SectionAt(l.objects, s).relas|
    && RefersTo(l.objects, l.globals, Def(s.oi, SectionAt(l.objects, s).relas[k].sym), t)
  }

  /** It lies in record `r`. */
  ghost predicate LeadsIn(l: Link, r: Rec, k: nat, t: Sec)
    requires IsRecord(l, r)
  {
    && Leads(l, r.sec, k, t)
    && l.frames[r.sec][r.index].start <= SectionAt(l.objects, r.sec).relas[k].offset < l.frames[r.sec][r.index].end
  }

  /** A root name's definition lies in `t`. */
  ghost predicate NamesRoot(l: Link, name: string, t: Sec) {
    name in l.roots && name in l.globals && RefersTo(l.objects, l.globals, l.globals[name], t)
  }

  lemma LeadsFollowed(l: Link, m: Marks, s: Sec, k: nat, t: Sec)
    requires ValidLink(l) && Leads(l, s, k, t) && FollowedIn(l, m, s, SectionAt(l.objects, s).relas[k])
    ensures t in m.live && (Unwind(l, t) ==> t in m.forced)
  {
    RefersToExactly(l, Def(s.oi, SectionAt(l.objects, s).relas[k].sym), t);
    UnwindExactly(l, t);
    hide ValidLink, RefersTo, SymbolSection, Unwind;
  }

  /** What a live ordinary section refers to is live. */
  lemma ReferenceKept(l: Link, m: Marks, s: Sec, k: nat, t: Sec)
    requires ValidLink(l) && Closed(l, m) && s in m.live && !Unwind(l, s) && Leads(l, s, k, t)
    ensures t in m.live && (Unwind(l, t) ==> t in m.forced)
  {
    UnwindExactly(l, s);
    assert SectionDone(l, m, s);
    hide ValidLink, Leads, Unwind, FollowedIn, RootRule, NamedRule, FdeRule, KeepRule, RecordRule;
    LeadsIndex(l, s, k, t);
    LeadsFollowed(l, m, s, k, t);
  }

  lemma LeadsIndex(l: Link, s: Sec, k: nat, t: Sec)
    requires Leads(l, s, k, t)
    ensures IsSection(l.objects, s) && k < |SectionAt(l.objects, s).relas|
  {
  }

  /** So is what a kept record refers to. */
  lemma RecordReferenceKept(l: Link, m: Marks, r: Rec, k: nat, t: Sec)
    requires ValidLink(l) && Closed(l, m) && IsRecord(l, r) && r in m.keep && LeadsIn(l, r, k, t)
    ensures t in m.live && (Unwind(l, t) ==> t in m.forced)
  {
    assert RecordDone(l, m, r);
    hide ValidLink, Unwind, FollowedIn, RootRule, NamedRule, FdeRule, KeepRule, SectionRule;
    LeadsIndex(l, r.sec, k, t);
    assert InRecord(l, r, SectionAt(l.objects, r.sec).relas[k]);
    LeadsFollowed(l, m, r.sec, k, t);
  }

  /** The FDE of live code is kept, with its section and its CIE. */
  lemma FdeKept(l: Link, m: Marks, r: Rec, t: Sec)
    requires ValidLink(l) && Closed(l, m) && IsRecord(l, r) && IsSection(l.objects, r.sec)
    requires l.frames[r.sec][r.index].cie.Some? && Describes(l, r, t) && t in m.live
    ensures r in m.keep && r.sec in m.live && Rec(r.sec, l.frames[r.sec][r.index].cie.value) in m.keep
  {
    DescribesExactly(l, r, t);
    hide ValidLink, Describes, FdeTarget, RootRule, NamedRule, RecordRule, SectionRule;
    assert Wanted(l, m, r);
    assert Supported(l, m, r);
  }

  lemma RootKept(l: Link, m: Marks, t: Sec)
    requires ValidLink(l) && Closed(l, m) && IsSection(l.objects, t)
    requires AlwaysKept(SectionAt(l.objects, t)) || exists name :: NamesRoot(l, name, t)
    ensures t in m.live && (Unwind(l, t) ==> t in m.forced)
  {
    UnwindExactly(l, t);
    AlwaysKeptExactly(SectionAt(l.objects, t));
    if !AlwaysKept(SectionAt(l.objects, t)) {
      var name :| NamesRoot(l, name, t);
      ResolvedExists(l.objects, l.globals, name);
      RefersToExactly(l, l.globals[name], t);
      assert NamedRoot(l, name) == Some(t);
    }
    hide ValidLink, RefersTo, SymbolSection, Unwind, AlwaysKept, IsRoot, NamedRoot, FdeRule, KeepRule, RecordRule,
         SectionRule;
  }

  // ---- and why ---------------------------------------------------------------------------------------------------

  /** Something other than its own records asks for section `t`. */
  ghost predicate Asked(l: Link, m: Marks, t: Sec) {
    || (IsSection(l.objects, t) && AlwaysKept(SectionAt(l.objects, t)))
    || (exists name :: NamesRoot(l, name, t))
    || (exists s, k :: s in m.live && s != t && !Unwind(l, s) && Leads(l, s, k, t))
    || (exists r, k :: r in m.keep && IsRecord(l, r) && LeadsIn(l, r, k, t))
  }

  /** A marking without one section, which nothing in it asks for and which holds no kept record. */
  function Without(m: Marks, t: Sec): Marks { m.(live := m.live - {t}, forced := m.forced - {t}) }

  lemma StillFollowed(l: Link, m: Marks, s: Sec, rela: Rela, t: Sec)
    requires ValidLink(l) && FollowedIn(l, m, s, rela) && IsSection(l.objects, s)
    requires exists k ::
      0 <= k < |SectionAt(l.objects, s).relas| && SectionAt(l.objects, s).relas[k] == rela && !Leads(l, s, k, t)
    ensures FollowedIn(l, Without(m, t), s, rela)
  {
    var k :| 0 <= k < |SectionAt(l.objects, s).relas| && SectionAt(l.objects, s).relas[k] == rela && !Leads(l, s, k, t);
    RefersToExactly(l, Def(s.oi, rela.sym), t);
    hide ValidLink, RefersTo, SymbolSection, UndefinedName;
  }

  lemma StillRooted(l: Link, m: Marks, t: Sec)
    requires ValidLink(l) && RootRule(l, m) && NamedRule(l, m) && !Asked(l, m, t)
    ensures RootRule(l, Without(m, t)) && NamedRule(l, Without(m, t))
  {
    forall s | IsSection(l.objects, s) && IsRoot(SectionAt(l.objects, s)) ensures Marked(l, Without(m, t), s) {
      AlwaysKeptExactly(SectionAt(l.objects, s));
      assert Marked(l, m, s);
    }
    forall name | name in l.roots && NamedRoot(l, name).Some?
      ensures Marked(l, Without(m, t), NamedRoot(l, name).value)
    {
      ResolvedExists(l.objects, l.globals, name);
      RefersToExactly(l, l.globals[name], NamedRoot(l, name).value);
      assert NamesRoot(l, name, NamedRoot(l, name).value);
      assert Marked(l, m, NamedRoot(l, name).value);
    }
  }

  lemma StillSections(l: Link, m: Marks, t: Sec)
    requires ValidLink(l) && SectionRule(l, m, {}) && !Asked(l, m, t)
    ensures SectionRule(l, Without(m, t), {})
  {
    var n := Without(m, t);
    hide ValidLink, FollowedIn, Eh;
    forall s | IsSection(l.objects, s) && s in n.live && !Eh(l, s) && s !in {} ensures SectionDone(l, n, s) {
      assert SectionDone(l, m, s);
      UnwindExactly(l, s);
      forall rela | rela in SectionAt(l.objects, s).relas ensures FollowedIn(l, n, s, rela) {
        var k :| 0 <= k < |SectionAt(l.objects, s).relas| && SectionAt(l.objects, s).relas[k] == rela;
        assert !Leads(l, s, k, t);
        StillFollowed(l, m, s, rela, t);
      }
    }
  }

  lemma StillRecords(l: Link, m: Marks, t: Sec)
    requires ValidLink(l) && RecordRule(l, m, {}) && !Asked(l, m, t)
    ensures RecordRule(l, Without(m, t), {})
  {
    var n := Without(m, t);
    hide ValidLink, FollowedIn, AlwaysKept, NamesRoot;
    forall r | IsRecord(l, r) && r in n.keep && r !in {} ensures RecordDone(l, n, r) {
      assert RecordDone(l, m, r);
      RecordSection(l, r);
      forall rela | rela in SectionAt(l.objects, r.sec).relas && InRecord(l, r, rela)
        ensures FollowedIn(l, n, r.sec, rela)
      {
        var k :| 0 <= k < |SectionAt(l.objects, r.sec).relas| && SectionAt(l.objects, r.sec).relas[k] == rela;
        assert !LeadsIn(l, r, k, t);
        StillFollowed(l, m, r.sec, rela, t);
      }
    }
  }

  lemma RecordSection(l: Link, r: Rec)
    requires ValidLink(l) && IsRecord(l, r)
    ensures IsSection(l.objects, r.sec)
  {
  }

  /** Nothing is live without a reason. */
  lemma LiveForAReason(l: Link, m: Marks, t: Sec)
    requires ValidLink(l) && Least(l, m) && t in m.live
    ensures Asked(l, m, t) || exists r :: r in m.keep && IsRecord(l, r) && r.sec == t
  {
    hide ValidLink, Closed, Asked;
    ClosedWithout(l, m, t);
  }

  lemma ClosedWithout(l: Link, m: Marks, t: Sec)
    requires ValidLink(l) && Closed(l, m)
    ensures !Asked(l, m, t) && (forall r :: r in m.keep && IsRecord(l, r) ==> r.sec != t) ==> Closed(l, Without(m, t))
  {
    var n := Without(m, t);
    if !Asked(l, m, t) && forall r :: r in m.keep && IsRecord(l, r) ==> r.sec != t {
      StillRooted(l, m, t);
      StillSections(l, m, t);
      StillRecords(l, m, t);
      hide ValidLink, RootRule, NamedRule, SectionRule, RecordRule, Asked, FdeTarget, IsFde;
      assert FdeRule(l, n) && KeepRule(l, n);
    }
  }

  /** No unwind section is kept whole without one. */
  lemma ForcedForAReason(l: Link, m: Marks, t: Sec)
    requires ValidLink(l) && Least(l, m) && t in m.forced
    ensures Asked(l, m, t) && Unwind(l, t)
  {
    hide ValidLink, Closed, Asked, Unwind;
    ClosedUnforced(l, m, t);
  }

  lemma ClosedUnforced(l: Link, m: Marks, t: Sec)
    requires ValidLink(l) && Closed(l, m)
    ensures !Asked(l, m, t) || !Unwind(l, t) ==> Closed(l, m.(forced := m.forced - {t}))
  {
    var n := m.(forced := m.forced - {t});
    UnwindExactly(l, t);
    if !Asked(l, m, t) || !Unwind(l, t) {
      UnforcedRoots(l, m, t);
      UnforcedSections(l, m, t);
      UnforcedRecords(l, m, t);
      hide ValidLink, RootRule, NamedRule, SectionRule, RecordRule, Asked, FdeTarget, IsFde, Unwind, Eh;
      assert FdeRule(l, n) && KeepRule(l, n);
    }
  }

  lemma UnforcedFollowed(l: Link, m: Marks, s: Sec, rela: Rela, t: Sec)
    requires ValidLink(l) && FollowedIn(l, m, s, rela) && IsSection(l.objects, s)
    requires Eh(l, t) ==> exists k ::
      0 <= k < |SectionAt(l.objects, s).relas| && SectionAt(l.objects, s).relas[k] == rela && !Leads(l, s, k, t)
    ensures FollowedIn(l, m.(forced := m.forced - {t}), s, rela)
  {
    RefersToExactly(l, Def(s.oi, rela.sym), t);
    hide ValidLink, RefersTo, SymbolSection, UndefinedName, Eh;
  }

  lemma UnforcedRoots(l: Link, m: Marks, t: Sec)
    requires ValidLink(l) && RootRule(l, m) && NamedRule(l, m) && (Asked(l, m, t) ==> !Eh(l, t))
    ensures RootRule(l, m.(forced := m.forced - {t})) && NamedRule(l, m.(forced := m.forced - {t}))
  {
    var n := m.(forced := m.forced - {t});
    forall s | IsSection(l.objects, s) && IsRoot(SectionAt(l.objects, s)) ensures Marked(l, n, s) {
      AlwaysKeptExactly(SectionAt(l.objects, s));
      assert Marked(l, m, s);
    }
    forall name | name in l.roots && NamedRoot(l, name).Some? ensures Marked(l, n, NamedRoot(l, name).value) {
      ResolvedExists(l.objects, l.globals, name);
      RefersToExactly(l, l.globals[name], NamedRoot(l, name).value);
      assert NamesRoot(l, name, NamedRoot(l, name).value);
      assert Marked(l, m, NamedRoot(l, name).value);
    }
  }

  lemma UnforcedSections(l: Link, m: Marks, t: Sec)
    requires ValidLink(l) && SectionRule(l, m, {}) && (Asked(l, m, t) ==> !Eh(l, t))
    ensures SectionRule(l, m.(forced := m.forced - {t}), {})
  {
    var n := m.(forced := m.forced - {t});
    hide ValidLink, FollowedIn, Eh;
    forall s | IsSection(l.objects, s) && s in n.live && !Eh(l, s) && s !in {} ensures SectionDone(l, n, s) {
      assert SectionDone(l, m, s);
      UnwindExactly(l, s);
      forall rela | rela in SectionAt(l.objects, s).relas ensures FollowedIn(l, n, s, rela) {
        var k :| 0 <= k < |SectionAt(l.objects, s).relas| && SectionAt(l.objects, s).relas[k] == rela;
        assert Eh(l, t) ==> !Leads(l, s, k, t);
        UnforcedFollowed(l, m, s, rela, t);
      }
    }
  }

  lemma UnforcedRecords(l: Link, m: Marks, t: Sec)
    requires ValidLink(l) && RecordRule(l, m, {}) && (Asked(l, m, t) ==> !Eh(l, t))
    ensures RecordRule(l, m.(forced := m.forced - {t}), {})
  {
    var n := m.(forced := m.forced - {t});
    hide ValidLink, FollowedIn, AlwaysKept, NamesRoot, Eh;
    forall r | IsRecord(l, r) && r in n.keep && r !in {} ensures RecordDone(l, n, r) {
      assert RecordDone(l, m, r);
      RecordSection(l, r);
      forall rela | rela in SectionAt(l.objects, r.sec).relas && InRecord(l, r, rela)
        ensures FollowedIn(l, n, r.sec, rela)
      {
        var k :| 0 <= k < |SectionAt(l.objects, r.sec).relas| && SectionAt(l.objects, r.sec).relas[k] == rela;
        assert Eh(l, t) ==> !LeadsIn(l, r, k, t);
        UnforcedFollowed(l, m, r.sec, rela, t);
      }
    }
  }

  /** No record is kept without a reason: its section is kept whole, its code is live, or a kept FDE names it. */
  lemma RecordForAReason(l: Link, m: Marks, r: Rec)
    requires ValidLink(l) && Least(l, m) && r in m.keep && IsRecord(l, r) && IsSection(l.objects, r.sec)
    ensures
      || r.sec in m.forced
      || (l.frames[r.sec][r.index].cie.Some? && exists t :: t in m.live && Describes(l, r, t))
      || exists f :: f in m.keep && IsRecord(l, f) && f.sec == r.sec && l.frames[f.sec][f.index].cie == Some(r.index)
  {
    hide ValidLink, Closed;
    if IsFde(l, r) && FdeTarget(l, r).Some? {
      DescribesExactly(l, r, FdeTarget(l, r).value);
    }
    FdeHasCie(l, r);
    hide FdeTarget, IsFde, Describes;
    ClosedUnkept(l, m, r);
  }

  lemma ClosedUnkept(l: Link, m: Marks, r: Rec)
    requires ValidLink(l) && Closed(l, m) && IsRecord(l, r)
    ensures !Wanted(l, m, r)
         && (forall f :: f in m.keep && IsRecord(l, f) && f.sec == r.sec ==>
               l.frames[f.sec][f.index].cie != Some(r.index))
      ==> Closed(l, m.(keep := m.keep - {r}))
  {
    hide ValidLink, Closed, Wanted;
    if !Wanted(l, m, r)
       && forall f :: f in m.keep && IsRecord(l, f) && f.sec == r.sec ==>
            l.frames[f.sec][f.index].cie != Some(r.index) {
      KeepRulesWithout(l, m, r);
    }
  }

  lemma FdeHasCie(l: Link, r: Rec)
    requires IsRecord(l, r)
    ensures IsFde(l, r) ==> l.frames[r.sec][r.index].cie.Some?
  {
  }

  lemma KeepRulesWithout(l: Link, m: Marks, r: Rec)
    requires ValidLink(l) && Closed(l, m) && IsRecord(l, r) && !Wanted(l, m, r)
    requires forall f :: f in m.keep && IsRecord(l, f) && f.sec == r.sec ==>
      l.frames[f.sec][f.index].cie != Some(r.index)
    ensures Closed(l, m.(keep := m.keep - {r}))
  {
    var n := m.(keep := m.keep - {r});
    RulesMono(l, m, n.(keep := m.keep));
    hide ValidLink, FdeTarget, IsFde, SymbolSection, UndefinedName, NamedRoot, IsRoot, Eh, InRecord;
    SameMarksFollow(l, m, n);
    assert RootRule(l, n) && NamedRule(l, n);
    forall f | IsRecord(l, f) && Wanted(l, n, f) ensures f in n.keep {
      assert Wanted(l, m, f);
    }
    forall f | IsRecord(l, f) && f in n.keep ensures Supported(l, n, f) {
      assert Supported(l, m, f);
    }
  }

  lemma SameMarksFollow(l: Link, m: Marks, n: Marks)
    requires ValidLink(l) && n == m.(keep := n.keep) && n.keep <= m.keep
    ensures SectionRule(l, m, {}) ==> SectionRule(l, n, {})
    ensures RecordRule(l, m, {}) ==> RecordRule(l, n, {})
  {
    hide ValidLink, SymbolSection, UndefinedName, Eh, InRecord;
    forall s, rela | FollowedIn(l, m, s, rela) ensures FollowedIn(l, n, s, rela) {
      assert forall t :: Marked(l, m, t) ==> Marked(l, n, t);
    }
    hide FollowedIn;
    if SectionRule(l, m, {}) {
      forall s | IsSection(l.objects, s) && s in n.live && !Eh(l, s) && s !in {} ensures SectionDone(l, n, s) {
        assert SectionDone(l, m, s);
      }
    }
    if RecordRule(l, m, {}) {
      forall r | IsRecord(l, r) && r in n.keep && r !in {} ensures RecordDone(l, n, r) {
        assert RecordDone(l, m, r);
      }
    }
  }

  // ---- what is recorded for the symbol tables ----------------------------------------------------------------------

  /** A relocation of a live ordinary section or of a kept record has this symbol. */
  ghost predicate Used(l: Link, m: Marks, d: Def) {
    || (exists s, k: nat :: s in m.live && IsSection(l.objects, s) && !Unwind(l, s) && HasSymbol(l, s, k, d))
    || (exists r, k: nat :: r in m.keep && IsRecord(l, r) && HasSymbol(l, r.sec, k, d)
          && l.frames[r.sec][r.index].start <= SectionAt(l.objects, r.sec).relas[k].offset
               < l.frames[r.sec][r.index].end)
  }

  ghost predicate HasSymbol(l: Link, s: Sec, k: nat, d: Def) {
    && IsSection(l.objects, s) && k < |SectionAt(l.objects, s).relas|
    && d == Def(s.oi, SectionAt(l.objects, s).relas[k].sym)
  }

  lemma UsedFollowed(l: Link, m: Marks, d: Def)
    requires ValidLink(l) && Closed(l, m) && Used(l, m, d)
    ensures Exists(l.objects, d) && Followed(l, m, d)
  {
    hide ValidLink, RootRule, NamedRule, FdeRule, KeepRule, Followed;
    if s, k: nat :| s in m.live && IsSection(l.objects, s) && !Unwind(l, s) && HasSymbol(l, s, k, d) {
      UnwindExactly(l, s);
      assert SectionDone(l, m, s);
      assert FollowedIn(l, m, s, SectionAt(l.objects, s).relas[k]);
    } else {
      var r, k: nat :| r in m.keep && IsRecord(l, r) && HasSymbol(l, r.sec, k, d)
        && l.frames[r.sec][r.index].start <= SectionAt(l.objects, r.sec).relas[k].offset < l.frames[r.sec][r.index].end;
      assert RecordDone(l, m, r);
      assert FollowedIn(l, m, r.sec, SectionAt(l.objects, r.sec).relas[k]);
    }
  }

  lemma UnusedFollowed(l: Link, m: Marks, s: Sec, rela: Rela, d: Def)
    requires ValidLink(l) && FollowedIn(l, m, s, rela) && Def(s.oi, rela.sym) != d
    ensures FollowedIn(l, m.(referenced := m.referenced - {d}), s, rela)
  {
    hide ValidLink, SymbolSection, UndefinedName;
  }

  lemma ClosedUnused(l: Link, m: Marks, d: Def)
    requires ValidLink(l) && Closed(l, m)
    ensures !Used(l, m, d) ==> Closed(l, m.(referenced := m.referenced - {d}))
  {
    var n := m.(referenced := m.referenced - {d});
    if !Used(l, m, d) {
      hide ValidLink, FdeTarget, IsFde, IsRoot, NamedRoot, FollowedIn, Eh, Unwind;
      forall s | IsSection(l.objects, s) && s in n.live && !Eh(l, s) && s !in {} ensures SectionDone(l, n, s) {
        assert SectionDone(l, m, s);
        UnwindExactly(l, s);
        forall rela | rela in SectionAt(l.objects, s).relas ensures FollowedIn(l, n, s, rela) {
          var k :| 0 <= k < |SectionAt(l.objects, s).relas| && SectionAt(l.objects, s).relas[k] == rela;
          assert !HasSymbol(l, s, k, d);
          UnusedFollowed(l, m, s, rela, d);
        }
      }
      forall r | IsRecord(l, r) && r in n.keep && r !in {} ensures RecordDone(l, n, r) {
        assert RecordDone(l, m, r);
        RecordSection(l, r);
        forall rela | rela in SectionAt(l.objects, r.sec).relas && InRecord(l, r, rela)
          ensures FollowedIn(l, n, r.sec, rela)
        {
          var k :| 0 <= k < |SectionAt(l.objects, r.sec).relas| && SectionAt(l.objects, r.sec).relas[k] == rela;
          assert !HasSymbol(l, r.sec, k, d);
          UnusedFollowed(l, m, r.sec, rela, d);
        }
      }
      UnusedRules(l, m, n);
    }
  }

  lemma UnusedRules(l: Link, m: Marks, n: Marks)
    requires ValidLink(l) && Closed(l, m) && n == m.(referenced := n.referenced, undefined := n.undefined)
    requires SectionRule(l, n, {}) && RecordRule(l, n, {})
    ensures Closed(l, n)
  {
    hide ValidLink, FdeTarget, IsFde, IsRoot, NamedRoot, SectionRule, RecordRule, Eh;
  }

  /** The referenced symbols are exactly those that what is kept uses. */
  lemma ReferencedExactly(l: Link, m: Marks, d: Def)
    requires ValidLink(l) && Least(l, m)
    ensures d in m.referenced <==> Used(l, m, d)
  {
    hide ValidLink, Closed, Used;
    ClosedUnused(l, m, d);
    if Used(l, m, d) {
      UsedFollowed(l, m, d);
    }
  }

  /** A strong undefined symbol that nothing defines and the linker does not provide. */
  ghost predicate Missing(l: Link, d: Def, name: string) {
    && Exists(l.objects, d)
    && var sym := l.objects[d.oi].symbols[d.si];
       && sym.shndx == 0 && sym.bind == 1 && sym.name == name
       && name != "" && name != "__tls_get_addr" && !ResolveMeaning.ByLinker(name) && name !in l.globals
  }

  lemma MissingExactly(l: Link, d: Def, name: string)
    requires Exists(l.objects, d)
    ensures Missing(l, d, name) <==> UndefinedName(l, d) == Some(name)
  {
    ResolveMeaning.ByLinkerExactly(name);
    hide LINKER_SYMS, ResolveMeaning.ByLinker;
  }

  lemma FoundFollowed(l: Link, m: Marks, s: Sec, rela: Rela, name: string)
    requires ValidLink(l) && FollowedIn(l, m, s, rela) && !Missing(l, Def(s.oi, rela.sym), name)
    ensures FollowedIn(l, m.(undefined := m.undefined - {name}), s, rela)
  {
    MissingExactly(l, Def(s.oi, rela.sym), name);
    hide ValidLink, SymbolSection, UndefinedName, Missing;
  }

  lemma ClosedFound(l: Link, m: Marks, name: string)
    requires ValidLink(l) && Closed(l, m)
    ensures (forall d :: d in m.referenced ==> !Missing(l, d, name)) ==>
      Closed(l, m.(undefined := m.undefined - {name}))
  {
    var n := m.(undefined := m.undefined - {name});
    if forall d :: d in m.referenced ==> !Missing(l, d, name) {
      forall s, rela | FollowedIn(l, m, s, rela) ensures FollowedIn(l, n, s, rela) {
        assert Def(s.oi, rela.sym) in m.referenced;
        FoundFollowed(l, m, s, rela, name);
      }
      hide ValidLink, FdeTarget, IsFde, IsRoot, NamedRoot, FollowedIn, Eh, Missing;
      forall s | IsSection(l.objects, s) && s in n.live && !Eh(l, s) && s !in {} ensures SectionDone(l, n, s) {
        assert SectionDone(l, m, s);
      }
      forall r | IsRecord(l, r) && r in n.keep && r !in {} ensures RecordDone(l, n, r) {
        assert RecordDone(l, m, r);
      }
      UnusedRules(l, m, n);
    }
  }

  lemma MissingRecorded(l: Link, m: Marks, d: Def, name: string)
    requires ValidLink(l) && Closed(l, m) && Used(l, m, d) && Missing(l, d, name)
    ensures name in m.undefined
  {
    UsedFollowed(l, m, d);
    MissingExactly(l, d, name);
    hide ValidLink, Closed, Used, UndefinedName, SymbolSection, Missing;
  }

  /** The undefined names are exactly those missing from what is kept. */
  lemma UndefinedExactly(l: Link, m: Marks, name: string)
    requires ValidLink(l) && Least(l, m)
    ensures name in m.undefined <==> exists d :: Used(l, m, d) && Missing(l, d, name)
  {
    hide ValidLink, Closed, Used, Missing;
    ClosedFound(l, m, name);
    forall d ensures d in m.referenced <==> Used(l, m, d) {
      ReferencedExactly(l, m, d);
    }
    forall d | Used(l, m, d) && Missing(l, d, name) ensures name in m.undefined {
      MissingRecorded(l, m, d, name);
    }
  }

  // ---- after application ------------------------------------------------------------------------------------------

  /** A followed symbol stands for the same definitions after GC. */
  lemma SameDefinition(l: Link, m: Marks, d: Def, e: Def)
    requires Ready(l, m) && Exists(l.objects, d) && d in m.referenced
    ensures StandsFor(l.objects, l.globals, d, e) <==> StandsFor(Applied(l, m), l.globals, d, e)
  {
    AppliedSymbol(l, m, d);
    hide Ready, Applied;
  }

  lemma SameSections(l: Link, m: Marks, e: Def)
    requires Ready(l, m) && Exists(l.objects, e)
    ensures var out := Applied(l, m);
      && Exists(out, e)
      && out[e.oi].symbols[e.si].value == l.objects[e.oi].symbols[e.si].value
      && out[e.oi].symbols[e.si].size == l.objects[e.oi].symbols[e.si].size
      && out[e.oi].symbols[e.si].shndx == l.objects[e.oi].symbols[e.si].shndx
      && out[e.oi].symbols[e.si].bind == l.objects[e.oi].symbols[e.si].bind
      && out[e.oi].symbols[e.si].section == Remap(m.live, e.oi, l.objects[e.oi].symbols[e.si].section)
  {
    AppliedSymbol(l, m, e);
    hide Ready, Applied;
  }

  /** It refers to the same sections, all of them live, at their new places and to nothing else. */
  lemma SameReferences(l: Link, m: Marks, d: Def, t: Sec)
    requires Ready(l, m) && Exists(l.objects, d) && Followed(l, m, d)
    ensures RefersTo(l.objects, l.globals, d, t) ==>
      t in m.live && RefersTo(Applied(l, m), l.globals, d, Sec(t.oi, NewIndex(m.live, t.oi, t.si)))
    ensures t in m.live && RefersTo(Applied(l, m), l.globals, d, Sec(t.oi, NewIndex(m.live, t.oi, t.si))) ==>
      RefersTo(l.objects, l.globals, d, t)
  {
    var out, new' := Applied(l, m), Sec(t.oi, NewIndex(m.live, t.oi, t.si));
    RefersToExactly(l, d, t);
    assert d in m.referenced && (SymbolSection(l, d) == Some(t) ==> t in m.live);
    hide SymbolSection, Followed;
    if RefersTo(l.objects, l.globals, d, t) {
      var e :| StandsFor(l.objects, l.globals, d, e) && Exists(l.objects, e) && e.oi == t.oi
        && l.objects[e.oi].symbols[e.si].section == Some(t.si);
      SameDefinition(l, m, d, e);
      SameSections(l, m, e);
      hide StandsFor, Applied, Ready;
      assert out[e.oi].symbols[e.si].section == Some(new'.si);
    }
    if t in m.live && RefersTo(out, l.globals, d, new') {
      var e :| StandsFor(out, l.globals, d, e) && Exists(out, e) && e.oi == t.oi
        && out[e.oi].symbols[e.si].section == Some(new'.si);
      SameDefinition(l, m, d, e);
      AppliedHas(l, m, e);
      SameSections(l, m, e);
      hide StandsFor, Applied, Ready;
      var section := l.objects[e.oi].symbols[e.si].section;
      OnePlace(m.live, t.oi, section.value, t.si);
    }
  }

  lemma AppliedHas(l: Link, m: Marks, e: Def)
    requires Ready(l, m) && Exists(Applied(l, m), e)
    ensures Exists(l.objects, e)
  {
    hide Ready;
  }

  lemma OnePlace(live: set<Sec>, oi: nat, i: nat, j: nat)
    requires Sec(oi, i) in live && Sec(oi, j) in live && NewIndex(live, oi, i) == NewIndex(live, oi, j)
    ensures i == j
  {
    hide NewIndex;
    if i < j {
      NewIndexOrder(live, oi, i, j);
    } else if j < i {
      NewIndexOrder(live, oi, j, i);
    }
  }

  /**
   * GC is safe, told by the symbol tables.  A relocation of a section after GC came from a live section, with the
   * same symbol; that symbol stands for the same definitions as before and refers to the same sections as before,
   * all of them live, at their new places.
   */
  lemma GcKeepsReferences(l: Link, m: Marks, oi: nat, k: nat, rela: Rela, e: Def, t: Sec) returns (s: Sec, was: Rela)
    requires Ready(l, m) && oi < |l.objects| && k < |Applied(l, m)[oi].sections|
    requires rela in Applied(l, m)[oi].sections[k].relas
    ensures IsSection(l.objects, s) && s.oi == oi && s in m.live && k == NewIndex(m.live, oi, s.si)
    ensures was in SectionAt(l.objects, s).relas && was.sym == rela.sym && was.rType == rela.rType
    ensures was.addend == rela.addend && (!Unwind(l, s) ==> was == rela)
    ensures var d := Def(oi, rela.sym);
      && (StandsFor(l.objects, l.globals, d, e) <==> StandsFor(Applied(l, m), l.globals, d, e))
      && (RefersTo(l.objects, l.globals, d, t) ==>
            t in m.live && RefersTo(Applied(l, m), l.globals, d, Sec(t.oi, NewIndex(m.live, t.oi, t.si))))
      && (t in m.live && RefersTo(Applied(l, m), l.globals, d, Sec(t.oi, NewIndex(m.live, t.oi, t.si))) ==>
            RefersTo(l.objects, l.globals, d, t))
  {
    s := FromSurvivor(l, m, oi, |l.objects[oi].sections|, k);
    was := SurvivingRela(l, m, s, rela);
    UnwindFrames(l, s);
    RelaExists(l, s, was);
    assert Followed(l, m, Def(oi, rela.sym));
    assert Def(oi, rela.sym) in m.referenced;
    hide Ready, Followed, Applied, StandsFor, RefersTo, Unwind;
    SameDefinition(l, m, Def(oi, rela.sym), e);
    SameReferences(l, m, Def(oi, rela.sym), t);
  }

  lemma UnwindFrames(l: Link, s: Sec)
    requires ValidLink(l)
    ensures Unwind(l, s) <==> s in l.frames
  {
    UnwindExactly(l, s);
    hide EhFrame.Parse, Unwind;
  }
}
