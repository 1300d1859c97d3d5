/** Applying section GC: `apply_gc_sections`. */
module GcApply {
  import opened Wrappers
  import opened Elf
  import opened Resolve
  import opened GcSections
  import EhFrame

  // ---- renumbering ----------------------------------------------------------

  /** How many of an object's first `n` sections are live: the new index of section `n`. */
  function NewIndex(live: set<Sec>, oi: nat, n: nat): nat {
    if n == 0 then 0 else NewIndex(live, oi, n - 1) + if Sec(oi, n - 1) in live then 1 else 0
  }

  /** Renumbering keeps the order of the surviving sections and never collides. */
  lemma {:induction false} NewIndexOrder(live: set<Sec>, oi: nat, i: nat, j: nat)
    requires i < j && Sec(oi, i) in live
    ensures NewIndex(live, oi, i) < NewIndex(live, oi, j)
    decreases j
  {
    if i + 1 < j {
      NewIndexOrder(live, oi, i, j - 1);
    }
  }

  function Remap(live: set<Sec>, oi: nat, section: Option<nat>): Option<nat> {
    if section.Some? && Sec(oi, section.value) in live then Some(NewIndex(live, oi, section.value)) else None
  }

  // ---- what application produces ---------------------------------------------------

  function Flags(l: Link, m: Marks, s: Sec): (keep: seq<bool>)
    requires s in l.frames
    ensures |keep| == |l.frames[s]|
  {
    seq(|l.frames[s]|, i requires 0 <= i < |l.frames[s]| => Rec(s, i) in m.keep)
  }

  lemma FlagsClosed(l: Link, m: Marks, s: Sec)
    requires ValidLink(l) && Closed(l, m) && s in l.frames
    ensures EhFrame.Closed(l.frames[s], Flags(l, m, s))
  {
    forall i | 0 <= i < |l.frames[s]| && Flags(l, m, s)[i] && l.frames[s][i].cie.Some?
      ensures l.frames[s][i].cie.value < |l.frames[s]| && Flags(l, m, s)[l.frames[s][i].cie.value]
    {
      CieRecord(l, Rec(s, i));
      assert Supported(l, m, Rec(s, i));
    }
  }

  ghost predicate Ready(l: Link, m: Marks) {
    ValidLink(l) && Closed(l, m)
  }

  /** A surviving section: an unwind section is compacted, any other is kept as it is. */
  ghost function Survivor(l: Link, m: Marks, s: Sec): Section
    requires Ready(l, m) && IsSection(l.objects, s)
  {
    var section := SectionAt(l.objects, s);
    if s !in l.frames then section else
    FlagsClosed(l, m, s);
    EhFrame.PruneSucceeds(section, l.frames[s], Flags(l, m, s));
    EhFrame.Pruned(section, l.frames[s], Flags(l, m, s))
  }

  ghost function Sections(l: Link, m: Marks, oi: nat, n: nat): (out: seq<Section>)
    requires Ready(l, m) && oi < |l.objects| && n <= |l.objects[oi].sections|
    ensures |out| == NewIndex(m.live, oi, n)
  {
    if n == 0 then [] else
    var before := Sections(l, m, oi, n - 1);
    if Sec(oi, n - 1) in m.live then before + [Survivor(l, m, Sec(oi, n - 1))] else before
  }

  function NewSymbol(m: Marks, d: Def, sym: Symbol): Symbol {
    sym.(section := Remap(m.live, d.oi, sym.section),
         name := if sym.shndx == SHN_UNDEF && d !in m.referenced then "" else sym.name)
  }

  ghost function NewObject(l: Link, m: Marks, oi: nat): Object
    requires Ready(l, m) && oi < |l.objects|
  {
    var o := l.objects[oi];
    Object(o.name, Sections(l, m, oi, |o.sections|),
           seq(|o.symbols|, si requires 0 <= si < |o.symbols| => NewSymbol(m, Def(oi, si), o.symbols[si])))
  }

  ghost function Applied(l: Link, m: Marks): (out: seq<Object>)
    requires Ready(l, m)
    ensures |out| == |l.objects|
  {
    seq(|l.objects|, oi requires 0 <= oi < |l.objects| => NewObject(l, m, oi))
  }

  // ---- the pass -----------------------------------------------------------------------

  /** `apply_gc_sections`; with closed marks the compactor never fails. */
  method ApplyGc(l: Link, m: Marks) returns (out: seq<Object>)
    requires Ready(l, m)
    ensures out == Applied(l, m)
  {
    hide Ready;
    out := [];
    for oi := 0 to |l.objects|
      invariant |out| == oi && forall k :: 0 <= k < oi ==> out[k] == NewObject(l, m, k)
    {
      var next := ApplyObject(l, m, oi);
      out := out + [next];
    }
  }

  method ApplyObject(l: Link, m: Marks, oi: nat) returns (out: Object)
    requires Ready(l, m) && oi < |l.objects|
    ensures out == NewObject(l, m, oi)
  {
    hide Ready, Survivor, NewSymbol;
    var o := l.objects[oi];
    var sections: seq<Section> := [];
    var remap: seq<Option<nat>> := [];
    for si := 0 to |o.sections|
      invariant sections == Sections(l, m, oi, si)
      invariant |remap| == si && forall k :: 0 <= k < si ==> remap[k] == Remap(m.live, oi, Some(k))
    {
      if Sec(oi, si) in m.live {
        remap := remap + [Some(|sections|)];
        var survivor := Survive(l, m, Sec(oi, si));
        sections := sections + [survivor];
      } else {
        remap := remap + [None];
      }
    }
    var symbols: seq<Symbol> := [];
    for si := 0 to |o.symbols|
      invariant |symbols| == si && forall k :: 0 <= k < si ==> symbols[k] == NewSymbol(m, Def(oi, k), o.symbols[k])
    {
      var sym := o.symbols[si];
      SymbolInRange(l, m, Def(oi, si));
      if sym.section.Some? {
        sym := sym.(section := remap[sym.section.value]);
      }
      if sym.shndx == SHN_UNDEF && Def(oi, si) !in m.referenced {
        sym := sym.(name := "");
      }
      NewSymbolIs(m, Def(oi, si), o.symbols[si], sym, remap);
      symbols := symbols + [sym];
    }
    out := Object(o.name, sections, symbols);
  }

  method Survive(l: Link, m: Marks, s: Sec) returns (out: Section)
    requires Ready(l, m) && IsSection(l.objects, s)
    ensures out == Survivor(l, m, s)
  {
    var section := SectionAt(l.objects, s);
    if s !in l.frames {
      return section;
    }
    FlagsClosed(l, m, s);
    EhFrame.PruneSucceeds(section, l.frames[s], Flags(l, m, s));
    hide EhFrame.Pruned, EhFrame.Closed, EhFrame.Compactable, EhFrame.PointersFit, Ready;
    var pruned := EhFrame.PruneEhFrame(section, l.frames[s], Flags(l, m, s));
    out := pruned.value;
  }

  lemma SymbolInRange(l: Link, m: Marks, d: Def)
    requires Ready(l, m) && Exists(l.objects, d)
    ensures SymbolAt(l.objects, d).section.Some? ==> SymbolAt(l.objects, d).section.value < |l.objects[d.oi].sections|
  {
    assert l.objects[d.oi] in l.objects && SymbolAt(l.objects, d) in l.objects[d.oi].symbols;
  }

  lemma NewSymbolIs(m: Marks, d: Def, sym: Symbol, out: Symbol, remap: seq<Option<nat>>)
    requires forall k :: 0 <= k < |remap| ==> remap[k] == Remap(m.live, d.oi, Some(k))
    requires sym.section.Some? ==> sym.section.value < |remap|
    requires out == sym.(section := if sym.section.Some? then remap[sym.section.value] else None,
                         name := if sym.shndx == SHN_UNDEF && d !in m.referenced then "" else sym.name)
    ensures out == NewSymbol(m, d, sym)
  {
  }

  // ---- safety ---------------------------------------------------------------------------

  lemma {:induction false} SurvivorAt(l: Link, m: Marks, s: Sec, n: nat)
    requires Ready(l, m) && IsSection(l.objects, s) && s in m.live && s.si < n <= |l.objects[s.oi].sections|
    ensures NewIndex(m.live, s.oi, s.si) < NewIndex(m.live, s.oi, n)
    ensures Sections(l, m, s.oi, n)[NewIndex(m.live, s.oi, s.si)] == Survivor(l, m, s)
    decreases n
  {
    hide Ready, Survivor;
    NewIndexOrder(m.live, s.oi, s.si, n);
    if s.si < n - 1 {
      SurvivorAt(l, m, s, n - 1);
    }
  }

  /** Every section after GC is a survivor, at its renumbered place. */
  lemma {:induction false} FromSurvivor(l: Link, m: Marks, oi: nat, n: nat, k: nat) returns (s: Sec)
    requires Ready(l, m) && oi < |l.objects| && n <= |l.objects[oi].sections| && k < NewIndex(m.live, oi, n)
    ensures IsSection(l.objects, s) && s.oi == oi && s.si < n && s in m.live && NewIndex(m.live, oi, s.si) == k
    ensures Sections(l, m, oi, n)[k] == Survivor(l, m, s)
    decreases n
  {
    hide Ready, Survivor;
    if k < NewIndex(m.live, oi, n - 1) {
      s := FromSurvivor(l, m, oi, n - 1, k);
    } else {
      s := Sec(oi, n - 1);
    }
  }

  lemma AppliedSymbol(l: Link, m: Marks, d: Def)
    requires Ready(l, m) && Exists(l.objects, d)
    ensures Exists(Applied(l, m), d)
    ensures SymbolAt(Applied(l, m), d) == NewSymbol(m, d, SymbolAt(l.objects, d))
  {
    hide Ready;
  }

  /** Resolution gives the same map before and after. */
  lemma GcKeepsResolution(l: Link, m: Marks, g: Globals)
    requires Ready(l, m)
    ensures Resolves(l.objects, g) <==> Resolves(Applied(l, m), g)
  {
    var out := Applied(l, m);
    forall d | Exists(l.objects, d)
      ensures Exists(out, d) && SameDefinitions(SymbolAt(l.objects, d), SymbolAt(out, d))
    {
      AppliedSymbol(l, m, d);
    }
    assert SameObjects(l.objects, out) by {
      hide Ready, Exists, SameDefinitions;
    }
    hide SameObjects, Resolves, Ready;
    ResolveSame(l.objects, out, g);
  }

  /** A followed symbol stands for the same definition after GC, and that definition's
      section, if it had one, survived at its renumbered place. */
  ghost predicate SameTarget(l: Link, m: Marks, out: seq<Object>, d: Def)
    requires ValidLink(l) && Exists(l.objects, d)
  {
    && Exists(out, d)
    && Definition(out, l.globals, d) == Definition(l.objects, l.globals, d)
    && var def := Definition(l.objects, l.globals, d);
       def.Some? ==>
         && Exists(l.objects, def.value) && Exists(out, def.value)
         && match SymbolAt(l.objects, def.value).section
            case None => SymbolAt(out, def.value).section.None?
            case Some(si) =>
              && Sec(def.value.oi, si) in m.live
              && SymbolAt(out, def.value).section == Some(NewIndex(m.live, def.value.oi, si))
  }

  lemma FollowedKeepsTarget(l: Link, m: Marks, d: Def)
    requires Ready(l, m) && Exists(l.objects, d) && Followed(l, m, d)
    ensures SameTarget(l, m, Applied(l, m), d)
  {
    var out := Applied(l, m);
    AppliedSymbol(l, m, d);
    DefinitionExists(l, d);
    var def := Definition(l.objects, l.globals, d);
    if def.Some? {
      AppliedSymbol(l, m, def.value);
    }
    hide Ready, Applied, ValidLink;
  }

  /** GC application is safe.  Each section after GC is a live one at its renumbered place,
      and each of its relocations came, with the same symbol, from that section's and
      stands for the same surviving definition as before. */
  lemma GcIsSafe(l: Link, m: Marks, oi: nat, k: nat, rela: Rela) returns (s: Sec, was: Rela)
    requires Ready(l, m) && oi < |l.objects| && k < |Applied(l, m)[oi].sections|
    requires rela in Applied(l, m)[oi].sections[k].relas
    ensures IsSection(l.objects, s) && s.oi == oi && s in m.live && k == NewIndex(m.live, oi, s.si)
    ensures was in SectionAt(l.objects, s).relas && was.sym == rela.sym && was.rType == rela.rType
    ensures was.addend == rela.addend
    ensures s !in l.frames ==> was == rela
    ensures Exists(l.objects, Def(oi, rela.sym)) && SameTarget(l, m, Applied(l, m), Def(oi, rela.sym))
  {
    s := FromSurvivor(l, m, oi, |l.objects[oi].sections|, k);
    was := SurvivingRela(l, m, s, rela);
    RelaExists(l, s, was);
    assert Followed(l, m, Def(oi, rela.sym));
    hide Ready, Followed, SameTarget, Applied;
    FollowedKeepsTarget(l, m, Def(oi, rela.sym));
  }

  /** A surviving section's relocations were all followed. */
  lemma SurvivingRela(l: Link, m: Marks, s: Sec, rela: Rela) returns (was: Rela)
    requires Ready(l, m) && IsSection(l.objects, s) && s in m.live && rela in Survivor(l, m, s).relas
    ensures was in SectionAt(l.objects, s).relas && was.sym == rela.sym && was.rType == rela.rType
    ensures was.addend == rela.addend
    ensures s !in l.frames ==> was == rela
    ensures FollowedIn(l, m, s, was)
  {
    if s !in l.frames {
      was := rela;
      assert SectionDone(l, m, s);
    } else {
      var records, keep := l.frames[s], Flags(l, m, s);
      was := EhFrame.MovedFrom(records, keep, SectionAt(l.objects, s).relas, rela);
      var i := EhFrame.RecordAt(records, was.offset).value;
      assert keep[i];
      var r := Rec(s, i);
      assert RecordDone(l, m, r) && InRecord(l, r, was);
    }
  }
}
