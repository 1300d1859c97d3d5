/** Which definition of a name wins, told by bindings, sizes and link order. */
module ResolveMeaning {
  import opened Wrappers
  import opened Elf
  import opened Resolve

  // ---- definitions of a name ----------------------------------------------------------------------------

  /** A named symbol that is neither local nor undefined. */
  ghost predicate Defining(objects: seq<Object>, name: string, d: Def) {
    && d.oi < |objects| && d.si < |objects[d.oi].symbols|
    && var sym := objects[d.oi].symbols[d.si];
       name != "" && sym.name == name && sym.bind != 0 && sym.shndx != 0
  }

  function Sym(objects: seq<Object>, d: Def): Symbol
    requires d.oi < |objects| && d.si < |objects[d.oi].symbols|
  {
    objects[d.oi].symbols[d.si]
  }

  /** Link order: objects in order, symbols in order. */
  predicate Earlier(a: Def, b: Def) { a.oi < b.oi || (a.oi == b.oi && a.si < b.si) }

  predicate IsCommon(sym: Symbol) { sym.shndx == 0xfff2 }

  predicate IsStrong(sym: Symbol) { sym.shndx != 0xfff2 && sym.bind == 1 }

  predicate IsWeak(sym: Symbol) { sym.shndx != 0xfff2 && sym.bind == 2 }

  /** A binding such as STB_GNU_UNIQUE. */
  predicate Unusual(sym: Symbol) { sym.shndx != 0xfff2 && sym.bind != 1 && sym.bind != 2 }

  function Alignment(sym: Symbol): nat { if sym.value == 0 then 1 else sym.value }

  ghost predicate First(objects: seq<Object>, name: string, f: Def) {
    Defining(objects, name, f) && forall d :: Defining(objects, name, d) ==> d == f || Earlier(f, d)
  }

  ghost predicate HasStrong(objects: seq<Object>, name: string) {
    exists d :: Defining(objects, name, d) && IsStrong(Sym(objects, d))
  }

  ghost predicate HasCommon(objects: seq<Object>, name: string) {
    exists d :: Defining(objects, name, d) && IsCommon(Sym(objects, d))
  }

  /** The largest COMMON symbol of the name, then the most aligned, then the first. */
  ghost predicate BestCommon(objects: seq<Object>, name: string, w: Def) {
    && Defining(objects, name, w) && IsCommon(Sym(objects, w))
    && forall c :: Defining(objects, name, c) && IsCommon(Sym(objects, c)) ==>
         var x, y := Sym(objects, c), Sym(objects, w);
         || x.size < y.size
         || (x.size == y.size && Alignment(x) < Alignment(y))
         || (x.size == y.size && Alignment(x) == Alignment(y) && (c == w || Earlier(w, c)))
  }

  ghost predicate FirstWeak(objects: seq<Object>, name: string, w: Def) {
    && Defining(objects, name, w) && IsWeak(Sym(objects, w))
    && forall d :: Defining(objects, name, d) && IsWeak(Sym(objects, d)) ==> d == w || Earlier(w, d)
  }

  /**
   * The definition that wins.  A name first defined with an unusual binding keeps that definition; otherwise a
   * strong definition wins, else the best COMMON symbol, else the first weak definition.
   */
  ghost predicate Chosen(objects: seq<Object>, name: string, w: Def) {
    exists f :: First(objects, name, f) &&
      if Unusual(Sym(objects, f)) then w == f
      else if HasStrong(objects, name) then Defining(objects, name, w) && IsStrong(Sym(objects, w))
      else if HasCommon(objects, name) then BestCommon(objects, name, w)
      else FirstWeak(objects, name, w)
  }

  /** Two strong definitions, the first definition being of a usual binding. */
  ghost predicate Duplicated(objects: seq<Object>, name: string) {
    && (exists f :: First(objects, name, f) && !Unusual(Sym(objects, f)))
    && exists a, b :: a != b && Defining(objects, name, a) && Defining(objects, name, b)
         && IsStrong(Sym(objects, a)) && IsStrong(Sym(objects, b))
  }

  lemma DefiningExactly(objects: seq<Object>, name: string, d: Def)
    ensures Defining(objects, name, d) <==> Candidate(objects, End(objects), name, d)
  {
  }

  lemma KindsExactly(sym: Symbol)
    ensures IsCommon(sym) <==> Common(sym)
    ensures IsStrong(sym) <==> Strong(sym)
    ensures IsWeak(sym) <==> Weak(sym)
    ensures Unusual(sym) <==> Odd(sym)
    ensures Alignment(sym) == CommonAlign(sym)
  {
  }

  lemma FirstExactly(objects: seq<Object>, name: string, f: Def)
    ensures First(objects, name, f) <==> Opens(objects, End(objects), name, f)
  {
    forall d ensures Defining(objects, name, d) <==> Candidate(objects, End(objects), name, d) {
      DefiningExactly(objects, name, d);
    }
    hide Defining, Candidate;
  }

  lemma DuplicatedExactly(objects: seq<Object>, name: string)
    ensures Duplicated(objects, name) <==> Clash(objects, End(objects), name)
  {
    if Duplicated(objects, name) {
      var f :| First(objects, name, f) && !Unusual(Sym(objects, f));
      FirstExactly(objects, name, f);
      KindsExactly(Sym(objects, f));
      var a, b :| a != b && Defining(objects, name, a) && Defining(objects, name, b)
         && IsStrong(Sym(objects, a)) && IsStrong(Sym(objects, b));
      DefiningExactly(objects, name, a);
      DefiningExactly(objects, name, b);
      ClashOf(objects, End(objects), name, f, a, b);
    }
    if Clash(objects, End(objects), name) {
      var f :| Opens(objects, End(objects), name, f) && !Odd(SymbolAt(objects, f));
      FirstExactly(objects, name, f);
      var a, b :| Candidate(objects, End(objects), name, a) && Candidate(objects, End(objects), name, b)
         && a != b && Strong(SymbolAt(objects, a)) && Strong(SymbolAt(objects, b));
      DefiningExactly(objects, name, a);
      DefiningExactly(objects, name, b);
      DuplicatedOf(objects, name, f, a, b);
    }
  }

  lemma DuplicatedOf(objects: seq<Object>, name: string, f: Def, a: Def, b: Def)
    requires First(objects, name, f) && !Odd(SymbolAt(objects, f)) && a != b
    requires Defining(objects, name, a) && Defining(objects, name, b)
    requires Strong(SymbolAt(objects, a)) && Strong(SymbolAt(objects, b))
    ensures Duplicated(objects, name)
  {
    KindsExactly(SymbolAt(objects, f));
    KindsExactly(SymbolAt(objects, a));
    KindsExactly(SymbolAt(objects, b));
    hide IsStrong, Strong, Odd, Unusual;
  }

  /** The closed form of the fold chooses what the rules say. */
  lemma WinsIsChosen(objects: seq<Object>, name: string, w: Def)
    requires Wins(objects, End(objects), name, w)
    ensures Chosen(objects, name, w)
  {
    var f :| Opens(objects, End(objects), name, f) &&
      if Odd(SymbolAt(objects, f)) then w == f else Best(objects, End(objects), name, w);
    FirstExactly(objects, name, f);
    KindsExactly(Sym(objects, f));
    hide Opens, First;
    if !Odd(SymbolAt(objects, f)) {
      BestIsChosen(objects, name, w);
    }
  }

  lemma BestIsChosen(objects: seq<Object>, name: string, w: Def)
    requires Best(objects, End(objects), name, w)
    ensures if HasStrong(objects, name) then Defining(objects, name, w) && IsStrong(Sym(objects, w))
      else if HasCommon(objects, name) then BestCommon(objects, name, w)
      else FirstWeak(objects, name, w)
  {
    forall d ensures Defining(objects, name, d) <==> Candidate(objects, End(objects), name, d) {
      DefiningExactly(objects, name, d);
    }
    assert forall d :: Exists(objects, d) ==> Sym(objects, d) == SymbolAt(objects, d);
    hide Candidate, End;
    if HasStrong(objects, name) {
      var d :| Defining(objects, name, d) && IsStrong(Sym(objects, d));
    } else if HasCommon(objects, name) {
      var d :| Defining(objects, name, d) && IsCommon(Sym(objects, d));
    }
  }

  /** Without duplicates the rules choose one definition. */
  lemma ChosenUnique(objects: seq<Object>, name: string, v: Def, w: Def)
    requires Chosen(objects, name, v) && Chosen(objects, name, w) && !Duplicated(objects, name)
    ensures v == w
  {
    var f :| First(objects, name, f) &&
      if Unusual(Sym(objects, f)) then v == f
      else if HasStrong(objects, name) then Defining(objects, name, v) && IsStrong(Sym(objects, v))
      else if HasCommon(objects, name) then BestCommon(objects, name, v)
      else FirstWeak(objects, name, v);
    var h :| First(objects, name, h) &&
      if Unusual(Sym(objects, h)) then w == h
      else if HasStrong(objects, name) then Defining(objects, name, w) && IsStrong(Sym(objects, w))
      else if HasCommon(objects, name) then BestCommon(objects, name, w)
      else FirstWeak(objects, name, w);
    assert f == h;
    hide Defining, Alignment, HasStrong, HasCommon;
  }

  /** Coalescing fails exactly on duplicates; otherwise it maps exactly the defined names, each as chosen. */
  lemma CoalesceMeans(objects: seq<Object>)
    ensures Coalesce(objects).Err? <==> exists name :: Duplicated(objects, name)
    ensures Coalesce(objects).Ok? ==> forall name ::
      && (name in Coalesce(objects).value <==> exists d :: Defining(objects, name, d))
      && (name in Coalesce(objects).value ==> Chosen(objects, name, Coalesce(objects).value[name]))
  {
    CoalesceClosedForm(objects);
    forall name ensures Duplicated(objects, name) <==> Clash(objects, End(objects), name) {
      DuplicatedExactly(objects, name);
    }
    hide Coalesce, Duplicated, Clash, Chosen;
    if Coalesce(objects).Ok? {
      var g := Coalesce(objects).value;
      forall name
        ensures name in g <==> exists d :: Defining(objects, name, d)
        ensures name in g ==> Chosen(objects, name, g[name])
      {
        if name in g {
          assert Wins(objects, End(objects), name, g[name]);
          WinsIsChosen(objects, name, g[name]);
          WinnerDefines(objects, name, g[name]);
        }
        forall d | Defining(objects, name, d) ensures name in g {
          DefiningExactly(objects, name, d);
        }
      }
    }
  }

  lemma WinnerDefines(objects: seq<Object>, name: string, w: Def)
    requires Wins(objects, End(objects), name, w)
    ensures Defining(objects, name, w)
  {
    DefiningExactly(objects, name, w);
  }

  // ---- names the linker provides -------------------------------------------------------------------------

  /** Bounds of the start and exit arrays and of IRELATIVE relocations, the headers, the GOT, the ends of sections. */
  predicate ByLinker(name: string) {
    || name == "__preinit_array_start" || name == "__preinit_array_end"
    || name == "__init_array_start" || name == "__init_array_end"
    || name == "__fini_array_start" || name == "__fini_array_end"
    || name == "__rela_iplt_start" || name == "__rela_iplt_end"
    || name == "__ehdr_start" || name == "_GLOBAL_OFFSET_TABLE_"
    || name == "__bss_start" || name == "_edata" || name == "_end"
  }

  lemma ByLinkerExactly(name: string)
    ensures ByLinker(name) <==> name in LINKER_SYMS
  {
  }

  // ---- versions ------------------------------------------------------------------------------------------

  /** `full` is a version of `base`: `base@..`. */
  ghost predicate IsVersion(full: string, base: string) {
    '@' !in base && exists rest: string :: full == base + "@" + rest
  }

  lemma {:induction false} FindAtFirst(base: string, rest: string)
    requires '@' !in base
    ensures FindAt(base + "@" + rest) == Some(|base|)
  {
    var full := base + "@" + rest;
    if base == "" {
      assert full[0] == '@';
    } else {
      assert full[0] == base[0] && full[1..] == base[1..] + "@" + rest;
      FindAtFirst(base[1..], rest);
    }
  }

  lemma {:induction false} FindAtBase(full: string)
    ensures var k := FindAt(full);
      k.Some? ==> '@' !in full[..k.value] && full == full[..k.value] + "@" + full[k.value + 1..]
  {
    var k := FindAt(full);
    if k.Some? && full[0] != '@' {
      FindAtBase(full[1..]);
      assert full[..k.value] == [full[0]] + full[1..][..k.value - 1];
    }
  }

  lemma IsVersionExactly(full: string, base: string)
    ensures IsVersion(full, base) <==> VersionOf(full, base)
  {
    hide FindAt;
    if IsVersion(full, base) {
      var rest: string :| full == base + "@" + rest;
      FindAtFirst(base, rest);
    }
    if VersionOf(full, base) {
      FindAtBase(full);
      assert full == base + "@" + full[FindAt(full).value + 1..];
    }
  }

  /** `full` is the default version of `base`: `base@@..`. */
  ghost predicate IsDefaultVersion(full: string, base: string) {
    exists rest: string :: full == base + "@@" + rest
  }

  lemma DefaultExactly(full: string, name: string)
    requires IsVersion(full, name)
    ensures FindAt(full).Some?
    ensures IsDefault(full) <==> IsDefaultVersion(full, name)
  {
    var rest: string :| full == name + "@" + rest;
    FindAtFirst(name, rest);
    assert full[|name|] == '@';
    if IsDefault(full) {
      assert rest[0] == '@' && full == name + "@@" + rest[1..];
    }
  }

  /** `full` answers for `base`: default versions before others, then link order. */
  ghost predicate AnswersFor(g: Globals, base: string, full: string) {
    && full in g && IsVersion(full, base)
    && forall other :: other in g && IsVersion(other, base) ==>
         || (IsDefaultVersion(full, base) && !IsDefaultVersion(other, base))
         || ((IsDefaultVersion(full, base) <==> IsDefaultVersion(other, base))
             && (g[full] == g[other] || Earlier(g[full], g[other])))
  }

  lemma AnswersExactly(g: Globals, base: string, full: string)
    ensures AnswersFor(g, base, full) <==> Answers(g, base, full)
  {
    forall x: string
      ensures IsVersion(x, base) <==> VersionOf(x, base)
      ensures IsVersion(x, base) ==> FindAt(x).Some? && (IsDefault(x) <==> IsDefaultVersion(x, base))
    {
      IsVersionExactly(x, base);
      if IsVersion(x, base) {
        DefaultExactly(x, base);
      }
    }
    hide IsVersion, IsDefaultVersion, IsDefault, FindAt;
    assert forall x: string :: VersionOf(x, base) ==> FindAt(x).Some? && x[..FindAt(x).value] == base;
    hide VersionOf;
  }

  /**
   * What resolution returns: chosen definitions keep their names, and a name without a definition of its own
   * goes to the version that answers for it, if there is one.
   */
  lemma ResolveMeans(objects: seq<Object>, out: Globals, name: string)
    requires Resolves(objects, out)
    ensures (exists d :: Defining(objects, name, d)) ==> name in out && Chosen(objects, name, out[name])
    ensures (forall d :: !Defining(objects, name, d)) ==>
      var g := Coalesce(objects).value;
      && (name in out <==> exists full :: full in g && IsVersion(full, name))
      && (name in out ==> exists full :: AnswersFor(g, name, full) && out[name] == g[full])
  {
    CoalesceMeans(objects);
    var g := Coalesce(objects).value;
    hide Coalesce, Defining, Chosen, Duplicated;
    forall full ensures AnswersFor(g, name, full) <==> Answers(g, name, full)
                ensures IsVersion(full, name) <==> VersionOf(full, name) {
      AnswersExactly(g, name, full);
      IsVersionExactly(full, name);
    }
    hide IsVersion, VersionOf;
    if name in out && name !in g {
      var full :| Answers(g, name, full) && out[name] == g[full];
      assert AnswersFor(g, name, full);
      assert full in g && IsVersion(full, name);
    }
  }
}
