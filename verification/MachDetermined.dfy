/** The Mach-O layout as a function: nothing in it is left to chance. */
module MachDetermined {
  import opened Arith
  import opened MachLayout
  import opened MachBuild

  // ---- the order of sections ------------------------------------------------------------------------------

  lemma CompareItself(kind: Kind, s: Section)
    ensures Compare(kind, s, s) == 0
  {
    CompareSelf(s.segment);
    CompareSelf(s.name);
    hide CompareNames, Position, SectionOrder, StandardNames;
  }

  /** Everything tied to `t` comes from the list. */
  lemma {:induction false} TiedFrom(kind: Kind, sections: seq<Section>, t: Section, x: Section)
    ensures x in TiedTo(kind, sections, t) <==> x in sections && Compare(kind, x, t) == 0
  {
    hide Compare;
    if sections != [] {
      assert sections == [sections[0]] + sections[1..];
      TiedFrom(kind, sections[1..], t, x);
    }
  }

  lemma TiesMembers(kind: Kind, a: seq<Section>, b: seq<Section>, x: Section)
    requires SameTies(kind, a, b) && x in a
    ensures x in b
  {
    hide Compare, TiedTo;
    CompareItself(kind, x);
    TiedFrom(kind, a, x, x);
    TiedFrom(kind, b, x, x);
  }

  lemma HeadFirstOf(kind: Kind, sorted: seq<Section>, x: Section)
    requires SortedSections(kind, sorted) && x in sorted
    ensures Compare(kind, sorted[0], x) <= 0
  {
    if x == sorted[0] {
      CompareItself(kind, x);
    } else {
      hide Compare;
      assert sorted == [sorted[0]] + sorted[1..];
      HeadFirst(kind, sorted, x);
    }
  }

  lemma SameHeads(kind: Kind, a: seq<Section>, b: seq<Section>)
    requires SortedSections(kind, a) && SortedSections(kind, b) && SameTies(kind, a, b) && a != [] && b != []
    ensures a[0] == b[0]
  {
    hide *;
    var x, y := a[0], b[0];
    TiesMembers(kind, a, b, x);
    TiesSymmetric(kind, a, b);
    TiesMembers(kind, b, a, y);
    HeadFirstOf(kind, a, y);
    HeadFirstOf(kind, b, x);
    CompareTotal(kind, y, x);
    CompareItself(kind, x);
    assert a == [x] + a[1..] && b == [y] + b[1..];
    TiedCons(kind, x, a[1..], x);
    TiedCons(kind, y, b[1..], x);
    TiesAt(kind, a, b, x);
    assert TiedTo(kind, a, x)[0] == x && TiedTo(kind, b, x)[0] == y;
  }

  lemma TiesSymmetric(kind: Kind, a: seq<Section>, b: seq<Section>)
    requires SameTies(kind, a, b)
    ensures SameTies(kind, b, a)
  {
    hide TiedTo;
  }

  lemma TiesAt(kind: Kind, a: seq<Section>, b: seq<Section>, t: Section)
    requires SameTies(kind, a, b)
    ensures TiedTo(kind, a, t) == TiedTo(kind, b, t)
  {
    hide TiedTo;
  }

  lemma TiesTail(kind: Kind, a: seq<Section>, b: seq<Section>)
    requires SameTies(kind, a, b) && a != [] && b != [] && a[0] == b[0]
    ensures SameTies(kind, a[1..], b[1..])
  {
    hide TiedTo, Compare;
    assert a == [a[0]] + a[1..] && b == [b[0]] + b[1..];
    forall t ensures TiedTo(kind, a[1..], t) == TiedTo(kind, b[1..], t) {
      TiedCons(kind, a[0], a[1..], t);
      TiedCons(kind, b[0], b[1..], t);
      var n := if Compare(kind, a[0], t) == 0 then 1 else 0;
      assert TiedTo(kind, a, t)[n..] == TiedTo(kind, a[1..], t);
      assert TiedTo(kind, b, t)[n..] == TiedTo(kind, b[1..], t);
    }
  }

  lemma TiesNothing(kind: Kind, b: seq<Section>)
    requires SameTies(kind, [], b)
    ensures b == []
  {
    hide *;
    TiesSymmetric(kind, [], b);
    if b != [] {
      TiesMembers(kind, b, [], b[0]);
    }
  }

  /** A stable sort has one result. */
  lemma {:induction false} StableSortUnique(kind: Kind, a: seq<Section>, b: seq<Section>)
    requires SortedSections(kind, a) && SortedSections(kind, b) && SameTies(kind, a, b)
    ensures a == b
    decreases |a|
  {
    hide *;
    if a == [] {
      TiesNothing(kind, b);
    } else if b == [] {
      TiesSymmetric(kind, a, b);
      TiesNothing(kind, a);
    } else {
      SameHeads(kind, a, b);
      TiesTail(kind, a, b);
      TailSorted(kind, a);
      TailSorted(kind, b);
      StableSortUnique(kind, a[1..], b[1..]);
      assert a == [a[0]] + a[1..] && b == [b[0]] + b[1..];
    }
  }

  // ---- the inside of a section ------------------------------------------------------------------------------

  lemma BareAtoms(a: Section, b: Section, i: nat)
    requires Bare(a) == Bare(b) && i < |a.atoms|
    ensures |a.atoms| == |b.atoms| && a.atoms[i].(offset := 0) == b.atoms[i].(offset := 0)
  {
    assert |Bare(a).atoms| == |a.atoms| && |Bare(b).atoms| == |b.atoms|;
    assert Bare(a).atoms[i] == a.atoms[i].(offset := 0) && Bare(b).atoms[i] == b.atoms[i].(offset := 0);
  }

  lemma {:induction false} OffsetsSame(a: Section, b: Section, i: nat)
    requires Bare(a) == Bare(b) && Tight(a.atoms) && Tight(b.atoms) && i < |a.atoms|
    ensures |a.atoms| == |b.atoms| && a.atoms[i] == b.atoms[i]
  {
    hide *;
    BareAtoms(a, b, i);
    TightAt(a.atoms, i);
    TightAt(b.atoms, i);
    if i > 0 {
      OffsetsSame(a, b, i - 1);
    }
    EndsSame(a.atoms, b.atoms, i);
  }

  lemma TightAt(atoms: seq<Placed>, i: nat)
    requires Tight(atoms) && i < |atoms|
    ensures atoms[i].offset == RoundUp(EndOf(atoms, i), atoms[i].alignPow)
  {
    hide RoundUp;
  }

  lemma EndsSame(a: seq<Placed>, b: seq<Placed>, i: nat)
    requires i < |a| == |b| && (i > 0 ==> a[i - 1] == b[i - 1])
    ensures EndOf(a, i) == EndOf(b, i)
  {
  }

  /** What filling writes is determined by the rest. */
  lemma FilledUnique(a: Section, b: Section)
    requires Bare(a) == Bare(b) && Filled(a) && Filled(b)
    ensures SameShape(a, b)
  {
    assert |Bare(a).atoms| == |a.atoms| && |Bare(b).atoms| == |b.atoms|;
    forall i | 0 <= i < |a.atoms| ensures a.atoms[i] == b.atoms[i] {
      OffsetsSame(a, b, i);
    }
    assert a.atoms == b.atoms;
    hide Tight, Packed, RoundUp;
  }

  lemma SkeletonUnique(a: seq<Section>, b: seq<Section>)
    requires Bares(a) == Bares(b) && AllFilled(a) && AllFilled(b)
    ensures SameSkeleton(a, b)
  {
    hide Bare, Filled;
    assert |Bares(a)| == |a| && |Bares(b)| == |b|;
    forall i | 0 <= i < |a| ensures SameShape(a[i], b[i]) {
      assert Bares(a)[i] == Bare(a[i]) && Bares(b)[i] == Bare(b[i]);
      FilledUnique(a[i], b[i]);
    }
  }

  // ---- the list of segments -----------------------------------------------------------------------------------

  lemma {:induction false} StrictUnique(a: seq<string>, b: seq<string>)
    requires StrictNames(a) && StrictNames(b) && forall x :: x in a <==> x in b
    ensures a == b
    decreases |a|
  {
    hide CompareNames;
    if a == [] {
      FirstIn(b);
    } else {
      assert a[0] in a;
      assert a == [a[0]] + a[1..] && b == [b[0]] + b[1..];
      StrictHead(a, b);
      forall x ensures x in a[1..] <==> x in b[1..] {
        NotInTail(a, x);
        NotInTail(b, x);
      }
      StrictUnique(a[1..], b[1..]);
    }
  }

  lemma FirstIn(names: seq<string>)
    ensures names == [] || names[0] in names
  {
  }

  lemma HeadAtMost(names: seq<string>, x: string)
    requires StrictNames(names) && x in names
    ensures CompareNames(names[0], x) <= 0
  {
    NamesTotal(names[0], names[0]);
    hide CompareNames;
    assert names == [names[0]] + names[1..];
    if x != names[0] {
      HeadLeast(names, x);
    }
  }

  lemma NotInTail(names: seq<string>, x: string)
    requires StrictNames(names) && names != []
    ensures x in names[1..] <==> x in names && x != names[0]
  {
    NamesTotal(names[0], names[0]);
    hide CompareNames;
    assert names == [names[0]] + names[1..];
    if x in names[1..] {
      HeadLeast(names, x);
    }
  }

  lemma StrictHead(a: seq<string>, b: seq<string>)
    requires StrictNames(a) && StrictNames(b) && a != [] && b != [] && a[0] in b && b[0] in a
    ensures a[0] == b[0]
  {
    hide *;
    HeadAtMost(a, b[0]);
    HeadAtMost(b, a[0]);
    NamesTotal(a[0], b[0]);
    NamesTotal(b[0], a[0]);
  }

  lemma ListUnique(kind: Kind, sections: seq<Section>, a: seq<string>, b: seq<string>)
    requires SegmentList(kind, sections, a) && SegmentList(kind, sections, b)
    ensures a == b
  {
    hide StrictNames, Used, StandardPart;
    var standard := StandardPart(kind, Used(sections, "__DATA_CONST"), Used(sections, "__DATA"));
    var x: seq<string> :| IsCustom(kind, sections, x) && a == standard + x + ["__LINKEDIT"];
    var y: seq<string> :| IsCustom(kind, sections, y) && b == standard + y + ["__LINKEDIT"];
    StrictUnique(x, y);
  }

  // ---- a whole layout -------------------------------------------------------------------------------------------

  /** What `Build` ensures of its results and needs for this. */
  ghost predicate Built(kind: Kind, given: seq<Section>, header: nat, sections: seq<Section>, segments: seq<Segment>) {
    && SortedSections(kind, sections) && SameTies(kind, Bares(sections), Bares(given)) && AllFilled(sections)
    && SegmentList(kind, sections, Names(segments)) && LaidOut(kind, header, sections, segments)
    && PageZeroUntouched(sections)
    && forall i :: 0 <= i < |sections| ==> sections[i].segment in Names(segments)
  }

  lemma BareSorted(kind: Kind, sections: seq<Section>)
    requires SortedSections(kind, sections)
    ensures SortedSections(kind, Bares(sections))
  {
    SameSort(kind, sections, Bares(sections));
  }

  lemma TiesOn(kind: Kind, a: seq<Section>, b: seq<Section>, c: seq<Section>)
    requires SameTies(kind, a, c) && SameTies(kind, b, c)
    ensures SameTies(kind, a, b)
  {
    hide TiedTo;
  }

  lemma BuiltSkeleton(kind: Kind, given: seq<Section>, header: nat, a: seq<Section>, s: seq<Segment>,
                      b: seq<Section>, t: seq<Segment>)
    requires Built(kind, given, header, a, s) && Built(kind, given, header, b, t)
    ensures SameSkeleton(a, b)
  {
    BareSorted(kind, a);
    BareSorted(kind, b);
    TiesOn(kind, Bares(a), Bares(b), Bares(given));
    hide SortedSections, SameTies, AllFilled, SegmentList, LaidOut, PageZeroUntouched, Bares;
    StableSortUnique(kind, Bares(a), Bares(b));
    SkeletonUnique(a, b);
  }

  /** The sections as they are made and the header's size determine the layout, to the last offset. */
  lemma BuildDetermined(kind: Kind, given: seq<Section>, header: nat, a: seq<Section>, s: seq<Segment>,
                        b: seq<Section>, t: seq<Segment>)
    requires Built(kind, given, header, a, s) && Built(kind, given, header, b, t)
    ensures a == b && s == t
  {
    BuiltSkeleton(kind, given, header, a, s, b, t);
    hide SortedSections, SameTies, AllFilled, SegmentList, LaidOut, Bares;
    forall i | 0 <= i < |a| ensures a[i].segment == b[i].segment && (a[i].segment == "__PAGEZERO" ==> a[i] == b[i]) {
      assert SameShape(a[i], b[i]);
    }
    SameList(kind, b, a, Names(t));
    ListUnique(kind, a, Names(s), Names(t));
    LaidOutUnique(kind, header, a, b, s, t);
  }
}
