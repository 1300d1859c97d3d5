/** Relocation-to-atom lookup: two binary searches standing in for a linear scan. */
module AtomIndex {
  import opened Wrappers

  const U32_MAX: nat := 0xFFFF_FFFF

  type U32 = x: int | 0 <= x <= 0xFFFF_FFFF

  /** What the index reads of an atom; its id is one more than its place in the table. */
  datatype Atom = Atom(origin: nat, section: nat, offset: U32, size: U32)

  datatype Indexed = Indexed(id: nat, start: U32, end: U32)

  datatype SectionIndex = SectionIndex(atoms: seq<Indexed>, ordered: bool)

  type Key = (nat, nat)

  predicate Contains(a: Indexed, offset: U32) { a.start <= offset < a.end }

  /** `u32::saturating_add`. */
  function SaturatingAdd(a: U32, b: U32): (r: U32)
    ensures a <= r && b <= r
  {
    if a + b <= U32_MAX then a + b else U32_MAX
  }

  // ---- the legacy rule ---------------------------------------------------------------

  predicate FirstIndex(atoms: seq<Indexed>, p: Indexed -> bool, i: nat) {
    i < |atoms| && p(atoms[i]) && forall k :: 0 <= k < i ==> !p(atoms[k])
  }

  predicate NoIndex(atoms: seq<Indexed>, p: Indexed -> bool) {
    forall k :: 0 <= k < |atoms| ==> !p(atoms[k])
  }

  function Holds(offset: U32): Indexed -> bool { (a: Indexed) => Contains(a, offset) }

  function EndsAt(offset: U32): Indexed -> bool { (a: Indexed) => a.end == offset }

  /** The first atom that contains the offset, otherwise the first that ends there. */
  ghost predicate Answers(atoms: seq<Indexed>, offset: U32, r: Option<nat>) {
    || (exists i: nat :: FirstIndex(atoms, Holds(offset), i) && r == Some(atoms[i].id))
    || (&& NoIndex(atoms, Holds(offset))
        && exists i: nat :: FirstIndex(atoms, EndsAt(offset), i) && r == Some(atoms[i].id))
    || (NoIndex(atoms, Holds(offset)) && NoIndex(atoms, EndsAt(offset)) && r == None)
  }

  /** `find_map` on one test. */
  method ScanFor(atoms: seq<Indexed>, p: Indexed -> bool) returns (r: Option<nat>)
    ensures match r
      case Some(id) => exists i: nat :: FirstIndex(atoms, p, i) && atoms[i].id == id
      case None => NoIndex(atoms, p)
  {
    for i := 0 to |atoms|
      invariant forall k :: 0 <= k < i ==> !p(atoms[k])
    {
      if p(atoms[i]) {
        assert FirstIndex(atoms, p, i);
        return Some(atoms[i].id);
      }
    }
    r := None;
  }

  /** The answer is unique, so two searches that both give one agree. */
  lemma AnswersUnique(atoms: seq<Indexed>, offset: U32, r: Option<nat>, s: Option<nat>)
    requires Answers(atoms, offset, r) && Answers(atoms, offset, s)
    ensures r == s
  {
    FirstUnique(atoms, Holds(offset));
    FirstUnique(atoms, EndsAt(offset));
  }

  lemma FirstUnique(atoms: seq<Indexed>, p: Indexed -> bool)
    ensures forall i: nat, j: nat :: FirstIndex(atoms, p, i) && FirstIndex(atoms, p, j) ==> i == j
    ensures forall i: nat :: FirstIndex(atoms, p, i) ==> !NoIndex(atoms, p)
  {
    forall i: nat, j: nat | FirstIndex(atoms, p, i) && FirstIndex(atoms, p, j) ensures i == j {
      assert i < |atoms| && j < |atoms| && p(atoms[i]) && p(atoms[j]);
    }
  }

  // ---- ordered sections ---------------------------------------------------------------

  /** The test over adjacent pairs that sets the flag. */
  predicate PairOrdered(atoms: seq<Indexed>, i: nat)
    requires i + 1 < |atoms|
  {
    atoms[i].start <= atoms[i + 1].start && atoms[i].end <= atoms[i + 1].start
  }

  predicate OrderedNonOverlapping(atoms: seq<Indexed>) {
    forall i: nat :: i + 1 < |atoms| ==> PairOrdered(atoms, i)
  }

  /** Ends never precede starts: they come from a saturating addition. */
  predicate Spans(atoms: seq<Indexed>) {
    forall i :: 0 <= i < |atoms| ==> atoms[i].start <= atoms[i].end
  }

  lemma {:induction false} OrderedFar(atoms: seq<Indexed>, i: nat, j: nat)
    requires OrderedNonOverlapping(atoms) && Spans(atoms) && i < j < |atoms|
    ensures atoms[i].end <= atoms[j].start
    decreases j
  {
    assert PairOrdered(atoms, j - 1);
    if i < j - 1 {
      OrderedFar(atoms, i, j - 1);
    }
  }

  lemma OrderedSections(atoms: seq<Indexed>)
    requires OrderedNonOverlapping(atoms) && Spans(atoms)
    ensures forall i, j :: 0 <= i < j < |atoms| ==> atoms[i].end <= atoms[j].start
  {
    forall i, j | 0 <= i < j < |atoms| ensures atoms[i].end <= atoms[j].start {
      OrderedFar(atoms, i, j);
    }
  }

  /** `slice::partition_point` on a slice that the test splits in two. */
  method PartitionPoint(atoms: seq<Indexed>, p: Indexed -> bool) returns (c: nat)
    requires forall i, j :: 0 <= i < j < |atoms| && p(atoms[j]) ==> p(atoms[i])
    ensures c <= |atoms|
    ensures forall i :: 0 <= i < c ==> p(atoms[i])
    ensures forall i :: c <= i < |atoms| ==> !p(atoms[i])
  {
    var lo: nat, hi: nat := 0, |atoms|;
    while lo < hi
      invariant lo <= hi <= |atoms|
      invariant forall i :: 0 <= i < lo ==> p(atoms[i])
      invariant forall i :: hi <= i < |atoms| ==> !p(atoms[i])
    {
      var mid := (lo + hi) / 2;
      if p(atoms[mid]) {
        lo := mid + 1;
      } else {
        hi := mid;
      }
    }
    c := lo;
  }

  function Starts(offset: U32): Indexed -> bool { (a: Indexed) => a.start <= offset }

  function EndsBefore(offset: U32): Indexed -> bool { (a: Indexed) => a.end < offset }

  /** Only the last atom starting at or before the offset can contain it. */
  lemma OnlyCandidate(atoms: seq<Indexed>, offset: U32, c: nat)
    requires forall i, j :: 0 <= i < j < |atoms| ==> atoms[i].end <= atoms[j].start
    requires c <= |atoms|
    requires forall i :: 0 <= i < c ==> atoms[i].start <= offset
    requires forall i :: c <= i < |atoms| ==> atoms[i].start > offset
    ensures forall i :: 0 <= i < |atoms| && Contains(atoms[i], offset) ==> i == c - 1
  {
    forall i | 0 <= i < c - 1 ensures !Contains(atoms[i], offset) {
      assert atoms[i].end <= atoms[c - 1].start;
    }
  }

  /** `find_with_probe` on the section found for the key: both paths follow the same rule. */
  method FindInSection(section: SectionIndex, offset: U32) returns (r: Option<nat>)
    requires Spans(section.atoms) && (section.ordered <==> OrderedNonOverlapping(section.atoms))
    ensures Answers(section.atoms, offset, r)
  {
    var atoms := section.atoms;
    if !section.ordered {
      r := ScanFor(atoms, Holds(offset));
      if r == None {
        r := ScanFor(atoms, EndsAt(offset));
      }
      return;
    }
    OrderedSections(atoms);
    var candidate := PartitionPoint(atoms, Starts(offset));
    assert forall i :: 0 <= i < |atoms| ==> Starts(offset)(atoms[i]) == (atoms[i].start <= offset);
    OnlyCandidate(atoms, offset, candidate);
    if candidate > 0 && Contains(atoms[candidate - 1], offset) {
      assert FirstIndex(atoms, Holds(offset), candidate - 1);
      return Some(atoms[candidate - 1].id);
    }
    assert NoIndex(atoms, Holds(offset));
    var boundary := PartitionPoint(atoms, EndsBefore(offset));
    r := None;
    if boundary < |atoms| && atoms[boundary].end == offset {
      assert FirstIndex(atoms, EndsAt(offset), boundary) by {
        assert forall k :: 0 <= k < boundary ==> EndsBefore(offset)(atoms[k]);
      }
      r := Some(atoms[boundary].id);
    } else {
      forall k | 0 <= k < |atoms| ensures !EndsAt(offset)(atoms[k]) {
        if k < boundary {
          assert EndsBefore(offset)(atoms[k]);
        } else if k > boundary {
          assert !EndsBefore(offset)(atoms[boundary]) && atoms[boundary].end <= atoms[k].start;
        }
      }
    }
  }

  // ---- building the index ----------------------------------------------------------------

  function KeyOf(a: Atom): Key { (a.origin, a.section) }

  function Entry(table: seq<Atom>, i: nat): Indexed
    requires i < |table|
  {
    Indexed(i + 1, table[i].offset, SaturatingAdd(table[i].offset, table[i].size))
  }

  /** The atoms of one section, in table order. */
  function InSection(table: seq<Atom>, key: Key): (r: seq<Indexed>)
    ensures Spans(r)
  {
    if table == [] then [] else
      var n := |table| - 1;
      var before := InSection(table[..n], key);
      if KeyOf(table[n]) == key then before + [Entry(table, n)] else before
  }

  type Sections = map<Key, SectionIndex>

  function AtomsOf(sections: Sections, key: Key): seq<Indexed> {
    if key in sections then sections[key].atoms else []
  }

  /** The first loop of `new`: a section has an entry when it has an atom. */
  method Group(table: seq<Atom>) returns (sections: Sections)
    ensures forall key :: AtomsOf(sections, key) == InSection(table, key)
  {
    sections := map[];
    for i := 0 to |table|
      invariant forall key :: AtomsOf(sections, key) == InSection(table[..i], key)
    {
      var key := KeyOf(table[i]);
      var entry := Indexed(i + 1, table[i].offset, SaturatingAdd(table[i].offset, table[i].size));
      assert table[..i + 1][..i] == table[..i] && Entry(table[..i + 1], i) == entry;
      sections := sections[key := SectionIndex(AtomsOf(sections, key) + [entry], false)];
    }
    assert table[..|table|] == table;
  }

  /** `windows(2).all(...)`. */
  method CheckOrder(atoms: seq<Indexed>) returns (ok: bool)
    ensures ok <==> OrderedNonOverlapping(atoms)
  {
    var i: nat := 0;
    while i + 1 < |atoms|
      invariant forall k: nat :: k < i && k + 1 < |atoms| ==> PairOrdered(atoms, k)
    {
      if !PairOrdered(atoms, i) {
        return false;
      }
      i := i + 1;
    }
    ok := true;
  }

  ghost predicate ValidIndex(table: seq<Atom>, sections: Sections) {
    && (forall key :: AtomsOf(sections, key) == InSection(table, key))
    && (forall key :: key in sections ==> (sections[key].ordered <==> OrderedNonOverlapping(sections[key].atoms)))
  }

  /** `AtomOffsetIndex::new`. */
  method New(table: seq<Atom>) returns (sections: Sections)
    ensures ValidIndex(table, sections)
  {
    sections := Group(table);
    var todo := sections.Keys;
    while todo != {}
      invariant todo <= sections.Keys
      invariant forall key :: AtomsOf(sections, key) == InSection(table, key)
      invariant forall key :: key in sections && key !in todo ==>
        (sections[key].ordered <==> OrderedNonOverlapping(sections[key].atoms))
      decreases |todo|
    {
      var key :| key in todo;
      var ok := CheckOrder(sections[key].atoms);
      sections := sections[key := sections[key].(ordered := ok)];
      todo := todo - {key};
    }
  }

  /** `AtomOffsetIndex::find`: the linear rule over the atoms the table holds for that section. */
  method Find(table: seq<Atom>, sections: Sections, input: nat, section: nat, offset: U32) returns (r: Option<nat>)
    requires ValidIndex(table, sections)
    ensures Answers(InSection(table, (input, section)), offset, r)
  {
    var key := (input, section);
    assert AtomsOf(sections, key) == InSection(table, key);
    if key !in sections {
      return None;
    }
    r := FindInSection(sections[key], offset);
  }

  // ---- what it finds, told by the table ----------------------------------------------------------------------

  /** The end of an atom in its section, at most 2^32 - 1. */
  function EndIn(a: Atom): nat { if a.offset + a.size < 0x1_0000_0000 then a.offset + a.size else 0xffff_ffff }

  predicate Of(a: Atom, input: nat, section: nat) { a.origin == input && a.section == section }

  /** Atom `i` of the table is the first of its section that covers the offset. */
  ghost predicate FirstCovering(table: seq<Atom>, input: nat, section: nat, offset: nat, i: nat) {
    && i < |table| && Of(table[i], input, section) && table[i].offset <= offset < EndIn(table[i])
    && forall k :: 0 <= k < i && Of(table[k], input, section) ==> !(table[k].offset <= offset < EndIn(table[k]))
  }

  ghost predicate NoneCovering(table: seq<Atom>, input: nat, section: nat, offset: nat) {
    forall k :: 0 <= k < |table| && Of(table[k], input, section) ==> !(table[k].offset <= offset < EndIn(table[k]))
  }

  ghost predicate FirstEnding(table: seq<Atom>, input: nat, section: nat, offset: nat, i: nat) {
    && i < |table| && Of(table[i], input, section) && EndIn(table[i]) == offset
    && forall k :: 0 <= k < i && Of(table[k], input, section) ==> EndIn(table[k]) != offset
  }

  ghost predicate NoneEnding(table: seq<Atom>, input: nat, section: nat, offset: nat) {
    forall k :: 0 <= k < |table| && Of(table[k], input, section) ==> EndIn(table[k]) != offset
  }

  lemma EntryIs(table: seq<Atom>, i: nat, offset: U32)
    requires i < |table|
    ensures Entry(table, i).id == i + 1
    ensures Holds(offset)(Entry(table, i)) <==> table[i].offset <= offset < EndIn(table[i])
    ensures EndsAt(offset)(Entry(table, i)) <==> EndIn(table[i]) == offset
  {
  }

  /** The first entry of a section that passes a test is the section's first atom in the table that does. */
  lemma {:induction false} FirstInTable(table: seq<Atom>, key: Key, p: Indexed -> bool, j: nat) returns (i: nat)
    requires FirstIndex(InSection(table, key), p, j)
    ensures i < |table| && KeyOf(table[i]) == key && Entry(table, i) == InSection(table, key)[j] && p(Entry(table, i))
    ensures forall k :: 0 <= k < i && KeyOf(table[k]) == key ==> !p(Entry(table, k))
  {
    var n := |table| - 1;
    var init := table[..n];
    var before, all := InSection(init, key), InSection(table, key);
    assert forall k :: 0 <= k < |before| ==> before[k] == all[k];
    assert forall k :: 0 <= k < n ==> Entry(init, k) == Entry(table, k);
    if j < |before| {
      i := FirstInTable(init, key, p, j);
    } else {
      i := n;
      NoneInTable(init, key, p);
    }
  }

  lemma {:induction false} NoneInTable(table: seq<Atom>, key: Key, p: Indexed -> bool)
    requires NoIndex(InSection(table, key), p)
    ensures forall k :: 0 <= k < |table| && KeyOf(table[k]) == key ==> !p(Entry(table, k))
  {
    if table != [] {
      var n := |table| - 1;
      var init := table[..n];
      var before, all := InSection(init, key), InSection(table, key);
      assert forall k :: 0 <= k < |before| ==> before[k] == all[k];
      NoneInTable(init, key, p);
      assert forall k :: 0 <= k < n ==> Entry(init, k) == Entry(table, k);
      if KeyOf(table[n]) == key {
        assert all[|before|] == Entry(table, n);
      }
    }
  }

  /**
   * What the lookup finds: the section's first atom that covers the offset, else the first that ends there, else
   * nothing.
   */
  lemma FindMeans(table: seq<Atom>, input: nat, section: nat, offset: U32, r: Option<nat>)
    requires Answers(InSection(table, (input, section)), offset, r)
    ensures
      || (exists i: nat :: FirstCovering(table, input, section, offset, i) && r == Some(i + 1))
      || (&& NoneCovering(table, input, section, offset)
          && exists i: nat :: FirstEnding(table, input, section, offset, i) && r == Some(i + 1))
      || (NoneCovering(table, input, section, offset) && NoneEnding(table, input, section, offset) && r == None)
  {
    var key := (input, section);
    var atoms := InSection(table, key);
    forall i: nat | i < |table|
      ensures Entry(table, i).id == i + 1
      ensures Holds(offset)(Entry(table, i)) <==> table[i].offset <= offset < EndIn(table[i])
      ensures EndsAt(offset)(Entry(table, i)) <==> EndIn(table[i]) == offset
      ensures KeyOf(table[i]) == key <==> Of(table[i], input, section)
    {
      EntryIs(table, i, offset);
    }
    hide InSection, EndIn, Holds, EndsAt, Entry, KeyOf, Of, FirstIndex, NoIndex;
    if j: nat :| FirstIndex(atoms, Holds(offset), j) && r == Some(atoms[j].id) {
      var i := FirstInTable(table, key, Holds(offset), j);
      assert FirstCovering(table, input, section, offset, i);
    } else {
      NoneInTable(table, key, Holds(offset));
      if j: nat :| FirstIndex(atoms, EndsAt(offset), j) && r == Some(atoms[j].id) {
        var i := FirstInTable(table, key, EndsAt(offset), j);
        assert FirstEnding(table, input, section, offset, i);
      } else {
        NoneInTable(table, key, EndsAt(offset));
      }
    }
  }
}
