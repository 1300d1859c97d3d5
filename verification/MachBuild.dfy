/** The Mach-O layout program: segments, the cursor loops, and a whole layout. */
module MachBuild {
  import opened Arith
  import opened MachLayout

  // ---- the list of segments -----------------------------------------------------------------------------

  /** Adds a name to a sorted list, once. */
  function InsertName(names: seq<string>, name: string): (r: seq<string>)
    ensures forall x :: x in r <==> x in names || x == name
    ensures DistinctNames(names) ==> DistinctNames(r)
    ensures name in names ==> r == names
  {
    if names == [] then [name]
    else if names[0] == name || name in names then names
    else if CompareNames(name, names[0]) < 0 then [name] + names
    else
      assert names == [names[0]] + names[1..];
      var rest := InsertName(names[1..], name);
      assert DistinctNames(names) ==> DistinctNames(names[1..]) && names[0] !in names[1..];
      [names[0]] + rest
  }

  /** Strictly ascending, as after a sort and a dedup. */
  ghost predicate StrictNames(names: seq<string>) {
    forall i, j :: 0 <= i < j < |names| ==> CompareNames(names[i], names[j]) < 0
  }

  lemma NamesStrict(a: string, b: string, c: string)
    requires CompareNames(a, b) < 0 && CompareNames(b, c) < 0
    ensures CompareNames(a, c) < 0
  {
    NamesTransitive(a, b, c);
    NamesTotal(a, c);
    NamesTotal(b, c);
  }

  lemma StrictCons(name: string, names: seq<string>)
    requires StrictNames(names) && forall x :: x in names ==> CompareNames(name, x) < 0
    ensures StrictNames([name] + names)
  {
    hide CompareNames;
    var all := [name] + names;
    forall i, j | 0 <= i < j < |all| ensures CompareNames(all[i], all[j]) < 0 {
      assert all[j] == names[j - 1] && names[j - 1] in names;
    }
  }

  lemma HeadLeast(names: seq<string>, x: string)
    requires StrictNames(names) && names != [] && x in names[1..]
    ensures CompareNames(names[0], x) < 0
  {
    hide CompareNames;
    var i :| 0 <= i < |names[1..]| && names[1..][i] == x;
    assert names[i + 1] == x;
  }

  lemma {:induction false} InsertNameStrict(names: seq<string>, name: string)
    requires StrictNames(names)
    ensures StrictNames(InsertName(names, name))
    decreases |names|
  {
    hide CompareNames;
    if names == [] || name in names {
    } else if CompareNames(name, names[0]) < 0 {
      forall x | x in names ensures CompareNames(name, x) < 0 {
        if x != names[0] {
          assert names == [names[0]] + names[1..];
          HeadLeast(names, x);
          NamesStrict(name, names[0], x);
        }
      }
      StrictCons(name, names);
    } else {
      InsertNameStrict(names[1..], name);
      NamesTotal(name, names[0]);
      NamesTotal(names[0], name);
      var rest := InsertName(names[1..], name);
      forall x | x in rest ensures CompareNames(names[0], x) < 0 {
        if x != name {
          HeadLeast(names, x);
        }
      }
      StrictCons(names[0], rest);
    }
  }

  ghost predicate Used(sections: seq<Section>, name: string) {
    exists i :: 0 <= i < |sections| && sections[i].segment == name
  }

  /** The segments that sections name and that are not standard ones. */
  method CustomNames(kind: Kind, sections: seq<Section>) returns (names: seq<string>)
    ensures DistinctNames(names) && StrictNames(names)
    ensures forall x :: x in names <==> Used(sections, x) && x !in StandardNames(kind)
  {
    names := [];
    hide CompareNames, StrictNames;
    NoNames();
    for i := 0 to |sections|
      invariant DistinctNames(names) && StrictNames(names)
      invariant forall x :: x in names <==> Used(sections[..i], x) && x !in StandardNames(kind)
    {
      var before := sections[..i];
      assert sections[..i + 1] == before + [sections[i]];
      assert forall x :: Used(sections[..i + 1], x) <==> Used(before, x) || x == sections[i].segment by {
        forall x ensures Used(sections[..i + 1], x) <==> Used(before, x) || x == sections[i].segment {
          UsedPush(before, sections[i], x);
        }
      }
      if sections[i].segment !in StandardNames(kind) {
        InsertNameStrict(names, sections[i].segment);
        names := InsertName(names, sections[i].segment);
      }
    }
    assert sections[..|sections|] == sections;
  }

  lemma NoNames()
    ensures StrictNames([])
  {
  }

  lemma UsedPush(sections: seq<Section>, s: Section, x: string)
    ensures Used(sections + [s], x) <==> Used(sections, x) || x == s.segment
  {
    var more := sections + [s];
    assert more[|sections|] == s;
    if Used(sections, x) {
      var i :| 0 <= i < |sections| && sections[i].segment == x;
      assert more[i].segment == x;
    }
  }

  method IsUsed(sections: seq<Section>, name: string) returns (r: bool)
    ensures r <==> Used(sections, name)
  {
    for i := 0 to |sections|
      invariant forall k :: 0 <= k < i ==> sections[k].segment != name
    {
      if sections[i].segment == name {
        return true;
      }
    }
    return false;
  }

  /** The standard segments needed, apart from `__LINKEDIT`. */
  function StandardPart(kind: Kind, dataConst: bool, data: bool): seq<string> {
    (if kind == Executable then ["__PAGEZERO"] else []) + ["__TEXT"]
    + (if dataConst then ["__DATA_CONST"] else []) + (if data then ["__DATA"] else [])
  }

  lemma StandardPartShape(kind: Kind, dataConst: bool, data: bool)
    ensures var part := StandardPart(kind, dataConst, data);
      && DistinctNames(part) && "__LINKEDIT" !in part
      && (forall x :: x in part ==> x in StandardNames(kind))
      && "__TEXT" in part && ("__PAGEZERO" in part <==> kind == Executable)
      && ("__DATA_CONST" in part <==> dataConst) && ("__DATA" in part <==> data)
      && part[0] == (if kind == Executable then "__PAGEZERO" else "__TEXT")
      && (kind == Executable ==> part[1] == "__TEXT")
  {
    var part := StandardPart(kind, dataConst, data);
    var data' := if data then ["__DATA"] else [];
    var tail := if dataConst then ["__DATA_CONST"] + data' else data';
    if kind == Executable {
      assert part == ["__PAGEZERO", "__TEXT"] + tail;
    } else {
      assert part == ["__TEXT"] + tail;
    }
  }

  lemma JoinDistinct(part: seq<string>, custom: seq<string>, last: string)
    requires DistinctNames(part) && DistinctNames(custom) && last !in part && last !in custom
    requires forall x :: x in part ==> x !in custom
    ensures DistinctNames(part + custom + [last])
  {
    var names := part + custom + [last];
    forall i, j | 0 <= i < j < |names| ensures names[i] != names[j] {
      if i < |part| <= j < |part| + |custom| {
        assert part[i] in part && custom[j - |part|] in custom;
      }
    }
  }

  /** The needed standard segments, then the sections' own ones in name order, then `__LINKEDIT`. */
  ghost predicate SegmentList(kind: Kind, sections: seq<Section>, names: seq<string>) {
    exists custom: seq<string> :: IsCustom(kind, sections, custom)
      && names == StandardPart(kind, Used(sections, "__DATA_CONST"), Used(sections, "__DATA")) + custom + ["__LINKEDIT"]
  }

  ghost predicate IsCustom(kind: Kind, sections: seq<Section>, custom: seq<string>) {
    StrictNames(custom) && forall x :: x in custom <==> Used(sections, x) && x !in StandardNames(kind)
  }

  /**
   * `build_segments`.  `__TEXT` comes first and `__LINKEDIT` last; a page zero comes first exactly unless
   * a dylib has a section in a segment called `__PAGEZERO`.
   */
  method BuildSegmentNames(kind: Kind, sections: seq<Section>) returns (names: seq<string>)
    ensures DistinctNames(names) && (kind == Executable ==> "__PAGEZERO" in names)
    ensures forall i :: 0 <= i < |sections| ==> sections[i].segment in names
    ensures TextFirst(names) && SegmentList(kind, sections, names)
    ensures SegmentOrder(names) <==> (kind == Dylib ==> !Used(sections, "__PAGEZERO"))
  {
    var custom := CustomNames(kind, sections);
    var dataConst := IsUsed(sections, "__DATA_CONST");
    var data := IsUsed(sections, "__DATA");
    var part := StandardPart(kind, dataConst, data);
    names := part + custom + ["__LINKEDIT"];
    assert IsCustom(kind, sections, custom);
    assert SegmentList(kind, sections, names);
    hide SegmentList, StrictNames;
    StandardPartShape(kind, dataConst, data);
    hide StandardPart;
    JoinDistinct(part, custom, "__LINKEDIT");
    CoversUsed(kind, sections, dataConst, data, part, custom);
    OrderExact(kind, part, custom, "__PAGEZERO" in custom);
  }

  lemma CoversUsed(kind: Kind, sections: seq<Section>, dataConst: bool, data: bool, part: seq<string>,
                   custom: seq<string>)
    requires forall x :: x in custom <==> Used(sections, x) && x !in StandardNames(kind)
    requires "__TEXT" in part && ("__PAGEZERO" in part <==> kind == Executable)
    requires "__DATA_CONST" in part <==> dataConst
    requires "__DATA" in part <==> data
    requires dataConst <==> Used(sections, "__DATA_CONST")
    requires data <==> Used(sections, "__DATA")
    ensures forall i :: 0 <= i < |sections| ==> sections[i].segment in part + custom + ["__LINKEDIT"]
  {
    forall i | 0 <= i < |sections| ensures sections[i].segment in part + custom + ["__LINKEDIT"] {
      var x := sections[i].segment;
      assert Used(sections, x);
    }
  }

  lemma OrderExact(kind: Kind, part: seq<string>, custom: seq<string>, odd: bool)
    requires DistinctNames(part + custom + ["__LINKEDIT"])
    requires |part| > 0 && part[0] == (if kind == Executable then "__PAGEZERO" else "__TEXT")
    requires kind == Executable ==> |part| > 1 && part[1] == "__TEXT"
    requires odd <==> "__PAGEZERO" in custom
    requires kind == Dylib ==> "__PAGEZERO" !in part
    ensures TextFirst(part + custom + ["__LINKEDIT"])
    ensures SegmentOrder(part + custom + ["__LINKEDIT"]) <==> !(kind == Dylib && odd)
  {
    var names := part + custom + ["__LINKEDIT"];
    assert names[0] == part[0] && names[|names| - 1] == "__LINKEDIT";
    if kind == Executable {
      assert names[1] == "__TEXT";
      assert SegmentOrder(names);
    } else if odd {
      var j :| 0 <= j < |custom| && custom[j] == "__PAGEZERO";
      assert names[|part| + j] == "__PAGEZERO";
    } else {
      forall k | 0 <= k < |names| ensures names[k] != "__PAGEZERO" {
        assert k < |part| ==> names[k] in part;
        assert |part| <= k < |part| + |custom| ==> names[k] in custom;
      }
    }
  }

  // ---- the program ------------------------------------------------------------------------------------

  lemma {:induction false} PutKeepsCursor(sections: seq<Section>, ids: seq<nat>, c: Cursor, n: nat, s: Section)
    requires Indexes(sections, ids) && n < |ids| && SameShape(s, sections[ids[n]])
    requires forall i, j :: 0 <= i < j < |ids| ==> ids[i] < ids[j]
    requires AllPut(sections, ids, c, n) && PutAt(CursorAt(sections, ids, c, n), s)
    ensures var after := sections[ids[n] := s];
      && SameSkeleton(after, sections) && AllPut(after, ids, c, n + 1)
      && CursorAt(after, ids, c, n + 1) == Move(CursorAt(sections, ids, c, n), s)
  {
    hide PutAt, Move;
    var after := sections[ids[n] := s];
    var next := n + 1;
    assert SameSkeleton(after, sections);
    forall m | 0 <= m < next ensures PutAt(CursorAt(after, ids, c, m), after[ids[m]]) {
      SameCursor(after, sections, ids, c, m);
      if m < n {
        assert PutAt(CursorAt(sections, ids, c, m), sections[ids[m]]);
      }
    }
    SameCursor(after, sections, ids, c, n);
    assert CursorAt(after, ids, c, next) == Move(CursorAt(after, ids, c, n), after[ids[n]]);
  }

  function Cleared(segments: seq<Segment>): (r: seq<Segment>)
    ensures Names(r) == Names(segments)
    ensures forall k :: 0 <= k < |r| ==> r[k] == Segment(segments[k].name, [], 0, 0, 0, 0)
  {
    seq(|segments|, k requires 0 <= k < |segments| => Segment(segments[k].name, [], 0, 0, 0, 0))
  }

  predicate Lists(sections: seq<Section>, upTo: nat, s: Segment)
    requires upTo <= |sections|
  {
    s == Segment(s.name, IdsOf(sections, s.name, upTo), 0, 0, 0, 0)
  }

  /** The first segment of a name. */
  method FindSegment(segments: seq<Segment>, name: string) returns (k: nat)
    requires name in Names(segments)
    ensures k < |segments| && segments[k].name == name
  {
    k := 0;
    ghost var at :| 0 <= at < |segments| && Names(segments)[at] == name;
    while segments[k].name != name
      invariant k <= at
      decreases at - k
    {
      k := k + 1;
    }
  }

  /** Pushing a section's number onto its segment's list. */
  lemma ListsOneMore(sections: seq<Section>, i: nat, segments: seq<Segment>, k: nat)
    requires i < |sections| && k < |segments| && DistinctNames(Names(segments))
    requires segments[k].name == sections[i].segment
    requires forall m :: 0 <= m < |segments| ==> Lists(sections, i, segments[m])
    ensures var after := segments[k := segments[k].(ids := segments[k].ids + [i])];
      Names(after) == Names(segments) && forall m :: 0 <= m < |after| ==> Lists(sections, i + 1, after[m])
  {
    var after := segments[k := segments[k].(ids := segments[k].ids + [i])];
    var next := i + 1;
    forall m | 0 <= m < |after| ensures Lists(sections, next, after[m]) {
      assert Lists(sections, i, segments[m]);
      assert Names(segments)[m] == segments[m].name && Names(segments)[k] == segments[k].name;
    }
    assert Names(after) == Names(segments);
  }

  /** A segment not reached yet: listed, its fields zero, except for the page-zero segment. */
  predicate Waiting(kind: Kind, sections: seq<Section>, s: Segment) {
    var vmSize := if s.name == "__PAGEZERO" && kind == Executable then TEXT_BASE else 0;
    s == Segment(s.name, Ids(sections, s.name), 0, vmSize, 0, 0)
  }

  lemma StillWaiting(kind: Kind, a: seq<Section>, b: seq<Section>, s: Segment)
    requires Waiting(kind, a, s) && SameSkeleton(b, a)
    ensures Waiting(kind, b, s)
  {
    SameIds(b, a, s.name, |a|);
  }

  lemma SkeletonTransitive(a: seq<Section>, b: seq<Section>, c: seq<Section>)
    requires SameSkeleton(a, b) && SameSkeleton(b, c)
    ensures SameSkeleton(a, c)
  {
    assert forall i :: 0 <= i < |a| ==> SameShape(a[i], b[i]) && SameShape(b[i], c[i]);
  }

  lemma {:induction false} PageZeroLaid(kind: Kind, header: nat, sections: seq<Section>, names: seq<string>, k: nat,
                                        s: Segment)
    requires k < |names| && names[k] == s.name == "__PAGEZERO" && Waiting(kind, sections, s)
    ensures LaidSegment(kind, header, sections, names, k, s)
    ensures BasesAt(kind, header, sections, names, k + 1) == BasesAt(kind, header, sections, names, k)
  {
    hide Last, Start;
  }

  lemma {:induction false} NowLaid(kind: Kind, header: nat, a: seq<Section>, b: seq<Section>, names: seq<string>,
                                   k: nat, s: Segment)
    requires k < |names| && names[k] != "__PAGEZERO" && SameSkeleton(b, a)
    requires var next := BasesAt(kind, header, a, names, k);
      var ids := Ids(b, names[k]);
      s == Shaped(kind, header, b, names[k], next) && AllPut(b, ids, First(kind, header, names[k], next), |ids|)
    ensures LaidSegment(kind, header, b, names, k, s)
    ensures BasesAt(kind, header, b, names, k + 1) ==
      NextBases(kind, header, b, names[k], BasesAt(kind, header, a, names, k))
  {
    hide Last, Start, First, NextBases, Shaped, AllPut;
    SameBases(kind, header, b, a, names, k);
    var next := k + 1;
    assert BasesAt(kind, header, b, names, next) ==
      NextBases(kind, header, b, names[k], BasesAt(kind, header, b, names, k));
  }

  lemma StillLaid(kind: Kind, header: nat, a: seq<Section>, b: seq<Section>, names: seq<string>, m: nat, k: nat,
                  s: Segment)
    requires DistinctNames(names) && m < k < |names| && SameSkeleton(b, a)
    requires LaidSegment(kind, header, a, names, m, s)
    requires forall i :: 0 <= i < |b| && b[i].segment != names[k] ==> b[i] == a[i]
    ensures LaidSegment(kind, header, b, names, m, s)
  {
    hide LaidSegment;
    assert SameSkeleton(a, b) by {
      assert forall i :: 0 <= i < |a| ==> SameShape(b[i], a[i]);
    }
    assert forall i :: 0 <= i < |a| ==> SameShape(b[i], a[i]);
    LaidStays(kind, header, a, b, names, m, s);
  }

  /** The outer loop after `k` segments. */
  ghost predicate Partial(kind: Kind, header: nat, given: seq<Section>, sections: seq<Section>, segments: seq<Segment>,
                          names: seq<string>, k: nat, next: Bases) {
    && k <= |names| == |segments| && Names(segments) == names && DistinctNames(names)
    && SameSkeleton(sections, given)
    && (forall i :: 0 <= i < |sections| && sections[i].segment == "__PAGEZERO" ==> sections[i] == given[i])
    && next == BasesAt(kind, header, sections, names, k)
    && (forall m :: 0 <= m < k ==> LaidSegment(kind, header, sections, names, m, segments[m]))
    && (forall m :: k <= m < |segments| ==> Waiting(kind, sections, segments[m]))
  }

  lemma PartialStart(kind: Kind, header: nat, sections: seq<Section>, segments: seq<Segment>, names: seq<string>)
    requires Names(segments) == names && DistinctNames(names)
    requires forall m :: 0 <= m < |segments| ==> Waiting(kind, sections, segments[m])
    ensures Partial(kind, header, sections, sections, segments, names, 0, Bases(TextBase(kind), 0))
  {
  }

  lemma PartialLength(kind: Kind, header: nat, given: seq<Section>, sections: seq<Section>, segments: seq<Segment>,
                      names: seq<string>, k: nat, next: Bases)
    requires Partial(kind, header, given, sections, segments, names, k, next)
    ensures |segments| == |names|
  {
    hide LaidSegment, Waiting;
  }

  lemma PartialAt(kind: Kind, header: nat, given: seq<Section>, sections: seq<Section>, segments: seq<Segment>,
                  names: seq<string>, k: nat, next: Bases)
    requires Partial(kind, header, given, sections, segments, names, k, next) && k < |segments|
    ensures segments[k].name == names[k] && segments[k].ids == Ids(sections, names[k])
  {
    hide LaidSegment;
    assert Waiting(kind, sections, segments[k]);
  }

  lemma PartialPageZero(kind: Kind, header: nat, given: seq<Section>, sections: seq<Section>, segments: seq<Segment>,
                        names: seq<string>, k: nat, next: Bases)
    requires Partial(kind, header, given, sections, segments, names, k, next) && k < |segments|
    requires segments[k].name == "__PAGEZERO"
    ensures Partial(kind, header, given, sections, segments, names, k + 1, next)
  {
    hide LaidSegment;
    PageZeroLaid(kind, header, sections, names, k, segments[k]);
  }

  lemma KeepsPageZero(given: seq<Section>, a: seq<Section>, b: seq<Section>, name: string)
    requires SameSkeleton(a, given) && SameSkeleton(b, a) && name != "__PAGEZERO"
    requires forall i :: 0 <= i < |b| && b[i].segment != name ==> b[i] == a[i]
    requires forall i :: 0 <= i < |a| && a[i].segment == "__PAGEZERO" ==> a[i] == given[i]
    ensures SameSkeleton(b, given)
    ensures forall i :: 0 <= i < |b| && b[i].segment == "__PAGEZERO" ==> b[i] == given[i]
  {
    SkeletonTransitive(b, a, given);
  }

  lemma NamesKept(was: seq<Segment>, k: nat, s: Segment)
    requires k < |was| && s.name == was[k].name
    ensures Names(was[k := s]) == Names(was)
  {
  }

  lemma PartialStep(kind: Kind, header: nat, given: seq<Section>, a: seq<Section>, b: seq<Section>, was: seq<Segment>,
                    now: seq<Segment>, names: seq<string>, k: nat, base: Bases, next: Bases)
    requires Partial(kind, header, given, a, was, names, k, base) && k < |was| && was[k].name != "__PAGEZERO"
    requires SameSkeleton(b, a)
    requires forall i :: 0 <= i < |b| && b[i].segment != was[k].name ==> b[i] == a[i]
    requires now == was[k := Shaped(kind, header, b, was[k].name, base)]
    requires var ids := Ids(b, was[k].name); AllPut(b, ids, First(kind, header, was[k].name, base), |ids|)
    requires next == NextBases(kind, header, b, was[k].name, base)
    ensures Partial(kind, header, given, b, now, names, k + 1, next)
  {
    assert names[k] == was[k].name && Shaped(kind, header, b, was[k].name, base).name == names[k];
    hide LaidSegment, AllPut, Shaped, First, NextBases, Waiting, SameSkeleton, DistinctNames, BasesAt;
    NowLaid(kind, header, a, b, names, k, now[k]);
    KeepsPageZero(given, a, b, names[k]);
    forall m | 0 <= m < k ensures LaidSegment(kind, header, b, names, m, now[m]) {
      StillLaid(kind, header, a, b, names, m, k, now[m]);
    }
    forall m | k < m < |now| ensures Waiting(kind, b, now[m]) {
      StillWaiting(kind, a, b, now[m]);
    }
    NamesKept(was, k, now[k]);
  }

  lemma PartialEnd(kind: Kind, header: nat, given: seq<Section>, sections: seq<Section>, segments: seq<Segment>,
                   names: seq<string>, next: Bases)
    requires Partial(kind, header, given, sections, segments, names, |segments|, next)
    ensures LaidOut(kind, header, sections, segments) && SameSkeleton(sections, given) && Names(segments) == names
    ensures forall i :: 0 <= i < |sections| && sections[i].segment == "__PAGEZERO" ==> sections[i] == given[i]
  {
    hide LaidSegment;
  }

  class Layout {
    const kind: Kind
    var sections: seq<Section>
    var segments: seq<Segment>

    constructor (kind: Kind, sections: seq<Section>, names: seq<string>)
      ensures this.kind == kind && this.sections == sections && Names(segments) == names
    {
      this.kind, this.sections := kind, sections;
      this.segments := seq(|names|, k requires 0 <= k < |names| => Segment(names[k], [], 0, 0, 0, 0));
    }

    /** Clears the segments and lists each segment's sections. */
    method AssignMembers()
      requires DistinctNames(Names(segments))
      requires forall i :: 0 <= i < |sections| ==> sections[i].segment in Names(segments)
      modifies this`segments
      ensures Names(segments) == old(Names(segments))
      ensures forall k :: 0 <= k < |segments| ==> Lists(sections, |sections|, segments[k])
    {
      segments := Cleared(segments);
      for i := 0 to |sections|
        invariant Names(segments) == old(Names(segments))
        invariant forall k :: 0 <= k < |segments| ==> Lists(sections, i, segments[k])
      {
        var k := FindSegment(segments, sections[i].segment);
        ListsOneMore(sections, i, segments, k);
        segments := segments[k := segments[k].(ids := segments[k].ids + [i])];
      }
    }

    /** The inner loop: the sections of one segment. */
    method PlaceSections(ids: seq<nat>, first: Cursor) returns (c: Cursor)
      requires Indexes(sections, ids) && forall i, j :: 0 <= i < j < |ids| ==> ids[i] < ids[j]
      modifies this`sections
      ensures SameSkeleton(sections, old(sections)) && Indexes(sections, ids)
      ensures forall i :: 0 <= i < |sections| && i !in ids ==> sections[i] == old(sections[i])
      ensures AllPut(sections, ids, first, |ids|) && c == CursorAt(sections, ids, first, |ids|)
    {
      c := first;
      for n := 0 to |ids|
        invariant SameSkeleton(sections, old(sections)) && Indexes(sections, ids)
        invariant forall i :: 0 <= i < |sections| && i !in ids ==> sections[i] == old(sections[i])
        invariant AllPut(sections, ids, first, n) && c == CursorAt(sections, ids, first, n)
      {
        var section := sections[ids[n]];
        var addr := RoundUp(c.vm, section.alignPow);
        var fileOff := if section.zerofill then 0 else RoundUp(c.file, section.alignPow);
        section := section.(addr := addr, fileOff := fileOff);
        PutKeepsCursor(sections, ids, first, n, section);
        sections := sections[ids[n] := section];
        c := Move(c, section);
      }
    }

    /** The outer loop's work on one segment. */
    method PlaceSegment(header: nat, k: nat, next: Bases) returns (bases: Bases)
      requires k < |segments| && segments[k].name != "__PAGEZERO" && segments[k].ids == Ids(sections, segments[k].name)
      modifies this
      ensures SameSkeleton(sections, old(sections))
      ensures forall i :: 0 <= i < |sections| && sections[i].segment != old(segments[k].name) ==>
        sections[i] == old(sections[i])
      ensures segments == old(segments)[k := Shaped(kind, header, sections, old(segments[k].name), next)]
      ensures var ids := Ids(sections, old(segments[k].name));
        AllPut(sections, ids, First(kind, header, old(segments[k].name), next), |ids|)
      ensures bases == NextBases(kind, header, sections, old(segments[k].name), next)
    {
      var name, ids := segments[k].name, segments[k].ids;
      var start, first := Start(kind, name, next), First(kind, header, name, next);
      ghost var before := sections;
      hide RoundUp, First, Start;
      var c := PlaceSections(ids, first);
      SameIds(sections, before, name, |sections|);
      var rawVm, rawFile := Minus(c.vmEnd, start.vm), Minus(c.fileEnd, start.file);
      var linkedit := name == "__LINKEDIT";
      var vmSize := if rawVm == 0 || linkedit then rawVm else AlignUp(rawVm, PAGE);
      var fileSize := if linkedit || rawFile == 0 then 0 else AlignUp(rawFile, PAGE);
      segments := segments[k := Segment(name, ids, start.vm, vmSize, start.file, fileSize)];
      bases := if linkedit then start else Bases(c.vmEnd, c.fileEnd);
    }

    /** The page-zero segment of an executable. */
    method ShapePageZero()
      requires kind == Executable ==> "__PAGEZERO" in Names(segments)
      requires forall k :: 0 <= k < |segments| ==> Lists(sections, |sections|, segments[k])
      requires DistinctNames(Names(segments))
      modifies this`segments
      ensures Names(segments) == old(Names(segments))
      ensures forall k :: 0 <= k < |segments| ==> Waiting(kind, sections, segments[k])
    {
      if kind == Executable {
        var k := FindSegment(segments, "__PAGEZERO");
        ghost var names := Names(segments);
        segments := segments[k := segments[k].(vmAddr := 0, vmSize := TEXT_BASE, fileOff := 0, fileSize := 0)];
        assert Names(segments) == names;
        assert forall m :: 0 <= m < |names| && m != k ==> names[m] != names[k];
      }
    }

    /** The loop over the segments. */
    method PlaceSegments(header: nat, ghost names: seq<string>, first: Bases)
      requires Partial(kind, header, sections, sections, segments, names, 0, first)
      modifies this
      ensures LaidOut(kind, header, sections, segments)
      ensures SameSkeleton(sections, old(sections)) && Names(segments) == names
      ensures forall i :: 0 <= i < |sections| && sections[i].segment == "__PAGEZERO" ==> sections[i] == old(sections[i])
    {
      hide *;
      ghost var given := sections;
      var next := first;
      PartialLength(kind, header, given, sections, segments, names, 0, next);
      for k := 0 to |segments|
        invariant Partial(kind, header, given, sections, segments, names, k, next)
        invariant |segments| == |names|
      {
        ghost var before, was, base := sections, segments, next;
        PartialAt(kind, header, given, sections, segments, names, k, next);
        if segments[k].name == "__PAGEZERO" {
          PartialPageZero(kind, header, given, sections, segments, names, k, next);
        } else {
          next := PlaceSegment(header, k, next);
          PartialStep(kind, header, given, before, sections, was, segments, names, k, base, next);
        }
      }
      PartialEnd(kind, header, given, sections, segments, names, next);
    }

    /** `assign_addresses`. */
    method AssignAddresses(header: nat)
      requires DistinctNames(Names(segments)) && (kind == Executable ==> "__PAGEZERO" in Names(segments))
      requires forall i :: 0 <= i < |sections| ==> sections[i].segment in Names(segments)
      modifies this
      ensures LaidOut(kind, header, sections, segments)
      ensures SameSkeleton(sections, old(sections)) && Names(segments) == old(Names(segments))
      ensures forall i :: 0 <= i < |sections| && sections[i].segment == "__PAGEZERO" ==> sections[i] == old(sections[i])
    {
      ghost var names := Names(segments);
      AssignMembers();
      ShapePageZero();
      var next := Bases(TextBase(kind), 0);
      PartialStart(kind, header, sections, segments, names);
      PlaceSegments(header, names, next);
    }

    /** `relayout`: idempotent. */
    method Relayout(header: nat)
      requires DistinctNames(Names(segments)) && (kind == Executable ==> "__PAGEZERO" in Names(segments))
      requires forall i :: 0 <= i < |sections| ==> sections[i].segment in Names(segments)
      modifies this
      ensures LaidOut(kind, header, sections, segments)
      ensures SameSkeleton(sections, old(sections)) && Names(segments) == old(Names(segments))
      ensures old(LaidOut(kind, header, sections, segments)) ==> sections == old(sections) && segments == old(segments)
    {
      ghost var s, g := sections, segments;
      AssignAddresses(header);
      if old(LaidOut(kind, header, sections, segments)) {
        hide LaidOut;
        LaidOutUnique(kind, header, sections, s, segments, g);
      }
    }
  }

  // ---- sorting the sections ----------------------------------------------------------------------------

  lemma {:induction false} NamesTotal(a: string, b: string)
    ensures CompareNames(a, b) == 0 <==> a == b
    ensures CompareNames(a, b) < 0 <==> CompareNames(b, a) > 0
    decreases |a|
  {
    if a != "" && b != "" {
      NamesTotal(a[1..], b[1..]);
      assert a == [a[0]] + a[1..] && b == [b[0]] + b[1..];
    }
  }

  lemma {:induction false} NamesTransitive(a: string, b: string, c: string)
    requires CompareNames(a, b) <= 0 && CompareNames(b, c) <= 0
    ensures CompareNames(a, c) <= 0
    decreases |a|
  {
    if a != "" && b != "" && c != "" && a[0] == b[0] == c[0] {
      NamesTransitive(a[1..], b[1..], c[1..]);
    }
  }

  /** The comparison is total and transitive. */
  lemma CompareTotal(kind: Kind, a: Section, b: Section)
    ensures Compare(kind, a, b) <= 0 || Compare(kind, b, a) <= 0
    ensures Compare(kind, a, b) < 0 <==> Compare(kind, b, a) > 0
  {
    NamesTotal(a.segment, b.segment);
    NamesTotal(b.segment, a.segment);
    NamesTotal(a.name, b.name);
    NamesTotal(b.name, a.name);
    hide CompareNames, Position, SectionOrder, StandardNames;
  }

  lemma CompareTransitive(kind: Kind, a: Section, b: Section, c: Section)
    requires Compare(kind, a, b) <= 0 && Compare(kind, b, c) <= 0
    ensures Compare(kind, a, c) <= 0
  {
    NamesTotal(a.segment, b.segment);
    NamesTotal(b.segment, c.segment);
    NamesTotal(a.segment, c.segment);
    hide Position, SectionOrder, StandardNames;
    if CompareNames(a.segment, b.segment) <= 0 && CompareNames(b.segment, c.segment) <= 0 {
      NamesTransitive(a.segment, b.segment, c.segment);
    }
    if CompareNames(a.name, b.name) <= 0 && CompareNames(b.name, c.name) <= 0 {
      NamesTransitive(a.name, b.name, c.name);
    }
    hide CompareNames;
  }

  /** Puts a section behind those not after it, as a stable sort does. */
  function InsertSection(kind: Kind, sorted: seq<Section>, s: Section): (r: seq<Section>)
    ensures multiset(r) == multiset(sorted) + multiset{s}
  {
    if sorted == [] || Compare(kind, s, sorted[0]) < 0 then [s] + sorted
    else
      assert sorted == [sorted[0]] + sorted[1..];
      [sorted[0]] + InsertSection(kind, sorted[1..], s)
  }

  lemma SortedCons(kind: Kind, s: Section, sorted: seq<Section>)
    requires SortedSections(kind, sorted) && forall x :: x in sorted ==> Compare(kind, s, x) <= 0
    ensures SortedSections(kind, [s] + sorted)
  {
    hide Compare;
    var all := [s] + sorted;
    forall i, j | 0 <= i < j < |all| ensures Compare(kind, all[i], all[j]) <= 0 {
      assert all[j] == sorted[j - 1] && sorted[j - 1] in sorted;
    }
  }

  lemma HeadFirst(kind: Kind, sorted: seq<Section>, x: Section)
    requires SortedSections(kind, sorted) && sorted != [] && x in sorted[1..]
    ensures Compare(kind, sorted[0], x) <= 0
  {
    hide Compare;
    var i :| 0 <= i < |sorted[1..]| && sorted[1..][i] == x;
    assert sorted[i + 1] == x;
  }

  lemma InsertMembers(kind: Kind, sorted: seq<Section>, s: Section, x: Section)
    ensures x in InsertSection(kind, sorted, s) <==> x == s || x in sorted
  {
    assert x in multiset(InsertSection(kind, sorted, s)) <==> x in multiset(sorted) || x == s;
  }

  lemma {:induction false} InsertSorted(kind: Kind, sorted: seq<Section>, s: Section)
    requires SortedSections(kind, sorted)
    ensures SortedSections(kind, InsertSection(kind, sorted, s))
    decreases |sorted|
  {
    hide Compare;
    if sorted == [] {
    } else if Compare(kind, s, sorted[0]) < 0 {
      forall x | x in sorted ensures Compare(kind, s, x) <= 0 {
        if x != sorted[0] {
          assert sorted == [sorted[0]] + sorted[1..];
          HeadFirst(kind, sorted, x);
          CompareTransitive(kind, s, sorted[0], x);
        }
      }
      SortedCons(kind, s, sorted);
    } else {
      InsertSorted(kind, sorted[1..], s);
      CompareTotal(kind, s, sorted[0]);
      var rest := InsertSection(kind, sorted[1..], s);
      forall x | x in rest ensures Compare(kind, sorted[0], x) <= 0 {
        InsertMembers(kind, sorted[1..], s, x);
        if x != s {
          HeadFirst(kind, sorted, x);
        }
      }
      SortedCons(kind, sorted[0], rest);
    }
  }

  // ---- ties keep their order ------------------------------------------------------------------------------

  /** The sections that compare equal to `t`, in order. */
  function TiedTo(kind: Kind, sections: seq<Section>, t: Section): seq<Section> {
    if sections == [] then []
    else (if Compare(kind, sections[0], t) == 0 then [sections[0]] else []) + TiedTo(kind, sections[1..], t)
  }

  /** What compares equal comes in the same order. */
  ghost predicate SameTies(kind: Kind, a: seq<Section>, b: seq<Section>) {
    forall t :: TiedTo(kind, a, t) == TiedTo(kind, b, t)
  }

  lemma {:induction false} TiedPush(kind: Kind, sections: seq<Section>, s: Section, t: Section)
    ensures TiedTo(kind, sections + [s], t) == TiedTo(kind, sections, t) + if Compare(kind, s, t) == 0 then [s] else []
  {
    hide Compare;
    if sections == [] {
      assert [] + [s] == [s] && [s][1..] == [];
    } else {
      assert (sections + [s])[1..] == sections[1..] + [s];
      TiedPush(kind, sections[1..], s, t);
    }
  }

  lemma {:induction false} NoneTied(kind: Kind, sections: seq<Section>, t: Section)
    requires forall x :: x in sections ==> Compare(kind, x, t) != 0
    ensures TiedTo(kind, sections, t) == []
  {
    hide Compare;
    if sections != [] {
      NoneTied(kind, sections[1..], t);
    }
  }

  /** What comes after `s` is not tied to anything `s` is tied to. */
  lemma AfterNotTied(kind: Kind, s: Section, y: Section, x: Section, t: Section)
    requires Compare(kind, s, y) < 0 && Compare(kind, y, x) <= 0 && Compare(kind, s, t) == 0
    ensures Compare(kind, x, t) != 0
  {
    hide Compare;
    CompareTotal(kind, s, t);
    CompareTotal(kind, t, s);
    CompareTotal(kind, s, y);
    if Compare(kind, x, t) == 0 {
      CompareTransitive(kind, y, x, t);
      CompareTransitive(kind, y, t, s);
    }
  }

  lemma {:induction false} TiedCons(kind: Kind, x: Section, rest: seq<Section>, t: Section)
    ensures TiedTo(kind, [x] + rest, t) == (if Compare(kind, x, t) == 0 then [x] else []) + TiedTo(kind, rest, t)
  {
    hide Compare;
    assert ([x] + rest)[1..] == rest;
  }

  /** Nothing from `sorted` is tied to `t` once `s`, tied to `t`, goes before all of it. */
  lemma {:induction false} NothingTiedAfter(kind: Kind, sorted: seq<Section>, s: Section, t: Section)
    requires SortedSections(kind, sorted) && sorted != []
    requires Compare(kind, s, sorted[0]) < 0 && Compare(kind, s, t) == 0
    ensures TiedTo(kind, sorted, t) == []
  {
    hide Compare, TiedTo;
    forall x | x in sorted ensures Compare(kind, x, t) != 0 {
      CompareTotal(kind, sorted[0], sorted[0]);
      if x != sorted[0] {
        assert sorted == [sorted[0]] + sorted[1..];
        HeadFirst(kind, sorted, x);
      }
      AfterNotTied(kind, s, sorted[0], x, t);
    }
    NoneTied(kind, sorted, t);
  }

  lemma {:induction false} InsertCases(kind: Kind, sorted: seq<Section>, s: Section)
    requires sorted != []
    ensures Compare(kind, s, sorted[0]) < 0 ==> InsertSection(kind, sorted, s) == [s] + sorted
    ensures Compare(kind, s, sorted[0]) >= 0 ==>
              InsertSection(kind, sorted, s) == [sorted[0]] + InsertSection(kind, sorted[1..], s)
  {
    hide Compare;
  }

  lemma {:induction false} TailSorted(kind: Kind, sorted: seq<Section>)
    requires SortedSections(kind, sorted) && sorted != []
    ensures SortedSections(kind, sorted[1..])
  {
    hide Compare;
  }

  lemma {:induction false} InsertEmpty(kind: Kind, s: Section, t: Section)
    ensures TiedTo(kind, InsertSection(kind, [], s), t)
         == TiedTo(kind, [], t) + if Compare(kind, s, t) == 0 then [s] else []
  {
    hide Compare;
    assert [s] + [] == [s];
    TiedCons(kind, s, [], t);
  }

  lemma {:induction false} StableLater(kind: Kind, x: Section, rest: seq<Section>, s: Section, t: Section)
    requires TiedTo(kind, InsertSection(kind, rest, s), t)
          == TiedTo(kind, rest, t) + if Compare(kind, s, t) == 0 then [s] else []
    ensures TiedTo(kind, [x] + InsertSection(kind, rest, s), t)
         == TiedTo(kind, [x] + rest, t) + if Compare(kind, s, t) == 0 then [s] else []
  {
    hide *;
    TiedCons(kind, x, InsertSection(kind, rest, s), t);
    TiedCons(kind, x, rest, t);
  }

  lemma {:induction false} InsertStable(kind: Kind, sorted: seq<Section>, s: Section, t: Section)
    requires SortedSections(kind, sorted)
    ensures TiedTo(kind, InsertSection(kind, sorted, s), t)
         == TiedTo(kind, sorted, t) + if Compare(kind, s, t) == 0 then [s] else []
    decreases |sorted|
  {
    hide *;
    if sorted == [] {
      InsertEmpty(kind, s, t);
    } else {
      InsertCases(kind, sorted, s);
      if Compare(kind, s, sorted[0]) < 0 {
        TiedCons(kind, s, sorted, t);
        if Compare(kind, s, t) == 0 {
          NothingTiedAfter(kind, sorted, s, t);
        }
      } else {
        TailSorted(kind, sorted);
        InsertStable(kind, sorted[1..], s, t);
        assert sorted == [sorted[0]] + sorted[1..];
        StableLater(kind, sorted[0], sorted[1..], s, t);
      }
    }
  }

  /** `sections.sort_by(compare_output_sections)`: a stable sort. */
  method SortSections(kind: Kind, sections: seq<Section>) returns (r: seq<Section>)
    ensures SortedSections(kind, r) && multiset(r) == multiset(sections)
    ensures SameTies(kind, r, sections)
  {
    r := [];
    hide Compare, InsertSection, TiedTo;
    for i := 0 to |sections|
      invariant SortedSections(kind, r) && multiset(r) == multiset(sections[..i])
      invariant forall t :: TiedTo(kind, r, t) == TiedTo(kind, sections[..i], t)
    {
      InsertSorted(kind, r, sections[i]);
      assert sections[..i + 1] == sections[..i] + [sections[i]];
      forall t ensures TiedTo(kind, InsertSection(kind, r, sections[i]), t) == TiedTo(kind, sections[..i + 1], t) {
        InsertStable(kind, r, sections[i], t);
        TiedPush(kind, sections[..i], sections[i], t);
      }
      r := InsertSection(kind, r, sections[i]);
    }
    assert sections[..|sections|] == sections;
  }

  // ---- a whole layout ------------------------------------------------------------------------------------

  /** What a section is before layout: its atoms' offsets, its sizes and its places are erased. */
  function Bare(s: Section): Section {
    s.(atoms := seq(|s.atoms|, i requires 0 <= i < |s.atoms| => s.atoms[i].(offset := 0)),
       extraOffset := 0, size := 0, addr := 0, fileOff := 0)
  }

  ghost function Bares(sections: seq<Section>): seq<Section> {
    seq(|sections|, i requires 0 <= i < |sections| => Bare(sections[i]))
  }

  /** The atoms and the synthetic data fill the section without overlap. */
  ghost predicate Filled(s: Section) {
    && Packed(s.atoms, if s.extra == 0 || s.atoms == [] then s.size else s.extraOffset) && Tight(s.atoms)
    && (s.extra == 0 ==> s.size == EndOf(s.atoms, |s.atoms|))
    && (s.extra > 0 ==> s.extraOffset + s.extra == s.size)
    && (s.extra > 0 && s.atoms != [] ==> s.extraOffset == RoundUp(EndOf(s.atoms, |s.atoms|), ExtraAlign(s)))
    && (s.extra == 0 || s.atoms == [] ==> s.extraOffset == 0)
  }

  ghost predicate AllFilled(sections: seq<Section>) {
    forall i :: 0 <= i < |sections| ==> Filled(sections[i])
  }

  lemma BareSame(s: Section, r: Section)
    requires SameAtoms(s.atoms, r.atoms) && r == s.(atoms := r.atoms, extraOffset := r.extraOffset, size := r.size)
    ensures Bare(r) == Bare(s)
  {
    assert Bare(r).atoms == Bare(s).atoms;
  }

  method FillOne(s: Section) returns (r: Section)
    ensures Filled(r) && Bare(r) == Bare(s) && FilledFrom(r, s)
  {
    r := PlaceAtoms(s);
    assert r.segment == s.segment && r.name == s.name && r.alignPow == s.alignPow && r.extra == s.extra;
    hide Packed, Tight, RoundUp;
    BareSame(s, r);
  }

  /** The loop over the sections. */
  method FillSections(sections: seq<Section>) returns (r: seq<Section>)
    ensures |r| == |sections| && AllFilled(r) && Bares(r) == Bares(sections)
    ensures forall i :: 0 <= i < |r| ==> FilledFrom(r[i], sections[i])
  {
    r := [];
    hide Filled, Bare, FilledFrom;
    for i := 0 to |sections|
      invariant |r| == i && AllFilled(r)
      invariant forall k :: 0 <= k < i ==> Bare(r[k]) == Bare(sections[k]) && FilledFrom(r[k], sections[k])
    {
      var s := FillOne(sections[i]);
      r := r + [s];
    }
    assert Bares(r) == Bares(sections);
  }

  /** Filling writes atoms, sizes and the synthetic offset only. */
  predicate FilledFrom(r: Section, s: Section) {
    r == s.(atoms := r.atoms, extraOffset := r.extraOffset, size := r.size)
  }

  lemma FilledSorted(kind: Kind, sections: seq<Section>, filled: seq<Section>)
    requires ZerofillLast(sections) && |filled| == |sections|
    requires forall i :: 0 <= i < |filled| ==> FilledFrom(filled[i], sections[i])
    ensures ZerofillLast(filled)
    ensures forall i :: 0 <= i < |filled| ==>
      filled[i].addr == sections[i].addr && filled[i].fileOff == sections[i].fileOff
  {
  }

  /** Sections outside `__PAGEZERO` share no memory and no file bytes. */
  ghost predicate Separated(sections: seq<Section>) {
    forall i, j ::
      (&& 0 <= i < |sections| && 0 <= j < |sections| && i != j
       && sections[i].segment != "__PAGEZERO" && sections[j].segment != "__PAGEZERO") ==>
      (&& ApartInMemory(sections[i], sections[j])
       && (!sections[i].zerofill && !sections[j].zerofill ==> ApartInFile(sections[i], sections[j])))
  }

  /** Sections, and the atoms no more aligned than their section, stand on aligned addresses. */
  ghost predicate WellAligned(sections: seq<Section>) {
    forall i :: 0 <= i < |sections| ==>
      && Aligned(sections[i].addr, sections[i].alignPow)
      && forall n :: 0 <= n < |sections[i].atoms| && sections[i].atoms[n].alignPow <= sections[i].alignPow ==>
           Aligned(sections[i].addr + sections[i].atoms[n].offset, sections[i].atoms[n].alignPow)
  }

  /** File-backed sections are as far into their segment in memory as in the file. */
  ghost predicate Congruent(sections: seq<Section>, segments: seq<Segment>) {
    forall i, k ::
      (&& 0 <= i < |sections| && 0 <= k < |segments| && !sections[i].zerofill
       && sections[i].segment == segments[k].name) ==>
      sections[i].addr - segments[k].vmAddr == sections[i].fileOff - segments[k].fileOff
  }

  ghost predicate PageAligned(sections: seq<Section>) {
    forall i :: 0 <= i < |sections| ==> sections[i].alignPow <= 14
  }

  lemma LaidIsSeparated(kind: Kind, header: nat, sections: seq<Section>, segments: seq<Segment>)
    requires LaidOut(kind, header, sections, segments) && TextFirst(Names(segments))
    requires forall i :: 0 <= i < |sections| ==> sections[i].segment in Names(segments)
    ensures Separated(sections)
  {
    hide LaidOut, TextFirst, ApartInMemory, ApartInFile;
    forall i, j | 0 <= i < |sections| && 0 <= j < |sections| && i != j
      && sections[i].segment != "__PAGEZERO" && sections[j].segment != "__PAGEZERO"
      ensures ApartInMemory(sections[i], sections[j])
      ensures !sections[i].zerofill && !sections[j].zerofill ==> ApartInFile(sections[i], sections[j])
    {
      AllSectionsDisjoint(kind, header, sections, segments, i, j);
    }
  }

  lemma LaidIsCongruent(kind: Kind, header: nat, sections: seq<Section>, segments: seq<Segment>)
    requires LaidOut(kind, header, sections, segments) && ZerofillLast(sections) && PageZeroUntouched(sections)
    requires PageAligned(sections)
    ensures Congruent(sections, segments)
  {
    hide LaidOut, ZerofillLast, PageZeroUntouched;
    forall i, k | 0 <= i < |sections| && 0 <= k < |segments| && !sections[i].zerofill
      && sections[i].segment == segments[k].name
      ensures sections[i].addr - segments[k].vmAddr == sections[i].fileOff - segments[k].fileOff
    {
      AddressFileCongruence(kind, header, sections, segments, k, i);
    }
  }

  lemma LaidIsAligned(kind: Kind, header: nat, sections: seq<Section>, segments: seq<Segment>)
    requires LaidOut(kind, header, sections, segments) && PageZeroUntouched(sections) && AllFilled(sections)
    requires forall i :: 0 <= i < |sections| ==> sections[i].segment in Names(segments)
    ensures WellAligned(sections)
  {
    hide LaidOut, PageZeroUntouched, Aligned, Tight;
    forall i | 0 <= i < |sections|
      ensures Aligned(sections[i].addr, sections[i].alignPow)
      ensures forall n :: 0 <= n < |sections[i].atoms| && sections[i].atoms[n].alignPow <= sections[i].alignPow ==>
        Aligned(sections[i].addr + sections[i].atoms[n].offset, sections[i].atoms[n].alignPow)
    {
      var k :| 0 <= k < |segments| && Names(segments)[k] == sections[i].segment;
      SectionInside(kind, header, sections, segments, k, i);
      assert Filled(sections[i]);
      forall n | 0 <= n < |sections[i].atoms| && sections[i].atoms[n].alignPow <= sections[i].alignPow
        ensures Aligned(sections[i].addr + sections[i].atoms[n].offset, sections[i].atoms[n].alignPow)
      {
        AtomAddressAligned(sections[i], n);
      }
    }
  }

  /** Assigning addresses keeps what filling established. */
  lemma SkeletonKeeps(before: seq<Section>, after: seq<Section>)
    requires SameSkeleton(after, before) && ZerofillLast(before) && AllFilled(before)
    ensures ZerofillLast(after) && AllFilled(after) && Bares(after) == Bares(before)
    ensures forall i :: 0 <= i < |after| ==>
      && after[i].segment == before[i].segment && after[i].name == before[i].name
      && after[i].zerofill == before[i].zerofill && after[i].alignPow == before[i].alignPow
  {
    forall i | 0 <= i < |after| ensures SameShape(after[i], before[i]) && Bare(after[i]) == Bare(before[i]) {
      BareShape(after[i], before[i]);
    }
    hide Bare;
    assert Bares(after) == Bares(before);
    forall i | 0 <= i < |after| ensures Filled(after[i]) {
      assert Filled(before[i]);
      FilledShape(after[i], before[i]);
    }
  }

  lemma BareShape(a: Section, b: Section)
    requires SameShape(a, b)
    ensures Bare(a) == Bare(b)
  {
  }

  lemma FilledShape(a: Section, b: Section)
    requires SameShape(a, b) && Filled(b)
    ensures Filled(a)
  {
  }

  lemma TakeOut<T>(b: seq<T>, k: nat)
    requires k < |b|
    ensures multiset(b) == multiset(Without(b, k)) + multiset{b[k]}
  {
    assert b == b[..k] + [b[k]] + b[k + 1..];
  }

  lemma BaresTakeOut(b: seq<Section>, k: nat)
    requires k < |b|
    ensures multiset(Bares(b)) == multiset(Bares(Without(b, k))) + multiset{Bare(b[k])}
  {
    hide Bare;
    TakeOut(Bares(b), k);
    assert Bares(b)[..k] + Bares(b)[k + 1..] == Bares(Without(b, k));
  }

  function Without<T>(b: seq<T>, k: nat): seq<T>
    requires k < |b|
  {
    b[..k] + b[k + 1..]
  }

  lemma FindIn<T>(a: seq<T>, b: seq<T>) returns (k: nat)
    requires multiset(a) == multiset(b) && a != []
    ensures k < |b| && b[k] == a[0]
  {
    assert a[0] in multiset(a);
    assert a[0] in multiset(b);
    k :| 0 <= k < |b| && b[k] == a[0];
  }

  lemma WithoutSame<T>(a: seq<T>, b: seq<T>, k: nat)
    requires multiset(a) == multiset(b) && a != [] && k < |b| && b[k] == a[0]
    ensures multiset(Without(a, 0)) == multiset(Without(b, k))
  {
    TakeOut(a, 0);
    TakeOut(b, k);
    Cancel(multiset(Without(a, 0)), multiset(Without(b, k)), a[0]);
  }

  lemma Cancel<T>(m: multiset<T>, n: multiset<T>, x: T)
    requires m + multiset{x} == n + multiset{x}
    ensures m == n
  {
    assert m == (m + multiset{x}) - multiset{x};
    assert n == (n + multiset{x}) - multiset{x};
  }

  lemma NoneLeft<T>(b: seq<T>)
    requires multiset(b) == multiset{}
    ensures b == []
  {
    assert |multiset(b)| == |b|;
  }

  /** Erasing commutes with permuting. */
  lemma {:induction false} BaresPermute(a: seq<Section>, b: seq<Section>)
    requires multiset(a) == multiset(b)
    ensures multiset(Bares(a)) == multiset(Bares(b))
    decreases |a|
  {
    hide *;
    if a == [] {
      NoneLeft(b);
    } else {
      var k := FindIn(a, b);
      WithoutSame(a, b, k);
      WithoutShorter(a, 0);
      BaresPermute(Without(a, 0), Without(b, k));
      BaresTakeOut(a, 0);
      BaresTakeOut(b, k);
    }
  }

  lemma WithoutShorter<T>(a: seq<T>, k: nat)
    requires k < |a|
    ensures |Without(a, k)| < |a|
  {
  }

  lemma BareCompares(kind: Kind, s: Section, t: Section)
    ensures Compare(kind, Bare(s), t) == Compare(kind, s, t)
  {
    hide CompareNames, Position, SectionOrder, StandardNames;
  }

  lemma BaresCons(s: Section, sections: seq<Section>)
    ensures Bares([s] + sections) == [Bare(s)] + Bares(sections) && Bares([]) == []
  {
    hide Bare;
  }

  /** Erasing commutes with picking out ties. */
  lemma {:induction false} TiedBare(kind: Kind, sections: seq<Section>, t: Section)
    ensures TiedTo(kind, Bares(sections), t) == Bares(TiedTo(kind, sections, t))
  {
    if sections == [] {
      hide Bare;
      assert Bares([]) == [];
    } else {
      hide *;
      var head, rest := sections[0], sections[1..];
      assert sections == [head] + rest;
      BaresCons(head, rest);
      TiedCons(kind, head, rest, t);
      TiedCons(kind, Bare(head), Bares(rest), t);
      BareCompares(kind, head, t);
      TiedBare(kind, rest, t);
      BaresCons(head, TiedTo(kind, rest, t));
    }
  }

  lemma TiesBare(kind: Kind, a: seq<Section>, b: seq<Section>)
    requires SameTies(kind, a, b)
    ensures SameTies(kind, Bares(a), Bares(b))
  {
    hide TiedTo, Bares;
    forall t ensures TiedTo(kind, Bares(a), t) == TiedTo(kind, Bares(b), t) {
      TiedBare(kind, a, t);
      TiedBare(kind, b, t);
    }
  }

  ghost predicate Zeroed(sections: seq<Section>) {
    forall i :: 0 <= i < |sections| ==> sections[i].addr == 0 && sections[i].fileOff == 0
  }

  /**
   * The layout of any list of sections as they are made.  No section is lost; sections and atoms are
   * aligned; outside a segment called `__PAGEZERO` sections share neither memory nor file bytes; and with
   * section alignment at most a page, address and file offset are congruent in every segment.
   */
  method Build(kind: Kind, given: seq<Section>, header: nat) returns (sections: seq<Section>, segments: seq<Segment>)
    requires Zeroed(given)
    ensures multiset(Bares(sections)) == multiset(Bares(given))
    ensures LaidOut(kind, header, sections, segments) && TextFirst(Names(segments)) && AllFilled(sections)
    ensures SortedSections(kind, sections) && SameTies(kind, Bares(sections), Bares(given))
    ensures SegmentList(kind, sections, Names(segments))
    ensures forall i :: 0 <= i < |sections| ==> sections[i].segment in Names(segments)
    ensures kind == Executable ==> "__PAGEZERO" in Names(segments)
    ensures PageZeroUntouched(sections) && WellAligned(sections) && Separated(sections)
    ensures PageAligned(given) ==> Congruent(sections, segments)
  {
    var sorted := SortSections(kind, given);
    var filled := FillSections(sorted);
    var names := BuildSegmentNames(kind, filled);
    var layout := new Layout(kind, filled, names);
    ReadyToLay(kind, given, sorted, filled);
    hide *;
    layout.AssignAddresses(header);
    sections, segments := layout.sections, layout.segments;
    AfterLaying(kind, header, given, filled, sections, segments);
  }

  lemma ReadyToLay(kind: Kind, given: seq<Section>, sorted: seq<Section>, filled: seq<Section>)
    requires Zeroed(given) && SortedSections(kind, sorted) && multiset(sorted) == multiset(given)
    requires SameTies(kind, sorted, given)
    requires |filled| == |sorted| && Bares(filled) == Bares(sorted)
    requires forall i :: 0 <= i < |filled| ==> FilledFrom(filled[i], sorted[i])
    ensures ZerofillLast(filled) && Zeroed(filled) && multiset(Bares(filled)) == multiset(Bares(given))
    ensures SortedSections(kind, filled) && SameTies(kind, Bares(filled), Bares(given))
    ensures PageAligned(given) ==> PageAligned(filled)
  {
    SortPutsZerofillLast(kind, sorted);
    SameSort(kind, sorted, filled);
    hide Compare, Bares, SameTies;
    TiesBare(kind, sorted, given);
    FilledSorted(kind, sorted, filled);
    BaresPermute(sorted, given);
    forall i | 0 <= i < |sorted| ensures sorted[i] in given {
      assert sorted[i] in multiset(sorted);
      assert sorted[i] in multiset(given);
    }
  }

  /** The comparison looks at segment, name and zerofill only. */
  lemma SameSort(kind: Kind, a: seq<Section>, b: seq<Section>)
    requires SortedSections(kind, a) && |a| == |b|
    requires forall i :: 0 <= i < |a| ==>
      a[i].segment == b[i].segment && a[i].name == b[i].name && a[i].zerofill == b[i].zerofill
    ensures SortedSections(kind, b)
  {
    hide CompareNames, Position, SectionOrder, StandardNames;
    forall i, j | 0 <= i < j < |b| ensures Compare(kind, b[i], b[j]) <= 0 {
      assert Compare(kind, a[i], a[j]) <= 0;
    }
  }

  /** And the list of segments at the sections' segment names. */
  lemma SameList(kind: Kind, a: seq<Section>, b: seq<Section>, names: seq<string>)
    requires SegmentList(kind, a, names) && |a| == |b|
    requires forall i :: 0 <= i < |a| ==> a[i].segment == b[i].segment
    ensures SegmentList(kind, b, names)
  {
    forall x ensures Used(a, x) <==> Used(b, x) {
      if Used(a, x) {
        var i :| 0 <= i < |a| && a[i].segment == x;
        assert b[i].segment == x;
      }
      if Used(b, x) {
        var i :| 0 <= i < |b| && b[i].segment == x;
        assert a[i].segment == x;
      }
    }
    hide Used, StrictNames, StandardPart;
    var custom: seq<string> :| IsCustom(kind, a, custom)
      && names == StandardPart(kind, Used(a, "__DATA_CONST"), Used(a, "__DATA")) + custom + ["__LINKEDIT"];
    assert IsCustom(kind, b, custom);
  }

  lemma AfterLaying(kind: Kind, header: nat, given: seq<Section>, filled: seq<Section>, sections: seq<Section>,
                    segments: seq<Segment>)
    requires ZerofillLast(filled) && Zeroed(filled) && AllFilled(filled)
    requires multiset(Bares(filled)) == multiset(Bares(given))
    requires PageAligned(given) ==> PageAligned(filled)
    requires LaidOut(kind, header, sections, segments) && SameSkeleton(sections, filled) && TextFirst(Names(segments))
    requires forall i :: 0 <= i < |filled| ==> filled[i].segment in Names(segments)
    requires forall i :: 0 <= i < |sections| && sections[i].segment == "__PAGEZERO" ==> sections[i] == filled[i]
    requires SortedSections(kind, filled) && SegmentList(kind, filled, Names(segments))
    requires SameTies(kind, Bares(filled), Bares(given))
    ensures SortedSections(kind, sections) && SegmentList(kind, sections, Names(segments))
    ensures SameTies(kind, Bares(sections), Bares(given))
    ensures forall i :: 0 <= i < |sections| ==> sections[i].segment in Names(segments)
    ensures multiset(Bares(sections)) == multiset(Bares(given)) && AllFilled(sections) && PageZeroUntouched(sections)
    ensures WellAligned(sections) && Separated(sections)
    ensures PageAligned(given) ==> Congruent(sections, segments)
  {
    hide SegmentList, SortedSections, SameTies;
    SkeletonKeeps(filled, sections);
    SameSort(kind, filled, sections);
    SameList(kind, filled, sections, Names(segments));
    assert PageZeroUntouched(sections);
    hide LaidOut, TextFirst, Bares, AllFilled, WellAligned, Separated, Congruent, ZerofillLast;
    LaidIsSeparated(kind, header, sections, segments);
    LaidIsAligned(kind, header, sections, segments);
    if PageAligned(given) {
      LaidIsCongruent(kind, header, sections, segments);
    }
  }
}
