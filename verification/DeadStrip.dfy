/** Dead stripping: the reachability worklist and the causes it records. */
module DeadStrip {
  import opened Wrappers

  type AtomId = nat

  /** Why an atom is a root. */
  datatype Reason = Entry(name: string) | NoDeadStrip | ExportedDylib

  datatype Cause =
    | Root(reason: Reason)
    | ReferencedBy(source: AtomId)
    | ParentOf(parent: AtomId)
    | RefersToLive(target: AtomId)

  datatype Atom = Atom(parentOf: Option<AtomId>, liveSupport: bool)

  type Edges = map<AtomId, seq<AtomId>>

  function Targets(edges: Edges, a: AtomId): seq<AtomId> {
    if a in edges then edges[a] else []
  }

  /** The atom table (ids start at 1), the forward references and the roots. */
  datatype Graph = Graph(atoms: seq<Atom>, forward: Edges, roots: seq<(AtomId, Reason)>)

  predicate IsAtom(g: Graph, a: AtomId) { 1 <= a <= |g.atoms| }

  ghost predicate ValidGraph(g: Graph) {
    && (forall a, t :: a in g.forward && t in g.forward[a] ==> IsAtom(g, t))
    && (forall i :: 0 <= i < |g.roots| ==> IsAtom(g, g.roots[i].0))
  }

  // ---- the three kinds of edge ---------------------------------------------------

  /** `c` describes `a`, so it lives when `a` does. */
  predicate HasChild(g: Graph, a: AtomId, c: AtomId) {
    IsAtom(g, c) && g.atoms[c - 1].parentOf == Some(a)
  }

  predicate Refers(g: Graph, a: AtomId, t: AtomId) {
    t in Targets(g.forward, a)
  }

  /** The live-support atom `s` refers to the ordinary atom `a`, so it lives when `a` does. */
  predicate HasSupporter(g: Graph, a: AtomId, s: AtomId) {
    && IsAtom(g, s) && g.atoms[s - 1].liveSupport && Refers(g, s, a)
    && IsAtom(g, a) && !g.atoms[a - 1].liveSupport
  }

  predicate Edge(g: Graph, a: AtomId, b: AtomId) {
    HasChild(g, a, b) || Refers(g, a, b) || HasSupporter(g, a, b)
  }

  /** `parent_edges`. */
  method ParentEdges(g: Graph) returns (out: Edges)
    ensures forall a, c: AtomId :: c in Targets(out, a) <==> HasChild(g, a, c)
  {
    out := map[];
    for i := 0 to |g.atoms|
      invariant forall a, c: AtomId :: c in Targets(out, a) <==> HasChild(g, a, c) && c <= i
    {
      if g.atoms[i].parentOf.Some? {
        var parent := g.atoms[i].parentOf.value;
        out := out[parent := Targets(out, parent) + [i + 1]];
      }
    }
  }

  function AddTarget(edges: Edges, a: AtomId, t: AtomId): Edges { edges[a := Targets(edges, a) + [t]] }

  lemma AddTargetIs(edges: Edges, a: AtomId, t: AtomId, x: AtomId, y: AtomId)
    ensures y in Targets(AddTarget(edges, a, t), x) <==> y in Targets(edges, x) || (x == a && y == t)
  {
  }

  /** What the loop has recorded: all of the first `i` atoms and `j` targets of the next. */
  ghost predicate Recorded(g: Graph, i: nat, targets: seq<AtomId>, j: nat, a: AtomId, s: AtomId)
    requires j <= |targets|
  {
    HasSupporter(g, a, s) && (s <= i || (s == i + 1 && a in targets[..j]))
  }

  lemma RecordedNext(g: Graph, i: nat, targets: seq<AtomId>, j: nat, a: AtomId, s: AtomId)
    requires j < |targets|
    ensures Recorded(g, i, targets, j + 1, a, s) <==>
      (Recorded(g, i, targets, j, a, s) || (s == i + 1 && a == targets[j] && HasSupporter(g, a, s)))
  {
    hide HasSupporter;
    assert targets[..j + 1] == targets[..j] + [targets[j]];
  }

  ghost predicate AllRecorded(g: Graph, i: nat, targets: seq<AtomId>, j: nat, out: Edges)
    requires j <= |targets|
  {
    forall a, s: AtomId :: s in Targets(out, a) <==> Recorded(g, i, targets, j, a, s)
  }

  lemma RecordTarget(g: Graph, i: nat, targets: seq<AtomId>, j: nat, out: Edges, next: Edges)
    requires j < |targets| && AllRecorded(g, i, targets, j, out)
    requires next == if HasSupporter(g, targets[j], i + 1) && i + 1 !in Targets(out, targets[j])
                     then AddTarget(out, targets[j], i + 1) else out
    ensures AllRecorded(g, i, targets, j + 1, next)
  {
    hide HasSupporter, Recorded, AddTarget;
    forall a, s: AtomId ensures s in Targets(next, a) <==> Recorded(g, i, targets, j + 1, a, s) {
      RecordedNext(g, i, targets, j, a, s);
      AddTargetIs(out, targets[j], i + 1, a, s);
    }
  }

  /** The inner loop of `live_support_edges`, for the live-support atom after the first `i`. */
  method SupportersFrom(g: Graph, i: nat, targets: seq<AtomId>, edges: Edges) returns (out: Edges)
    requires i < |g.atoms| && g.atoms[i].liveSupport && targets == Targets(g.forward, i + 1)
    requires forall t :: t in targets ==> IsAtom(g, t)
    requires AllRecorded(g, i, targets, 0, edges)
    ensures AllRecorded(g, i, targets, |targets|, out)
  {
    out := edges;
    hide AllRecorded;
    for j := 0 to |targets|
      invariant AllRecorded(g, i, targets, j, out)
    {
      var target := targets[j];
      ghost var before := out;
      assert IsAtom(g, target) && Refers(g, i + 1, target);
      if !g.atoms[target - 1].liveSupport && i + 1 !in Targets(out, target) {
        out := AddTarget(out, target, i + 1);
      }
      RecordTarget(g, i, targets, j, before, out);
    }
  }

  /** `live_support_edges`. */
  method LiveSupportEdges(g: Graph) returns (out: Edges)
    requires ValidGraph(g)
    ensures forall a, s: AtomId :: s in Targets(out, a) <==> HasSupporter(g, a, s)
  {
    out := map[];
    for i := 0 to |g.atoms|
      invariant AllRecorded(g, i, [], 0, out)
    {
      if !g.atoms[i].liveSupport {
        continue;
      }
      out := SupportersFrom(g, i, Targets(g.forward, i + 1), out);
    }
  }

  // ---- liveness as a least set ------------------------------------------------------

  ghost predicate Closed(g: Graph, live: set<AtomId>) {
    && (forall i :: 0 <= i < |g.roots| ==> g.roots[i].0 in live)
    && (forall a, b :: a in live && Edge(g, a, b) ==> b in live)
  }

  ghost predicate Least(g: Graph, live: set<AtomId>) {
    Closed(g, live) && forall t: set<AtomId> :: Closed(g, t) ==> live <= t
  }

  /** The cause of `a` is a root entry or an edge from an atom discovered earlier. */
  ghost predicate Justified(g: Graph, found: seq<AtomId>, i: nat, cause: Cause)
    requires i < |found|
  {
    match cause
    case Root(reason) => (found[i], reason) in g.roots
    case ReferencedBy(a) => Refers(g, a, found[i]) && a in found[..i]
    case ParentOf(a) => HasChild(g, a, found[i]) && a in found[..i]
    case RefersToLive(a) => HasSupporter(g, a, found[i]) && a in found[..i]
  }

  /** `found` lists the live atoms in discovery order, each with a justified cause. */
  ghost predicate Explained(g: Graph, found: seq<AtomId>, live: set<AtomId>, causes: map<AtomId, Cause>) {
    && (forall i, j :: 0 <= i < j < |found| ==> found[i] != found[j])
    && (forall a :: a in live <==> a in found)
    && causes.Keys == live
    && (forall i :: 0 <= i < |found| ==> IsAtom(g, found[i]) && Justified(g, found, i, causes[found[i]]))
  }

  /** Everything an atom's edges lead to has been found. */
  ghost predicate Expanded(g: Graph, live: set<AtomId>, a: AtomId) {
    forall b :: Edge(g, a, b) ==> b in live
  }

  lemma Discover(g: Graph, found: seq<AtomId>, live: set<AtomId>, causes: map<AtomId, Cause>, a: AtomId, cause: Cause)
    requires Explained(g, found, live, causes) && a !in live && IsAtom(g, a)
    requires Justified(g, found + [a], |found|, cause)
    ensures Explained(g, found + [a], live + {a}, causes[a := cause])
  {
    var more := found + [a];
    forall i | 0 <= i < |more| ensures IsAtom(g, more[i]) && Justified(g, more, i, causes[a := cause][more[i]]) {
      if i < |found| {
        assert more[..i] == found[..i] && found[i] in found;
      }
    }
  }

  /** Found atoms belong to every closed set. */
  lemma {:induction false} FoundNeeded(g: Graph, found: seq<AtomId>, live: set<AtomId>, causes: map<AtomId, Cause>,
                                       t: set<AtomId>, i: nat)
    requires Explained(g, found, live, causes) && Closed(g, t) && i < |found|
    ensures found[i] in t
    decreases i
  {
    assert found[i] in causes;
    match causes[found[i]]
    case Root(reason) =>
      var k :| 0 <= k < |g.roots| && g.roots[k] == (found[i], reason);
    case ReferencedBy(a) =>
      var k :| 0 <= k < i && found[k] == a;
      FoundNeeded(g, found, live, causes, t, k);
      assert Edge(g, a, found[i]);
    case ParentOf(a) =>
      var k :| 0 <= k < i && found[k] == a;
      FoundNeeded(g, found, live, causes, t, k);
      assert Edge(g, a, found[i]);
    case RefersToLive(a) =>
      var k :| 0 <= k < i && found[k] == a;
      FoundNeeded(g, found, live, causes, t, k);
      assert Edge(g, a, found[i]);
  }

  function Predecessor(cause: Cause): Option<AtomId> {
    match cause
    case Root(_) => None
    case ReferencedBy(a) => Some(a)
    case ParentOf(a) => Some(a)
    case RefersToLive(a) => Some(a)
  }

  /** `b`, reached for `cause`, is kept by one edge from `a`. */
  predicate CausedBy(g: Graph, a: AtomId, b: AtomId, cause: Cause) {
    match cause
    case Root(_) => false
    case ReferencedBy(x) => x == a && Refers(g, a, b)
    case ParentOf(x) => x == a && HasChild(g, a, b)
    case RefersToLive(x) => x == a && HasSupporter(g, a, b)
  }

  // ---- how far from the roots ---------------------------------------------------------

  /** A cause one step nearer to the roots, or a root. */
  predicate StepDown(causes: map<AtomId, Cause>, levels: map<AtomId, nat>, a: AtomId) {
    && a in causes && a in levels
    && if causes[a].Root? then levels[a] == 1
       else
         var from := Predecessor(causes[a]).value;
         from in levels && levels[a] == levels[from] + 1
  }

  ghost predicate Known(found: seq<AtomId>, levels: map<AtomId, nat>) {
    forall a :: a in levels <==> a in found
  }

  ghost predicate StepsDown(found: seq<AtomId>, causes: map<AtomId, Cause>, levels: map<AtomId, nat>) {
    forall i :: 0 <= i < |found| ==> StepDown(causes, levels, found[i])
  }

  ghost predicate Rising(found: seq<AtomId>, levels: map<AtomId, nat>)
    requires Known(found, levels)
  {
    forall i, j :: 0 <= i < j < |found| ==> levels[found[i]] <= levels[found[j]]
  }

  ghost predicate AtMost(found: seq<AtomId>, levels: map<AtomId, nat>, top: nat)
    requires Known(found, levels)
  {
    forall i :: 0 <= i < |found| ==> levels[found[i]] <= top
  }

  /** The level after the one being expanded. */
  ghost function Top(found: seq<AtomId>, done: nat, levels: map<AtomId, nat>): nat
    requires Known(found, levels) && done <= |found|
  {
    if done == 0 then 1 else levels[found[done - 1]] + 1
  }

  /** Atoms are found level by level; those known after `done` expansions are at most one level further. */
  ghost predicate Layers(found: seq<AtomId>, done: nat, causes: map<AtomId, Cause>, levels: map<AtomId, nat>) {
    && Known(found, levels) && StepsDown(found, causes, levels) && Rising(found, levels)
    && done <= |found| && AtMost(found, levels, Top(found, done, levels))
  }

  /** No edge from `a` leads more than one level further. */
  ghost predicate Near(g: Graph, levels: map<AtomId, nat>, a: AtomId)
    requires a in levels
  {
    forall b :: Edge(g, a, b) ==> b in levels && levels[b] <= levels[a] + 1
  }

  /** `levels` counts the steps of each atom's chain of causes, and no edge or root offers a shorter one. */
  ghost predicate Layered(g: Graph, live: set<AtomId>, causes: map<AtomId, Cause>, levels: map<AtomId, nat>) {
    && levels.Keys == causes.Keys == live
    && (forall a :: a in live ==> StepDown(causes, levels, a) && Near(g, levels, a))
    && (forall i :: 0 <= i < |g.roots| ==> g.roots[i].0 in levels && levels[g.roots[i].0] == 1)
  }

  predicate Keeps(levels: map<AtomId, nat>, higher: map<AtomId, nat>) {
    forall a :: a in levels ==> a in higher && higher[a] == levels[a]
  }

  lemma PushKnown(found: seq<AtomId>, levels: map<AtomId, nat>, t: AtomId, level: nat)
    requires Known(found, levels) && t !in found
    ensures Known(found + [t], levels[t := level]) && Keeps(levels, levels[t := level])
  {
  }

  lemma PushSteps(found: seq<AtomId>, causes: map<AtomId, Cause>, levels: map<AtomId, nat>, t: AtomId, cause: Cause,
                  level: nat)
    requires Known(found, levels) && StepsDown(found, causes, levels) && t !in found
    requires StepDown(causes[t := cause], levels[t := level], t)
    ensures StepsDown(found + [t], causes[t := cause], levels[t := level])
  {
    var more := found + [t];
    forall i | 0 <= i < |more| ensures StepDown(causes[t := cause], levels[t := level], more[i]) {
      if i < |found| {
        assert more[i] == found[i] && found[i] in found && StepDown(causes, levels, found[i]);
      }
    }
  }

  lemma PushRises(found: seq<AtomId>, levels: map<AtomId, nat>, t: AtomId, level: nat)
    requires Known(found, levels) && Rising(found, levels) && AtMost(found, levels, level) && t !in found
    requires Known(found + [t], levels[t := level])
    ensures Rising(found + [t], levels[t := level]) && AtMost(found + [t], levels[t := level], level)
  {
    var more, higher := found + [t], levels[t := level];
    forall i | 0 <= i < |found| ensures more[i] == found[i] && higher[more[i]] == levels[found[i]] <= level {
      assert found[i] in found;
    }
  }

  lemma PushLayer(found: seq<AtomId>, done: nat, causes: map<AtomId, Cause>, levels: map<AtomId, nat>, t: AtomId,
                  cause: Cause, level: nat)
    requires Layers(found, done, causes, levels) && t !in found && level == Top(found, done, levels)
    requires if done == 0 then cause.Root? else !cause.Root? && Predecessor(cause).value == found[done - 1]
    ensures Layers(found + [t], done, causes[t := cause], levels[t := level]) && Keeps(levels, levels[t := level])
  {
    assert done > 0 ==> found[done - 1] in found;
    assert StepDown(causes[t := cause], levels[t := level], t);
    assert (found + [t])[..done] == found[..done];
    hide StepDown, Known, StepsDown, Rising, AtMost, Keeps;
    PushKnown(found, levels, t, level);
    PushSteps(found, causes, levels, t, cause, level);
    PushRises(found, levels, t, level);
    assert done > 0 ==> (found + [t])[done - 1] == found[done - 1] != t;
  }

  lemma StepHere(found: seq<AtomId>, causes: map<AtomId, Cause>, levels: map<AtomId, nat>, i: nat)
    requires StepsDown(found, causes, levels) && i < |found|
    ensures found[i] in levels && 1 <= levels[found[i]]
  {
    assert StepDown(causes, levels, found[i]);
  }

  lemma NextTurn(found: seq<AtomId>, done: nat, causes: map<AtomId, Cause>, levels: map<AtomId, nat>)
    requires Layers(found, done, causes, levels) && done < |found|
    ensures Layers(found, done + 1, causes, levels)
  {
    hide StepsDown;
    assert forall i :: 0 <= i < |found| ==> found[i] in found;
    assert done > 0 ==> levels[found[done - 1]] <= levels[found[done]];
    StepHere(found, causes, levels, done);
  }

  /** An atom whose targets have all been found is near all of them. */
  lemma ExpandedNear(g: Graph, found: seq<AtomId>, done: nat, live: set<AtomId>, causes: map<AtomId, Cause>,
                     levels: map<AtomId, nat>)
    requires Layers(found, done, causes, levels) && 0 < done && (forall a :: a in live <==> a in found)
    requires Expanded(g, live, found[done - 1])
    ensures found[done - 1] in levels && Near(g, levels, found[done - 1])
  {
    hide StepsDown, Edge, Rising;
    assert found[done - 1] in found;
    forall b | Edge(g, found[done - 1], b) ensures b in levels && levels[b] <= levels[found[done - 1]] + 1 {
      assert b in live;
      var i :| 0 <= i < |found| && found[i] == b;
    }
  }

  lemma NearStays(g: Graph, levels: map<AtomId, nat>, higher: map<AtomId, nat>, a: AtomId)
    requires a in levels && Near(g, levels, a) && Keeps(levels, higher)
    ensures a in higher && Near(g, higher, a)
  {
    hide Edge;
  }

  lemma NowLayered(g: Graph, found: seq<AtomId>, live: set<AtomId>, causes: map<AtomId, Cause>,
                   levels: map<AtomId, nat>)
    requires Explained(g, found, live, causes) && Layers(found, |found|, causes, levels)
    requires forall i :: 0 <= i < |found| ==> found[i] in levels && Near(g, levels, found[i])
    requires forall i :: 0 <= i < |g.roots| ==> g.roots[i].0 in levels && levels[g.roots[i].0] == 1
    ensures Layered(g, live, causes, levels)
  {
    hide StepDown, Near, Justified, IsAtom;
    forall a | a in live ensures a in levels && a in causes && StepDown(causes, levels, a) && Near(g, levels, a) {
      assert a in found;
      var i :| 0 <= i < |found| && found[i] == a;
    }
  }

  // ---- the worklist -----------------------------------------------------------------

  datatype Kind = Child | Forward | Support

  function CauseOf(kind: Kind, a: AtomId): Cause {
    match kind
    case Child => ParentOf(a)
    case Forward => ReferencedBy(a)
    case Support => RefersToLive(a)
  }

  predicate EdgeOf(g: Graph, kind: Kind, a: AtomId, b: AtomId) {
    match kind
    case Child => HasChild(g, a, b)
    case Forward => Refers(g, a, b)
    case Support => HasSupporter(g, a, b)
  }

  /** The live set with its causes; `worklist` is what was found but not yet expanded. */
  datatype State = State(live: set<AtomId>, causes: map<AtomId, Cause>, worklist: seq<AtomId>)

  ghost predicate Tracked(g: Graph, found: seq<AtomId>, done: nat, s: State) {
    && Explained(g, found, s.live, s.causes)
    && done <= |found| && s.worklist == found[done..]
  }

  lemma QueuedForReason(g: Graph, found: seq<AtomId>, a: AtomId, kind: Kind, t: AtomId, at: nat)
    requires at < |found| && found[at] == a && EdgeOf(g, kind, a, t)
    ensures Justified(g, found + [t], |found|, CauseOf(kind, a))
  {
    var more := found + [t];
    assert more[..|found|] == found;
  }

  lemma Queue(g: Graph, s: State, a: AtomId, kind: Kind, t: AtomId, found: seq<AtomId>, done: nat)
    requires Tracked(g, found, done, s) && 0 < done <= |found| && found[done - 1] == a
    requires IsAtom(g, t) && EdgeOf(g, kind, a, t) && t !in s.live
    ensures Tracked(g, found + [t], done, State(s.live + {t}, s.causes[t := CauseOf(kind, a)], s.worklist + [t]))
    ensures t !in found
  {
    assert t !in found;
    hide Justified, Explained, IsAtom, EdgeOf, CauseOf;
    var more := found + [t];
    QueuedForReason(g, found, a, kind, t, done - 1);
    Discover(g, found, s.live, s.causes, t, CauseOf(kind, a));
    assert more[done..] == found[done..] + [t];
  }

  lemma QueueLayer(causes: map<AtomId, Cause>, a: AtomId, kind: Kind, t: AtomId, found: seq<AtomId>, done: nat,
                   levels: map<AtomId, nat>)
    requires Layers(found, done, causes, levels) && 0 < done <= |found| && found[done - 1] == a && t !in found
    ensures a in levels
    ensures Layers(found + [t], done, causes[t := CauseOf(kind, a)], levels[t := levels[a] + 1])
    ensures Keeps(levels, levels[t := levels[a] + 1])
  {
    assert a in found;
    hide Layers, Keeps, Known;
    LayersHold(found, done, causes, levels);
    PushLayer(found, done, causes, levels, t, CauseOf(kind, a), levels[a] + 1);
  }

  lemma LayersHold(found: seq<AtomId>, done: nat, causes: map<AtomId, Cause>, levels: map<AtomId, nat>)
    requires Layers(found, done, causes, levels)
    ensures Known(found, levels) && Top(found, done, levels) == if done == 0 then 1 else levels[found[done - 1]] + 1
  {
    hide StepsDown, Rising, AtMost;
  }

  /** One of the three edge loops: every not yet live target is recorded and queued. */
  method Enqueue(g: Graph, s: State, a: AtomId, kind: Kind, targets: seq<AtomId>, ghost found: seq<AtomId>,
                 ghost done: nat, ghost levels: map<AtomId, nat>)
    returns (r: State, ghost more: seq<AtomId>, ghost higher: map<AtomId, nat>)
    requires Tracked(g, found, done, s) && 0 < done <= |found| && found[done - 1] == a
    requires Layers(found, done, s.causes, levels)
    requires forall t :: t in targets ==> IsAtom(g, t) && EdgeOf(g, kind, a, t)
    ensures Tracked(g, more, done, r) && found <= more && s.live <= r.live
    ensures Layers(more, done, r.causes, higher) && Keeps(levels, higher)
    ensures forall t :: t in targets ==> t in r.live
  {
    hide Tracked, EdgeOf, IsAtom, Layers;
    r, more, higher := s, found, levels;
    for i := 0 to |targets|
      invariant Tracked(g, more, done, r) && found <= more && s.live <= r.live
      invariant Layers(more, done, r.causes, higher) && Keeps(levels, higher)
      invariant forall t :: t in targets[..i] ==> t in r.live
    {
      var t := targets[i];
      if t !in r.live {
        Queue(g, r, a, kind, t, more, done);
        QueueLayer(r.causes, a, kind, t, more, done, higher);
        higher := higher[t := higher[a] + 1];
        r := State(r.live + {t}, r.causes[t := CauseOf(kind, a)], r.worklist + [t]);
        more := more + [t];
      }
    }
  }

  /** Each root is live, and the first reason listed for it is its cause. */
  method Seed(g: Graph) returns (s: State, ghost levels: map<AtomId, nat>)
    requires ValidGraph(g)
    ensures Tracked(g, s.worklist, 0, s) && Layers(s.worklist, 0, s.causes, levels)
    ensures forall i :: 0 <= i < |g.roots| ==> g.roots[i].0 in levels && levels[g.roots[i].0] == 1
    ensures forall i :: 0 <= i < |g.roots| ==> g.roots[i].0 in s.live
  {
    s, levels := State({}, map[], []), map[];
    hide Tracked, Layers, Keeps;
    SeedNothing(g);
    for i := 0 to |g.roots|
      invariant Tracked(g, s.worklist, 0, s) && Layers(s.worklist, 0, s.causes, levels)
      invariant forall k :: 0 <= k < i ==> g.roots[k].0 in levels && levels[g.roots[k].0] == 1
      invariant forall k :: 0 <= k < i ==> g.roots[k].0 in s.live
    {
      var (a, reason) := g.roots[i];
      SeedLevels(s.worklist, s.causes, levels);
      TracksLive(g, s.worklist, 0, s);
      if a !in s.live {
        assert g.roots[i] == (a, reason);
        SeedRoot(g, s, a, reason);
        PushLayer(s.worklist, 0, s.causes, levels, a, Root(reason), 1);
        levels := levels[a := 1];
        s := State(s.live + {a}, s.causes[a := Root(reason)], s.worklist + [a]);
      }
    }
  }

  lemma SeedNothing(g: Graph)
    ensures Tracked(g, [], 0, State({}, map[], [])) && Layers([], 0, map[], map[])
  {
  }

  /** Before the first turn everything is on the first level. */
  lemma SeedLevels(found: seq<AtomId>, causes: map<AtomId, Cause>, levels: map<AtomId, nat>)
    requires Layers(found, 0, causes, levels)
    ensures Known(found, levels) && Top(found, 0, levels) == 1 && forall a :: a in levels ==> levels[a] == 1
  {
    hide Rising;
    forall a | a in levels ensures levels[a] == 1 {
      var i :| 0 <= i < |found| && found[i] == a;
      assert StepDown(causes, levels, found[i]);
    }
  }

  lemma SeedRoot(g: Graph, s: State, a: AtomId, reason: Reason)
    requires Tracked(g, s.worklist, 0, s) && a !in s.live && IsAtom(g, a) && (a, reason) in g.roots
    ensures Tracked(g, s.worklist + [a], 0,
                    State(s.live + {a}, s.causes[a := Root(reason)], s.worklist + [a]))
  {
    assert Justified(g, s.worklist + [a], |s.worklist|, Root(reason));
    hide Explained, Justified, IsAtom;
    Discover(g, s.worklist, s.live, s.causes, a, Root(reason));
  }

  /** Distinct atoms: there are at most as many as the table holds. */
  lemma FoundBounded(g: Graph, found: seq<AtomId>, live: set<AtomId>, causes: map<AtomId, Cause>)
    requires Explained(g, found, live, causes)
    ensures |found| <= |g.atoms|
  {
    var all := Ids(|g.atoms|);
    DistinctSize(found);
    var mine := set i | 0 <= i < |found| :: found[i];
    Contained(mine, all);
  }

  ghost function Ids(n: nat): (all: set<AtomId>)
    ensures |all| == n && forall a: AtomId :: a in all <==> 1 <= a <= n
  {
    if n == 0 then {} else Ids(n - 1) + {n}
  }

  lemma {:induction false} DistinctSize(found: seq<AtomId>)
    requires forall i, j :: 0 <= i < j < |found| ==> found[i] != found[j]
    ensures |set i | 0 <= i < |found| :: found[i]| == |found|
  {
    if found != [] {
      var n := |found| - 1;
      var init := found[..n];
      DistinctSize(init);
      var smaller := set i | 0 <= i < |init| :: init[i];
      assert forall i :: 0 <= i < n ==> init[i] == found[i];
      assert (set i | 0 <= i < |found| :: found[i]) == smaller + {found[n]};
      assert found[n] !in smaller;
    }
  }

  lemma {:induction false} Contained(a: set<AtomId>, b: set<AtomId>)
    requires a <= b
    ensures |a| <= |b|
  {
    if a != {} {
      var x :| x in a;
      Contained(a - {x}, b - {x});
    }
  }

  /** The body of the worklist loop. */
  method Expand(g: Graph, s: State, a: AtomId, children: Edges, supporters: Edges, ghost found: seq<AtomId>,
                ghost done: nat, ghost levels: map<AtomId, nat>)
    returns (r: State, ghost more: seq<AtomId>, ghost higher: map<AtomId, nat>)
    requires Layers(found, done, s.causes, levels)
    requires ValidGraph(g) && Tracked(g, found, done, s) && 0 < done <= |found| && found[done - 1] == a
    requires forall x, c: AtomId :: c in Targets(children, x) <==> HasChild(g, x, c)
    requires forall x, c: AtomId :: c in Targets(supporters, x) <==> HasSupporter(g, x, c)
    ensures Tracked(g, more, done, r) && found <= more && s.live <= r.live
    ensures Expanded(g, r.live, a)
    ensures Layers(more, done, r.causes, higher) && Keeps(levels, higher)
  {
    hide Tracked, Layers;
    r, more, higher := Enqueue(g, s, a, Child, Targets(children, a), found, done, levels);
    assert more[done - 1] == a;
    r, more, higher := Enqueue(g, r, a, Forward, Targets(g.forward, a), more, done, higher);
    assert more[done - 1] == a;
    r, more, higher := Enqueue(g, r, a, Support, Targets(supporters, a), more, done, higher);
  }

  lemma WorkedThrough(g: Graph, found: seq<AtomId>, live: set<AtomId>, causes: map<AtomId, Cause>)
    requires Explained(g, found, live, causes)
    requires forall i :: 0 <= i < |g.roots| ==> g.roots[i].0 in live
    requires forall i :: 0 <= i < |found| ==> Expanded(g, live, found[i])
    ensures Least(g, live)
  {
    hide Edge;
    forall t: set<AtomId> | Closed(g, t) ensures live <= t {
      forall a | a in live ensures a in t {
        var i :| 0 <= i < |found| && found[i] == a;
        FoundNeeded(g, found, live, causes, t, i);
      }
    }
    hide Justified;
    forall a, b | a in live && Edge(g, a, b) ensures b in live {
      var i :| 0 <= i < |found| && found[i] == a;
    }
  }

  /** The discovery index only goes back. */
  lemma CauseIsEarlier(g: Graph, found: seq<AtomId>, live: set<AtomId>, causes: map<AtomId, Cause>, at: nat)
    requires Explained(g, found, live, causes) && at < |found|
    ensures found[at] in causes
    ensures var cause := causes[found[at]];
      if cause.Root? then (found[at], cause.reason) in g.roots
      else exists k :: 0 <= k < at && found[k] == Predecessor(cause).value && CausedBy(g, found[k], found[at], cause)
  {
    assert Justified(g, found, at, causes[found[at]]);
    hide Refers, HasChild, HasSupporter;
    var cause := causes[found[at]];
    if !cause.Root? {
      assert Predecessor(cause).value in found[..at];
      var k :| 0 <= k < at && found[..at][k] == Predecessor(cause).value;
      assert found[k] == Predecessor(cause).value;
    }
  }

  /**
   * `DeadStripAnalysis::build`: the live atoms are the least set that holds the roots and is
   * closed under forward, parent and live-support edges, and every cause points back.
   */
  method Build(g: Graph)
    returns (live: set<AtomId>, causes: map<AtomId, Cause>, ghost found: seq<AtomId>, ghost levels: map<AtomId, nat>)
    requires ValidGraph(g)
    ensures Least(g, live)
    ensures Explained(g, found, live, causes) && Layered(g, live, causes, levels)
  {
    hide *;
    var children := ParentEdges(g);
    var supporters := LiveSupportEdges(g);
    var s;
    s, levels := Seed(g);
    found := s.worklist;
    ghost var done: nat := 0;
    ProgressStarts(g, s, levels);
    while s.worklist != []
      invariant Progress(g, found, done, s, levels)
      decreases |g.atoms| - done
    {
      ghost var before, was, lower := found, s, levels;
      ProgressPops(g, found, done, s, levels);
      var a := s.worklist[0];
      s := s.(worklist := s.worklist[1..]);
      done := done + 1;
      s, found, levels := Expand(g, s, a, children, supporters, found, done, levels);
      ProgressTurns(g, before, done - 1, was, lower, found, s, levels);
    }
    live, causes := s.live, s.causes;
    ProgressEnds(g, found, done, s, levels);
  }

  /** The worklist loop after `done` turns. */
  ghost predicate Progress(g: Graph, found: seq<AtomId>, done: nat, s: State, levels: map<AtomId, nat>) {
    && Tracked(g, found, done, s) && Layers(found, done, s.causes, levels)
    && RootsLive(g, s.live) && RootsFirst(g, levels)
    && AllExpanded(g, found, done, s.live) && AllNear(g, found, done, levels)
  }

  ghost predicate RootsLive(g: Graph, live: set<AtomId>) {
    forall i :: 0 <= i < |g.roots| ==> g.roots[i].0 in live
  }

  ghost predicate RootsFirst(g: Graph, levels: map<AtomId, nat>) {
    forall i :: 0 <= i < |g.roots| ==> g.roots[i].0 in levels && levels[g.roots[i].0] == 1
  }

  ghost predicate AllExpanded(g: Graph, found: seq<AtomId>, done: nat, live: set<AtomId>) {
    done <= |found| && forall i :: 0 <= i < done ==> Expanded(g, live, found[i])
  }

  ghost predicate AllNear(g: Graph, found: seq<AtomId>, done: nat, levels: map<AtomId, nat>) {
    done <= |found| && forall i :: 0 <= i < done ==> found[i] in levels && Near(g, levels, found[i])
  }

  lemma RootsStay(g: Graph, live: set<AtomId>, more: set<AtomId>, levels: map<AtomId, nat>, higher: map<AtomId, nat>)
    requires RootsLive(g, live) && RootsFirst(g, levels) && live <= more && Keeps(levels, higher)
    ensures RootsLive(g, more) && RootsFirst(g, higher)
  {
  }

  lemma ExpandedNext(g: Graph, before: seq<AtomId>, found: seq<AtomId>, done: nat, live: set<AtomId>,
                     more: set<AtomId>)
    requires AllExpanded(g, before, done, live) && done < |before| && before <= found && live <= more
    requires Expanded(g, more, before[done])
    ensures AllExpanded(g, found, done + 1, more) && found[done] == before[done]
  {
    hide Edge;
    forall i | 0 <= i <= done ensures Expanded(g, more, found[i]) {
      assert found[i] == before[i];
    }
  }

  lemma NearNext(g: Graph, before: seq<AtomId>, found: seq<AtomId>, done: nat, lower: map<AtomId, nat>,
                 levels: map<AtomId, nat>)
    requires AllNear(g, before, done, lower) && done < |before| && before <= found && Keeps(lower, levels)
    requires before[done] in levels && Near(g, levels, before[done])
    ensures AllNear(g, found, done + 1, levels)
  {
    hide Near;
    forall i | 0 <= i <= done ensures found[i] in levels && Near(g, levels, found[i]) {
      assert found[i] == before[i];
      if i < done {
        NearStays(g, lower, levels, found[i]);
      }
    }
  }

  lemma ProgressStarts(g: Graph, s: State, levels: map<AtomId, nat>)
    requires Tracked(g, s.worklist, 0, s) && Layers(s.worklist, 0, s.causes, levels)
    requires forall i :: 0 <= i < |g.roots| ==> g.roots[i].0 in s.live
    requires forall i :: 0 <= i < |g.roots| ==> g.roots[i].0 in levels && levels[g.roots[i].0] == 1
    ensures Progress(g, s.worklist, 0, s, levels)
  {
    hide Tracked, Layers;
  }

  lemma ProgressPops(g: Graph, found: seq<AtomId>, done: nat, s: State, levels: map<AtomId, nat>)
    requires Progress(g, found, done, s, levels) && s.worklist != []
    ensures done < |found| <= |g.atoms| && found[done] == s.worklist[0]
    ensures Tracked(g, found, done + 1, s.(worklist := s.worklist[1..])) && Layers(found, done + 1, s.causes, levels)
  {
    hide Layers, Explained, Near, Expanded;
    FoundBounded(g, found, s.live, s.causes);
    assert s.worklist[1..] == found[done + 1..];
    NextTurn(found, done, s.causes, levels);
  }

  lemma ProgressTurns(g: Graph, before: seq<AtomId>, done: nat, s: State, lower: map<AtomId, nat>,
                      found: seq<AtomId>, t: State, levels: map<AtomId, nat>)
    requires Progress(g, before, done, s, lower) && done < |before| && before <= found && s.live <= t.live
    requires Tracked(g, found, done + 1, t) && Layers(found, done + 1, t.causes, levels) && Keeps(lower, levels)
    requires Expanded(g, t.live, before[done])
    ensures Progress(g, found, done + 1, t, levels)
  {
    hide *;
    ProgressParts(g, before, done, s, lower);
    TracksLive(g, found, done + 1, t);
    RootsStay(g, s.live, t.live, lower, levels);
    ExpandedNext(g, before, found, done, s.live, t.live);
    ExpandedNear(g, found, done + 1, t.live, t.causes, levels);
    NearNext(g, before, found, done, lower, levels);
    ProgressFrom(g, found, done + 1, t, levels);
  }

  lemma ProgressParts(g: Graph, found: seq<AtomId>, done: nat, s: State, levels: map<AtomId, nat>)
    requires Progress(g, found, done, s, levels)
    ensures Tracked(g, found, done, s) && Layers(found, done, s.causes, levels)
    ensures RootsLive(g, s.live) && RootsFirst(g, levels)
    ensures AllExpanded(g, found, done, s.live) && AllNear(g, found, done, levels)
  {
    hide Tracked, Layers, RootsLive, RootsFirst, AllExpanded, AllNear;
  }

  lemma ProgressFrom(g: Graph, found: seq<AtomId>, done: nat, s: State, levels: map<AtomId, nat>)
    requires Tracked(g, found, done, s) && Layers(found, done, s.causes, levels)
    requires RootsLive(g, s.live) && RootsFirst(g, levels)
    requires AllExpanded(g, found, done, s.live) && AllNear(g, found, done, levels)
    ensures Progress(g, found, done, s, levels)
  {
    hide Tracked, Layers, RootsLive, RootsFirst, AllExpanded, AllNear;
  }

  lemma TracksLive(g: Graph, found: seq<AtomId>, done: nat, s: State)
    requires Tracked(g, found, done, s)
    ensures done <= |found| && forall a :: a in s.live <==> a in found
  {
    hide Justified;
  }

  lemma ProgressEnds(g: Graph, found: seq<AtomId>, done: nat, s: State, levels: map<AtomId, nat>)
    requires Progress(g, found, done, s, levels) && s.worklist == []
    ensures Least(g, s.live) && Explained(g, found, s.live, s.causes) && Layered(g, s.live, s.causes, levels)
  {
    hide Layers, Near, Expanded, Explained, Least, Layered;
    assert done == |found|;
    WorkedThrough(g, found, s.live, s.causes);
    NowLayered(g, found, s.live, s.causes, levels);
  }

  // ---- explanations -----------------------------------------------------------------

  datatype Symbol = Defined(atom: AtomId) | Absolute | OtherSymbol

  datatype Explanation =
    | NotLive
    | IsAbsolute
    | Chain(steps: seq<(AtomId, Cause)>)   // each atom with the cause printed for it
    | NoChain(steps: seq<(AtomId, Cause)>)

  predicate IsLiveSymbol(live: set<AtomId>, symbol: Symbol) {
    match symbol
    case Defined(atom) => atom != 0 && atom in live
    case Absolute => true
    case OtherSymbol => false
  }

  /** A path of real edges, read backwards, from `start` to a root. */
  ghost predicate RootedPath(g: Graph, start: AtomId, steps: seq<(AtomId, Cause)>) {
    && steps != [] && steps[0].0 == start
    && (forall i :: 0 <= i < |steps| - 1 ==> CausedBy(g, steps[i + 1].0, steps[i].0, steps[i].1))
    && steps[|steps| - 1].1.Root?
    && (steps[|steps| - 1].0, steps[|steps| - 1].1.reason) in g.roots
  }

  /** The walk so far: real edges back from `start` to `cursor`, each step discovered before the last. */
  ghost predicate Trail(g: Graph, found: seq<AtomId>, start: AtomId, steps: seq<(AtomId, Cause)>, places: seq<nat>,
                        cursor: AtomId, at: nat) {
    && at < |found| && found[at] == cursor
    && |places| == |steps| && at + |steps| < |found|
    && (if steps == [] then cursor == start
        else steps[0].0 == start && CausedBy(g, cursor, steps[|steps| - 1].0, steps[|steps| - 1].1))
    && (forall i :: 0 <= i < |steps| - 1 ==> CausedBy(g, steps[i + 1].0, steps[i].0, steps[i].1))
    && (forall i :: 0 <= i < |steps| ==> at < places[i] < |found| && found[places[i]] == steps[i].0)
    && (forall i, j :: 0 <= i < j < |steps| ==> places[i] > places[j])
  }

  ghost predicate DistinctSteps(steps: seq<(AtomId, Cause)>) {
    forall i, j :: 0 <= i < j < |steps| ==> steps[i].0 != steps[j].0
  }

  lemma TrailGrows(g: Graph, found: seq<AtomId>, start: AtomId, steps: seq<(AtomId, Cause)>, places: seq<nat>,
                   cursor: AtomId, at: nat, cause: Cause, next: AtomId, k: nat)
    requires Trail(g, found, start, steps, places, cursor, at)
    requires k < at && found[k] == next && CausedBy(g, next, cursor, cause)
    ensures Trail(g, found, start, steps + [(cursor, cause)], places + [at], next, k)
  {
    hide CausedBy;
  }

  lemma TrailEnds(g: Graph, found: seq<AtomId>, start: AtomId, steps: seq<(AtomId, Cause)>, places: seq<nat>,
                  cursor: AtomId, at: nat, cause: Cause)
    requires Trail(g, found, start, steps, places, cursor, at)
    requires cause.Root? && (cursor, cause.reason) in g.roots
    requires forall i, j :: 0 <= i < j < |found| ==> found[i] != found[j]
    ensures RootedPath(g, start, steps + [(cursor, cause)]) && |steps| + 1 <= |found|
    ensures DistinctSteps(steps + [(cursor, cause)])
  {
    hide CausedBy;
    var whole, marks := steps + [(cursor, cause)], places + [at];
    forall i, j | 0 <= i < j < |whole| ensures whole[i].0 != whole[j].0 {
      assert found[marks[i]] == whole[i].0 && found[marks[j]] == whole[j].0;
    }
  }

  lemma LiveCount(g: Graph, found: seq<AtomId>, live: set<AtomId>, causes: map<AtomId, Cause>)
    requires Explained(g, found, live, causes)
    ensures |found| == |live|
    ensures forall i, j :: 0 <= i < j < |found| ==> found[i] != found[j]
  {
    hide Justified;
    DistinctSize(found);
    assert live == set i | 0 <= i < |found| :: found[i];
  }

  /** A path from a root takes at least as many steps as the level says. */
  lemma {:induction false} PathAtLeast(g: Graph, live: set<AtomId>, causes: map<AtomId, Cause>,
                                       levels: map<AtomId, nat>, start: AtomId, steps: seq<(AtomId, Cause)>)
    requires Layered(g, live, causes, levels) && RootedPath(g, start, steps)
    ensures start in levels && levels[start] <= |steps|
    decreases |steps|
  {
    var n := |steps| - 1;
    if n == 0 {
      var k :| 0 <= k < |g.roots| && g.roots[k] == (steps[0].0, steps[0].1.reason);
      hide StepDown, Near;
      assert g.roots[k].0 == start;
    } else {
      PathTail(g, start, steps);
      PathAtLeast(g, live, causes, levels, steps[1].0, steps[1..]);
      assert Near(g, levels, steps[1].0);
      hide StepDown;
      assert Edge(g, steps[1].0, start);
    }
  }

  lemma PathTail(g: Graph, start: AtomId, steps: seq<(AtomId, Cause)>)
    requires RootedPath(g, start, steps) && |steps| > 1
    ensures RootedPath(g, steps[1].0, steps[1..]) && Edge(g, steps[1].0, start)
  {
    assert CausedBy(g, steps[1].0, steps[0].0, steps[0].1);
    assert Edge(g, steps[1].0, start);
    hide CausedBy, Edge;
    var rest := steps[1..];
    forall i | 0 <= i < |rest| - 1 ensures CausedBy(g, rest[i + 1].0, rest[i].0, rest[i].1) {
      var next := i + 1;
      assert rest[i] == steps[next] && rest[i + 1] == steps[next + 1];
    }
    assert rest[|rest| - 1] == steps[|steps| - 1];
  }

  /** No path of real edges from a root to the atom is shorter. */
  ghost predicate Shortest(g: Graph, start: AtomId, steps: seq<(AtomId, Cause)>) {
    forall other :: RootedPath(g, start, other) ==> |steps| <= |other|
  }

  lemma LevelIsShortest(g: Graph, live: set<AtomId>, causes: map<AtomId, Cause>, levels: map<AtomId, nat>,
                        start: AtomId, steps: seq<(AtomId, Cause)>)
    requires Layered(g, live, causes, levels) && start in levels && |steps| == levels[start]
    ensures Shortest(g, start, steps)
  {
    hide Layered, RootedPath;
    forall other | RootedPath(g, start, other) ensures |steps| <= |other| {
      PathAtLeast(g, live, causes, levels, start, other);
    }
  }

  lemma LevelOf(g: Graph, live: set<AtomId>, causes: map<AtomId, Cause>, levels: map<AtomId, nat>, a: AtomId)
    requires Layered(g, live, causes, levels) && a in live
    ensures a in causes && a in levels && StepDown(causes, levels, a)
    ensures Predecessor(causes[a]).Some? ==> Predecessor(causes[a]).value in live
  {
    hide Near;
  }

  /** The walk so far, and how many steps are left. */
  ghost predicate Walk(g: Graph, found: seq<AtomId>, live: set<AtomId>, causes: map<AtomId, Cause>,
                       levels: map<AtomId, nat>, start: AtomId, steps: seq<(AtomId, Cause)>, places: seq<nat>,
                       cursor: AtomId, at: nat) {
    && Explained(g, found, live, causes) && Layered(g, live, causes, levels)
    && Trail(g, found, start, steps, places, cursor, at)
    && start in levels && cursor in levels && |steps| + levels[cursor] == levels[start]
  }

  ghost predicate Arrived(g: Graph, live: set<AtomId>, start: AtomId, steps: seq<(AtomId, Cause)>) {
    && RootedPath(g, start, steps) && |steps| <= |live| && DistinctSteps(steps) && Shortest(g, start, steps)
  }

  lemma ArrivedIs(g: Graph, live: set<AtomId>, start: AtomId, steps: seq<(AtomId, Cause)>, rooted: bool)
    requires rooted ==> Arrived(g, live, start, steps)
    ensures rooted ==>
      RootedPath(g, start, steps) && |steps| <= |live| && DistinctSteps(steps) && Shortest(g, start, steps)
  {
    hide RootedPath, DistinctSteps, Shortest;
  }

  lemma ArrivedFrom(g: Graph, live: set<AtomId>, start: AtomId, steps: seq<(AtomId, Cause)>)
    requires RootedPath(g, start, steps) && |steps| <= |live| && DistinctSteps(steps) && Shortest(g, start, steps)
    ensures Arrived(g, live, start, steps)
  {
    hide RootedPath, DistinctSteps, Shortest;
  }

  lemma RootLevel(causes: map<AtomId, Cause>, levels: map<AtomId, nat>, a: AtomId)
    requires a in causes && a in levels && StepDown(causes, levels, a) && Predecessor(causes[a]).None?
    ensures causes[a].Root? && levels[a] == 1
  {
  }

  lemma WalkStarts(g: Graph, found: seq<AtomId>, live: set<AtomId>, causes: map<AtomId, Cause>,
                   levels: map<AtomId, nat>, start: AtomId) returns (at: nat)
    requires Explained(g, found, live, causes) && Layered(g, live, causes, levels) && start in live
    ensures Walk(g, found, live, causes, levels, start, [], [], start, at) && start in causes
  {
    LevelOf(g, live, causes, levels, start);
    hide Layered, Justified, StepDown;
    at :| at < |found| && found[at] == start;
  }

  lemma WalkEnds(g: Graph, found: seq<AtomId>, live: set<AtomId>, causes: map<AtomId, Cause>,
                 levels: map<AtomId, nat>, start: AtomId, steps: seq<(AtomId, Cause)>, places: seq<nat>,
                 cursor: AtomId, at: nat)
    requires Walk(g, found, live, causes, levels, start, steps, places, cursor, at)
    requires cursor in causes && Predecessor(causes[cursor]).None?
    ensures Arrived(g, live, start, steps + [(cursor, causes[cursor])])
  {
    hide *;
    WalkAt(g, found, live, causes, levels, start, steps, places, cursor, at);
    RootLevel(causes, levels, cursor);
    LiveCount(g, found, live, causes);
    CauseIsEarlier(g, found, live, causes, at);
    TrailEnds(g, found, start, steps, places, cursor, at, causes[cursor]);
    var whole := steps + [(cursor, causes[cursor])];
    LevelIsShortest(g, live, causes, levels, start, whole);
    ArrivedFrom(g, live, start, whole);
  }

  lemma WalkAt(g: Graph, found: seq<AtomId>, live: set<AtomId>, causes: map<AtomId, Cause>,
               levels: map<AtomId, nat>, start: AtomId, steps: seq<(AtomId, Cause)>, places: seq<nat>,
               cursor: AtomId, at: nat)
    requires Walk(g, found, live, causes, levels, start, steps, places, cursor, at) && cursor in causes
    ensures at < |found| && found[at] == cursor && cursor in live
    ensures start in levels && cursor in levels && |steps| + levels[cursor] == levels[start]
    ensures StepDown(causes, levels, cursor)
    ensures Explained(g, found, live, causes) && Layered(g, live, causes, levels)
    ensures Trail(g, found, start, steps, places, cursor, at)
    ensures Predecessor(causes[cursor]).Some? ==> Predecessor(causes[cursor]).value in live
  {
    assert at < |found| && found[at] == cursor;
    hide Trail, Explained;
    LayeredKeys(g, live, causes, levels);
    LevelOf(g, live, causes, levels, cursor);
  }

  lemma LayeredKeys(g: Graph, live: set<AtomId>, causes: map<AtomId, Cause>, levels: map<AtomId, nat>)
    requires Layered(g, live, causes, levels)
    ensures levels.Keys == causes.Keys == live
  {
    hide StepDown, Near;
  }

  lemma WalkGoesOn(g: Graph, found: seq<AtomId>, live: set<AtomId>, causes: map<AtomId, Cause>,
                   levels: map<AtomId, nat>, start: AtomId, steps: seq<(AtomId, Cause)>, places: seq<nat>,
                   cursor: AtomId, at: nat) returns (k: nat)
    requires Walk(g, found, live, causes, levels, start, steps, places, cursor, at)
    requires cursor in causes && Predecessor(causes[cursor]).Some?
    ensures k < at && Predecessor(causes[cursor]).value in causes
    ensures Walk(g, found, live, causes, levels, start, steps + [(cursor, causes[cursor])], places + [at],
                 Predecessor(causes[cursor]).value, k)
  {
    WalkAt(g, found, live, causes, levels, start, steps, places, cursor, at);
    hide Explained, Layered, Trail, CausedBy;
    var cause, next := causes[cursor], Predecessor(causes[cursor]).value;
    CauseIsEarlier(g, found, live, causes, at);
    k :| k < at && found[k] == next && CausedBy(g, next, cursor, cause);
    TrailGrows(g, found, start, steps, places, cursor, at, cause, next, k);
    LayeredKeys(g, live, causes, levels);
  }

  /**
   * `format_symbol_explanation`: for a live atom the walk ends at a root, along edges that are
   * really there, never visits an atom twice and never finds one without a cause; and no path from
   * a root to the atom is shorter, because the worklist is first in, first out.
   */
  method Explain(g: Graph, live: set<AtomId>, causes: map<AtomId, Cause>, symbol: Symbol, ghost found: seq<AtomId>,
                 ghost levels: map<AtomId, nat>)
    returns (e: Explanation)
    requires Explained(g, found, live, causes) && Layered(g, live, causes, levels)
    ensures e.NotLive? <==> !IsLiveSymbol(live, symbol)
    ensures e.IsAbsolute? <==> symbol.Absolute?
    ensures !e.NoChain?
    ensures e.Chain? ==> symbol.Defined? && RootedPath(g, symbol.atom, e.steps)
    ensures e.Chain? ==> |e.steps| <= |live| && DistinctSteps(e.steps) && Shortest(g, symbol.atom, e.steps)
  {
    if !IsLiveSymbol(live, symbol) {
      return NotLive;
    }
    if symbol.Absolute? {
      return IsAbsolute;
    }
    var cursor := symbol.atom;
    var steps: seq<(AtomId, Cause)> := [];
    hide *;
    ghost var at := WalkStarts(g, found, live, causes, levels, cursor);
    ghost var places: seq<nat> := [];
    var rooted := false;
    while !rooted && cursor in causes
      invariant !rooted ==> Walk(g, found, live, causes, levels, symbol.atom, steps, places, cursor, at)
      invariant !rooted ==> cursor in causes
      invariant rooted ==> Arrived(g, live, symbol.atom, steps)
      decreases !rooted, at
    {
      var cause := causes[cursor];
      match Predecessor(cause) {
        case None =>
          WalkEnds(g, found, live, causes, levels, symbol.atom, steps, places, cursor, at);
          steps := steps + [(cursor, cause)];
          rooted := true;
        case Some(next) =>
          ghost var k := WalkGoesOn(g, found, live, causes, levels, symbol.atom, steps, places, cursor, at);
          steps, places := steps + [(cursor, cause)], places + [at];
          cursor, at := next, k;
      }
    }
    ArrivedIs(g, live, symbol.atom, steps, rooted);
    e := if rooted then Chain(steps) else NoChain(steps);
  }
}
