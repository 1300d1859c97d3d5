/** The suffix-sharing string table. */
module StringTable {
  import opened Wrappers
  import opened Bytes

  type Name = seq<byte>

  const TWO32: nat := 0x1_0000_0000

  predicate NulFree(name: Name) { 0 !in name }

  predicate EndsWith(a: Name, b: Name) {
    |b| <= |a| && a[|a| - |b|..] == b
  }

  // ---- reading -------------------------------------------------------------

  lemma {:induction false} FindNulIs(raw: seq<byte>, from: nat, at: nat)
    requires from <= at < |raw| && raw[at] == 0 && forall i :: from <= i < at ==> raw[i] != 0
    ensures FindNul(raw, from) == Some(at)
    decreases at - from
  {
    if from < at {
      FindNulIs(raw, from + 1, at);
    }
  }

  /** `StringTable::get`, on bytes. */
  function Get(raw: seq<byte>, strx: nat): Result<Name> {
    if strx >= |raw| then Err else
    var end := FindNul(raw, strx);
    if end.None? then Err else Ok(raw[strx..end.value])
  }

  ghost predicate Stored(raw: seq<byte>, at: nat, name: Name) {
    at + |name| < |raw| && raw[at..at + |name|] == name && raw[at + |name|] == 0
  }

  /** A NUL-free name reads back where it is stored. */
  lemma GetStored(raw: seq<byte>, at: nat, name: Name)
    requires NulFree(name) && Stored(raw, at, name)
    ensures Get(raw, at) == Ok(name)
  {
    forall i | at <= i < at + |name| ensures raw[i] != 0 {
      assert raw[at..at + |name|][i - at] == name[i - at] && name[i - at] in name;
    }
    FindNulIs(raw, at, at + |name|);
  }

  lemma StoredSuffix(raw: seq<byte>, at: nat, name: Name, suffix: Name)
    requires Stored(raw, at, name) && EndsWith(name, suffix)
    ensures Stored(raw, at + (|name| - |suffix|), suffix)
  {
    var k := |name| - |suffix|;
    assert raw[at + k..at + |name|] == raw[at..at + |name|][k..];
  }

  lemma StoredGrows(raw: seq<byte>, more: seq<byte>, at: nat, name: Name)
    requires Stored(raw, at, name)
    ensures Stored(raw + more, at, name)
  {
    assert (raw + more)[at..at + |name|] == raw[at..at + |name|];
  }

  // ---- the order -----------------------------------------------------------------

  datatype Ordering = Less | Equal | Greater

  /** Compare from the last byte backwards; a name comes before its own suffixes. */
  function Compare(a: Name, b: Name): Ordering
    decreases |a|
  {
    if a == [] && b == [] then Equal
    else if b == [] then Less
    else if a == [] then Greater
    else if a[|a| - 1] < b[|b| - 1] then Less
    else if a[|a| - 1] > b[|b| - 1] then Greater
    else Compare(a[..|a| - 1], b[..|b| - 1])
  }

  predicate Lt(a: Name, b: Name) { Compare(a, b) == Less }

  /** `reverse_suffix_order`. */
  method ReverseSuffixOrder(lhs: Name, rhs: Name) returns (r: Ordering)
    ensures r == Compare(lhs, rhs)
  {
    var i, j := |lhs|, |rhs|;
    assert lhs[..i] == lhs && rhs[..j] == rhs;
    while true
      invariant 0 <= i <= |lhs| && 0 <= j <= |rhs|
      invariant Compare(lhs[..i], rhs[..j]) == Compare(lhs, rhs)
      decreases i
    {
      if i > 0 && j > 0 {
        assert lhs[..i][..i - 1] == lhs[..i - 1] && rhs[..j][..j - 1] == rhs[..j - 1];
        i, j := i - 1, j - 1;
        if lhs[i] < rhs[j] {
          return Less;
        } else if lhs[i] > rhs[j] {
          return Greater;
        }
      } else if i > 0 {
        return Less;
      } else if j > 0 {
        return Greater;
      } else {
        return Equal;
      }
    }
  }

  lemma {:induction false} CompareTotal(a: Name, b: Name)
    ensures Compare(a, b) == Equal <==> a == b
    ensures Lt(a, b) <==> Compare(b, a) == Greater
    ensures Compare(a, b) == Greater <==> Lt(b, a)
    decreases |a|
  {
    if a != [] && b != [] {
      CompareTotal(a[..|a| - 1], b[..|b| - 1]);
      assert a == a[..|a| - 1] + [a[|a| - 1]] && b == b[..|b| - 1] + [b[|b| - 1]];
    }
  }

  lemma {:induction false} LtTransitive(a: Name, b: Name, c: Name)
    requires Lt(a, b) && Lt(b, c)
    ensures Lt(a, c)
    decreases |a|
  {
    if a != [] && b != [] && c != [] && a[|a| - 1] == b[|b| - 1] == c[|c| - 1] {
      LtTransitive(a[..|a| - 1], b[..|b| - 1], c[..|c| - 1]);
    }
  }

  lemma EndsWithInit(a: Name, b: Name)
    requires b != []
    ensures EndsWith(a, b) <==> a != [] && a[|a| - 1] == b[|b| - 1] && EndsWith(a[..|a| - 1], b[..|b| - 1])
  {
    if a != [] {
      var x, y := a[..|a| - 1], b[..|b| - 1];
      assert b == y + [b[|b| - 1]];
      if |b| <= |a| {
        assert a[|a| - |b|..] == x[|x| - |y|..] + [a[|a| - 1]];
      }
    }
  }

  /** A name comes before its proper suffixes. */
  lemma {:induction false} SuffixLater(a: Name, b: Name)
    requires EndsWith(a, b) && a != b
    ensures Lt(a, b)
    decreases |a|
  {
    if b != [] {
      EndsWithInit(a, b);
      assert a == a[..|a| - 1] + [a[|a| - 1]] && b == b[..|b| - 1] + [b[|b| - 1]];
      SuffixLater(a[..|a| - 1], b[..|b| - 1]);
    }
  }

  /** Everything between a name and its suffix in the order also ends with that suffix. */
  lemma {:induction false} SuffixInterval(a: Name, x: Name, b: Name)
    requires EndsWith(a, b) && Lt(a, x) && Lt(x, b)
    ensures EndsWith(x, b)
    decreases |a|
  {
    if b != [] {
      EndsWithInit(a, b);
      EndsWithInit(x, b);
      SuffixInterval(a[..|a| - 1], x[..|x| - 1], b[..|b| - 1]);
    }
  }

  lemma EndsWithTransitive(a: Name, b: Name, c: Name)
    requires EndsWith(a, b) && EndsWith(b, c)
    ensures EndsWith(a, c)
  {
    assert a[|a| - |c|..] == a[|a| - |b|..][|b| - |c|..];
  }

  // ---- roots and the suffix finder -----------------------------------------------------

  datatype Root = Root(name: Name, offset: nat)

  /** `partition_point`: how many leading roots come before the name. */
  function PartitionPoint(roots: seq<Root>, name: Name): (n: nat)
    ensures n <= |roots|
    ensures forall i :: 0 <= i < n ==> Lt(roots[i].name, name)
    ensures n < |roots| ==> !Lt(roots[n].name, name)
  {
    if roots == [] || !Lt(roots[0].name, name) then 0
    else
      var n := PartitionPoint(roots[1..], name);
      assert forall i :: 1 <= i < n + 1 ==> roots[i] == roots[1..][i - 1];
      n + 1
  }

  /** `find_suffix_offset`. */
  function FindSuffix(roots: seq<Root>, name: Name): Option<nat> {
    if name == [] then Some(0) else
    var n := PartitionPoint(roots, name);
    if n == 0 then None else
    var existing := roots[n - 1];
    if EndsWith(existing.name, name) then Some(existing.offset + (|existing.name| - |name|)) else None
  }

  ghost predicate RootsStored(raw: seq<byte>, roots: seq<Root>) {
    && |raw| > 0 && raw[0] == 0
    && forall i :: 0 <= i < |roots| ==> Stored(raw, roots[i].offset, roots[i].name)
  }

  lemma SharedIsStored(raw: seq<byte>, roots: seq<Root>, name: Name)
    requires RootsStored(raw, roots) && FindSuffix(roots, name).Some?
    ensures Stored(raw, FindSuffix(roots, name).value, name)
  {
    if name == [] {
      assert raw[0..0] == [];
    } else {
      var r := roots[PartitionPoint(roots, name) - 1];
      hide PartitionPoint, Stored;
      StoredSuffix(raw, r.offset, r.name, name);
    }
  }

  /** Space the names need at most, with their terminators. */
  function Room(names: seq<Name>): nat {
    if names == [] then 0 else |names[0]| + 1 + Room(names[1..])
  }

  lemma {:induction false} RoomAt(names: seq<Name>, n: nat)
    requires n < |names|
    ensures Room(names[..n + 1]) == Room(names[..n]) + |names[n]| + 1
    ensures Room(names[..n + 1]) <= Room(names)
  {
    assert names[..n + 1][1..] == names[1..][..n];
    if n > 0 {
      assert names[..n][1..] == names[1..][..n - 1];
      RoomAt(names[1..], n - 1);
    }
  }

  ghost function NamesOf(roots: seq<Root>): seq<Name> {
    seq(|roots|, i requires 0 <= i < |roots| => roots[i].name)
  }

  /** One name: share a suffix or append. */
  method Place(raw: seq<byte>, roots: seq<Root>, name: Name)
    returns (raw': seq<byte>, roots': seq<Root>, offset: nat)
    requires RootsStored(raw, roots) && |raw| < TWO32
    ensures RootsStored(raw', roots') && Stored(raw', offset, name)
    ensures raw <= raw' && |raw'| == |raw| + if FindSuffix(roots, name).Some? then 0 else |name| + 1
    ensures roots' == if FindSuffix(roots, name).Some? then roots else roots + [Root(name, |raw|)]
  {
    hide FindSuffix;
    var shared := FindSuffix(roots, name);
    if shared.Some? {
      SharedIsStored(raw, roots, name);
      return raw, roots, shared.value;
    }
    offset := |raw| % TWO32;
    raw' := raw + name + [0];
    roots' := roots + [Root(name, offset)];
    forall i | 0 <= i < |roots| ensures Stored(raw', roots[i].offset, roots[i].name) {
      StoredGrows(raw, name + [0], roots[i].offset, roots[i].name);
      assert raw + (name + [0]) == raw';
    }
    assert raw'[offset..offset + |name|] == name;
  }

  method Pad(raw: seq<byte>) returns (out: seq<byte>)
    ensures raw <= out && |out| % 8 == 0 && |out| < |raw| + 8
    ensures forall i :: |raw| <= i < |out| ==> out[i] == 0
  {
    out := raw;
    while |out| % 8 != 0
      invariant raw <= out && forall i :: |raw| <= i < |out| ==> out[i] == 0
      invariant |out| <= (|raw| + 7) / 8 * 8
      decreases (|raw| + 7) / 8 * 8 - |out|
    {
      out := out + [0];
    }
  }

  lemma StoredPrefix(raw: seq<byte>, out: seq<byte>, at: nat, name: Name)
    requires raw <= out && Stored(raw, at, name)
    ensures Stored(out, at, name)
  {
    assert out == raw + out[|raw|..];
    StoredGrows(raw, out[|raw|..], at, name);
  }

  // ---- the keyed builder ---------------------------------------------------------------------

  ghost predicate StrictlySorted(names: seq<Name>) {
    forall i, j :: 0 <= i < j < |names| ==> Lt(names[i], names[j])
  }

  function Insert(name: Name, names: seq<Name>): (out: seq<Name>) {
    if names == [] || Lt(name, names[0]) then [name] + names
    else [names[0]] + Insert(name, names[1..])
  }

  lemma ConsSorted(name: Name, names: seq<Name>)
    requires StrictlySorted(names) && forall x :: x in names ==> Lt(name, x)
    ensures StrictlySorted([name] + names)
  {
    hide Lt;
    var all := [name] + names;
    forall i, j | 0 <= i < j < |all| ensures Lt(all[i], all[j]) {
      assert all[j] == names[j - 1] && names[j - 1] in names;
    }
  }

  lemma HeadLeast(names: seq<Name>, x: Name)
    requires StrictlySorted(names) && names != [] && x in names[1..]
    ensures Lt(names[0], x)
  {
    hide Lt;
    var i :| 0 <= i < |names[1..]| && names[1..][i] == x;
    assert names[i + 1] == x;
  }

  lemma LtOther(a: Name, b: Name)
    requires a != b && !Lt(a, b)
    ensures Lt(b, a)
  {
    CompareTotal(a, b);
  }

  lemma InsertMembers(name: Name, names: seq<Name>, x: Name)
    ensures x in Insert(name, names) <==> x == name || x in names
    ensures Room(Insert(name, names)) == Room(names) + |name| + 1
    decreases |names|
  {
    hide Lt;
    if names == [] || Lt(name, names[0]) {
      assert ([name] + names)[1..] == names;
    } else {
      var rest := Insert(name, names[1..]);
      InsertMembers(name, names[1..], x);
      assert names == [names[0]] + names[1..];
      assert ([names[0]] + rest)[1..] == rest;
    }
  }

  /** Inserting a new name keeps the list strictly sorted. */
  lemma {:induction false} InsertSorted(name: Name, names: seq<Name>)
    requires StrictlySorted(names) && name !in names
    ensures StrictlySorted(Insert(name, names))
    decreases |names|
  {
    hide Lt;
    if names == [] {
    } else if Lt(name, names[0]) {
      forall x | x in names ensures Lt(name, x) {
        if x != names[0] {
          assert names == [names[0]] + names[1..];
          HeadLeast(names, x);
          LtTransitive(name, names[0], x);
        }
      }
      ConsSorted(name, names);
    } else {
      InsertSorted(name, names[1..]);
      var rest := Insert(name, names[1..]);
      forall x | x in rest ensures Lt(names[0], x) {
        InsertMembers(name, names[1..], x);
        if x == name {
          LtOther(name, names[0]);
        } else {
          HeadLeast(names, x);
        }
      }
      ConsSorted(names[0], rest);
    }
  }

  ghost predicate Distinct(names: seq<Name>) {
    forall i, j :: 0 <= i < j < |names| ==> names[i] != names[j]
  }

  /** The keys, given in any order, sorted. */
  method SortKeys(keys: seq<Name>) returns (names: seq<Name>)
    requires Distinct(keys)
    ensures StrictlySorted(names) && (forall x :: x in names <==> x in keys) && Room(names) == Room(keys)
  {
    names := [];
    for n := 0 to |keys|
      invariant StrictlySorted(names) && (forall x :: x in names <==> x in keys[..n])
      invariant Room(names) == Room(keys[..n])
    {
      RoomAt(keys, n);
      hide Insert, Room, Lt;
      assert keys[..n + 1] == keys[..n] + [keys[n]];
      assert keys[n] !in keys[..n];
      InsertSorted(keys[n], names);
      forall x ensures x in Insert(keys[n], names) <==> x == keys[n] || x in names {
        InsertMembers(keys[n], names, x);
      }
      InsertMembers(keys[n], names, keys[n]);
      names := Insert(keys[n], names);
    }
    assert keys[..|keys|] == keys;
  }

  /** Another name ends with this one. */
  ghost predicate ProperSuffix(names: seq<Name>, name: Name) {
    exists m :: m in names && m != name && EndsWith(m, name)
  }

  /** A name that must own its bytes. */
  ghost predicate Owner(names: seq<Name>, name: Name) {
    name in names && name != [] && !ProperSuffix(names, name)
  }

  ghost predicate Among(names: seq<Name>, n: nat, name: Name) {
    exists j :: 0 <= j < n <= |names| && names[j] == name
  }

  ghost predicate HasRoot(roots: seq<Root>, name: Name) {
    exists i :: 0 <= i < |roots| && EndsWith(roots[i].name, name)
  }

  ghost predicate SortedRoots(roots: seq<Root>) {
    forall i, j :: 0 <= i < j < |roots| ==> Lt(roots[i].name, roots[j].name)
  }

  /** The roots after the first `n` sorted names: owners among them, in order, and every
      non-empty name so far is a suffix of one. */
  ghost predicate Minimal(names: seq<Name>, n: nat, roots: seq<Root>) {
    && n <= |names| && StrictlySorted(names)
    && SortedRoots(roots)
    && (forall i :: 0 <= i < |roots| ==> Among(names, n, roots[i].name) && Owner(names, roots[i].name))
    && (forall j :: 0 <= j < n && names[j] != [] ==> HasRoot(roots, names[j]))
  }

  lemma RootBefore(names: seq<Name>, n: nat, roots: seq<Root>, i: nat)
    requires Minimal(names, n, roots) && n < |names| && i < |roots|
    ensures Lt(roots[i].name, names[n]) && roots[i].name in names && roots[i].name != names[n]
  {
    hide Lt, EndsWith;
    assert Among(names, n, roots[i].name);
    var j :| 0 <= j < n && names[j] == roots[i].name;
    assert Lt(names[j], names[n]);
    LtIrreflexive(names[n]);
  }

  lemma LtIrreflexive(a: Name)
    ensures !Lt(a, a)
  {
    CompareTotal(a, a);
  }

  lemma AllBefore(names: seq<Name>, n: nat, roots: seq<Root>)
    requires Minimal(names, n, roots) && n < |names|
    ensures PartitionPoint(roots, names[n]) == |roots|
  {
    hide Minimal, Lt, PartitionPoint;
    forall i | 0 <= i < |roots| ensures Lt(roots[i].name, names[n]) {
      RootBefore(names, n, roots, i);
    }
  }

  lemma EarlierHasRoot(names: seq<Name>, n: nat, roots: seq<Root>, m: Name)
    requires Minimal(names, n, roots) && n < |names| && m in names && Lt(m, names[n]) && m != []
    ensures HasRoot(roots, m)
  {
    hide Lt, EndsWith;
    var k :| 0 <= k < |names| && names[k] == m;
    if n < k {
      LtTransitive(m, names[n], m);
      LtIrreflexive(m);
    } else if n == k {
      LtIrreflexive(m);
    }
  }

  lemma LastRootEnds(names: seq<Name>, n: nat, roots: seq<Root>, i: nat)
    requires Minimal(names, n, roots) && n < |names| && i < |roots| && EndsWith(roots[i].name, names[n])
    ensures EndsWith(roots[|roots| - 1].name, names[n])
  {
    hide Lt, EndsWith;
    RootBefore(names, n, roots, |roots| - 1);
    if i < |roots| - 1 {
      SuffixInterval(roots[i].name, roots[|roots| - 1].name, names[n]);
    }
  }

  /** Looking only at the last root loses no sharing. */
  lemma LastRootSuffices(names: seq<Name>, n: nat, roots: seq<Root>)
    requires Minimal(names, n, roots) && n < |names| && names[n] != []
    ensures FindSuffix(roots, names[n]).Some? <==> ProperSuffix(names, names[n])
    ensures FindSuffix(roots, names[n]).Some? <==> HasRoot(roots, names[n])
  {
    var name := names[n];
    AllBefore(names, n, roots);
    assert FindSuffix(roots, name).Some? <==> roots != [] && EndsWith(roots[|roots| - 1].name, name);
    hide PartitionPoint, Minimal, FindSuffix, Lt, EndsWith;
    if FindSuffix(roots, name).Some? {
      RootBefore(names, n, roots, |roots| - 1);
    }
    if HasRoot(roots, name) {
      var i :| 0 <= i < |roots| && EndsWith(roots[i].name, name);
      LastRootEnds(names, n, roots, i);
    }
    if ProperSuffix(names, name) {
      var m :| m in names && m != name && EndsWith(m, name);
      SuffixRoot(names, n, roots, m);
    }
  }

  lemma SuffixRoot(names: seq<Name>, n: nat, roots: seq<Root>, m: Name)
    requires Minimal(names, n, roots) && n < |names| && names[n] != []
    requires m in names && m != names[n] && EndsWith(m, names[n])
    ensures HasRoot(roots, names[n])
  {
    SuffixLater(m, names[n]);
    assert m != [];
    hide Minimal, Lt, EndsWith;
    EarlierHasRoot(names, n, roots, m);
    var i :| 0 <= i < |roots| && EndsWith(roots[i].name, m);
    EndsWithTransitive(roots[i].name, m, names[n]);
  }

  lemma MinimalShare(names: seq<Name>, n: nat, roots: seq<Root>)
    requires Minimal(names, n, roots) && n < |names|
    requires names[n] != [] ==> HasRoot(roots, names[n])
    ensures Minimal(names, n + 1, roots)
  {
    hide Owner, Lt, HasRoot;
    forall i | 0 <= i < |roots| ensures Among(names, n + 1, roots[i].name) {
      assert Among(names, n, roots[i].name);
    }
  }

  lemma MinimalAppend(names: seq<Name>, n: nat, roots: seq<Root>, offset: nat)
    requires Minimal(names, n, roots) && n < |names| && Owner(names, names[n])
    requires forall i :: 0 <= i < |roots| ==> Lt(roots[i].name, names[n])
    ensures Minimal(names, n + 1, roots + [Root(names[n], offset)])
  {
    hide *;
    MinimalParts(names, n, roots);
    var r := Root(names[n], offset);
    SortedAppend(roots, r);
    LastHasRoot(roots, r);
    AmongHere(names, n);
    forall i | 0 <= i < |roots| ensures Among(names, n + 1, roots[i].name) {
      AmongMore(names, n, roots[i].name);
    }
    forall j | 0 <= j < n && names[j] != [] ensures HasRoot(roots + [r], names[j]) {
      HasRootMore(roots, r, names[j]);
    }
    MinimalOf(names, n + 1, roots + [r]);
  }

  lemma MinimalParts(names: seq<Name>, n: nat, roots: seq<Root>)
    requires Minimal(names, n, roots)
    ensures StrictlySorted(names) && SortedRoots(roots) && n <= |names|
    ensures forall i :: 0 <= i < |roots| ==> Among(names, n, roots[i].name) && Owner(names, roots[i].name)
    ensures forall j :: 0 <= j < n && names[j] != [] ==> HasRoot(roots, names[j])
  {
    hide StrictlySorted, SortedRoots, Among, Owner, HasRoot;
  }

  lemma MinimalOf(names: seq<Name>, n: nat, roots: seq<Root>)
    requires StrictlySorted(names) && SortedRoots(roots) && n <= |names|
    requires forall i :: 0 <= i < |roots| ==> Among(names, n, roots[i].name) && Owner(names, roots[i].name)
    requires forall j :: 0 <= j < n && names[j] != [] ==> HasRoot(roots, names[j])
    ensures Minimal(names, n, roots)
  {
    hide StrictlySorted, SortedRoots, Among, Owner, HasRoot;
  }

  lemma AmongHere(names: seq<Name>, n: nat)
    requires n < |names|
    ensures Among(names, n + 1, names[n])
  {
  }

  lemma SortedAppend(roots: seq<Root>, r: Root)
    requires SortedRoots(roots) && forall i :: 0 <= i < |roots| ==> Lt(roots[i].name, r.name)
    ensures SortedRoots(roots + [r])
  {
    hide Lt;
  }

  lemma LastHasRoot(roots: seq<Root>, r: Root)
    ensures HasRoot(roots + [r], r.name)
  {
    assert EndsWith((roots + [r])[|roots|].name, r.name);
  }

  lemma AmongMore(names: seq<Name>, n: nat, name: Name)
    requires Among(names, n, name) && n < |names|
    ensures Among(names, n + 1, name)
  {
  }

  lemma HasRootMore(roots: seq<Root>, r: Root, name: Name)
    requires HasRoot(roots, name)
    ensures HasRoot(roots + [r], name)
  {
    hide EndsWith;
    var i :| 0 <= i < |roots| && EndsWith(roots[i].name, name);
    assert (roots + [r])[i] == roots[i];
  }

  lemma MinimalNext(names: seq<Name>, n: nat, roots: seq<Root>, more: seq<Root>, offset: nat)
    requires Minimal(names, n, roots) && n < |names|
    requires more == if FindSuffix(roots, names[n]).Some? then roots else roots + [Root(names[n], offset)]
    ensures Minimal(names, n + 1, more)
  {
    assert names[n] == [] ==> FindSuffix(roots, names[n]).Some?;
    hide Minimal, Lt, FindSuffix, ProperSuffix, HasRoot;
    if names[n] != [] {
      LastRootSuffices(names, n, roots);
    }
    if FindSuffix(roots, names[n]).Some? {
      MinimalShare(names, n, roots);
    } else {
      forall i | 0 <= i < |roots| ensures Lt(roots[i].name, names[n]) {
        RootBefore(names, n, roots, i);
      }
      MinimalAppend(names, n, roots, offset);
    }
  }

  /** Every owner is a root at the end. */
  lemma OwnersAreRoots(names: seq<Name>, roots: seq<Root>, name: Name)
    requires Minimal(names, |names|, roots)
    ensures name in NamesOf(roots) <==> Owner(names, name)
  {
    hide Lt, EndsWith;
    if Owner(names, name) {
      var j :| 0 <= j < |names| && names[j] == name;
      assert HasRoot(roots, names[j]);
      var i :| 0 <= i < |roots| && EndsWith(roots[i].name, name);
      assert Owner(names, roots[i].name);
      assert NamesOf(roots)[i] == roots[i].name;
    }
    if name in NamesOf(roots) {
      var i :| 0 <= i < |roots| && NamesOf(roots)[i] == name;
      assert Owner(names, roots[i].name);
    }
  }

  /** Placing the sorted names one after the other. */
  lemma NothingPlaced()
    ensures RootsStored([0], []) && Room(NamesOf([])) == 0
  {
  }

  method PlaceAll(names: seq<Name>) returns (raw: seq<byte>, offsets: seq<nat>, ghost roots: seq<Root>)
    requires StrictlySorted(names) && Room(names) + 1 < TWO32
    ensures Minimal(names, |names|, roots) && |raw| == 1 + Room(NamesOf(roots))
    ensures |offsets| == |names| && forall i :: 0 <= i < |names| ==> Stored(raw, offsets[i], names[i])
  {
    hide *;
    raw, offsets := [0], [];
    var rs: seq<Root> := [];
    MinimalStart(names);
    NothingPlaced();
    for n := 0 to |names|
      invariant RootsStored(raw, rs) && Minimal(names, n, rs)
      invariant |raw| == 1 + Room(NamesOf(rs)) <= 1 + Room(names[..n])
      invariant |offsets| == n && forall i :: 0 <= i < n ==> Stored(raw, offsets[i], names[i])
    {
      RoomAt(names, n);
      ghost var was, wasRoots := raw, rs;
      var offset;
      raw, rs, offset := Place(raw, rs, names[n]);
      MinimalNext(names, n, wasRoots, rs, |was|);
      RootsRoom(wasRoots, rs, names[n], |was|);
      forall i | 0 <= i < n ensures Stored(raw, offsets[i], names[i]) {
        StoredPrefix(was, raw, offsets[i], names[i]);
      }
      offsets := offsets + [offset];
    }
    roots := rs;
  }

  /** `finish`: each inserted name reads back at its offset, and the table holds one copy of
      exactly the names that are non-empty and no proper suffix of another inserted name. */
  method Finish(keys: seq<Name>) returns (raw: seq<byte>, offsets: map<Name, nat>, ghost owners: seq<Name>)
    requires Distinct(keys) && (forall k :: k in keys ==> NulFree(k)) && Room(keys) + 1 < TWO32
    ensures forall k :: k in offsets <==> k in keys
    ensures forall k :: k in keys ==> Get(raw, offsets[k]) == Ok(k)
    ensures forall k :: k in owners <==> Owner(keys, k)
    ensures Distinct(owners) && |raw| % 8 == 0 && 1 + Room(owners) <= |raw| < 1 + Room(owners) + 8
  {
    var names := SortKeys(keys);
    var placed, at, roots := PlaceAll(names);
    FinishOwners(keys, names, roots);
    hide Minimal, Distinct, Get, StrictlySorted, NulFree, Owner, Room, Stored, NamesOf;
    raw := Pad(placed);
    owners := NamesOf(roots);
    forall n | 0 <= n < |names| ensures Get(raw, at[n]) == Ok(names[n]) {
      assert names[n] in keys;
      StoredPrefix(placed, raw, at[n], names[n]);
      GetStored(raw, at[n], names[n]);
    }
    offsets := OffsetsFor(raw, names, at);
  }

  method OffsetsFor(ghost raw: seq<byte>, names: seq<Name>, at: seq<nat>) returns (offsets: map<Name, nat>)
    requires |at| == |names| && forall n :: 0 <= n < |names| ==> Get(raw, at[n]) == Ok(names[n])
    ensures forall k :: k in offsets <==> k in names
    ensures forall k :: k in offsets ==> Get(raw, offsets[k]) == Ok(k)
  {
    hide Get;
    offsets := map[];
    for n := 0 to |names|
      invariant forall k :: k in offsets <==> k in names[..n]
      invariant forall k :: k in offsets ==> Get(raw, offsets[k]) == Ok(k)
    {
      offsets := offsets[names[n] := at[n]];
    }
  }

  lemma MinimalStart(names: seq<Name>)
    requires StrictlySorted(names)
    ensures Minimal(names, 0, [])
  {
  }

  lemma RootsRoom(roots: seq<Root>, more: seq<Root>, name: Name, offset: nat)
    requires more == roots || more == roots + [Root(name, offset)]
    ensures Room(NamesOf(more)) == Room(NamesOf(roots)) + if more == roots then 0 else |name| + 1
  {
    if more != roots {
      assert NamesOf(more)[..|roots|] == NamesOf(roots);
      assert NamesOf(more)[..|more|] == NamesOf(more);
      RoomAt(NamesOf(more), |roots|);
    }
  }

  lemma FinishOwners(keys: seq<Name>, names: seq<Name>, roots: seq<Root>)
    requires Minimal(names, |names|, roots) && forall x :: x in names <==> x in keys
    ensures Distinct(NamesOf(roots)) && forall k :: k in NamesOf(roots) <==> Owner(keys, k)
  {
    forall k ensures k in NamesOf(roots) <==> Owner(keys, k) {
      OwnersAreRoots(names, roots, k);
    }
    forall i, j | 0 <= i < j < |roots| ensures roots[i].name != roots[j].name {
      LtIrreflexive(roots[i].name);
    }
  }

  // ---- the positional builder ---------------------------------------------------------------

  /** Entry indices `i` before `j`: by name order, then by position. */
  predicate EntryBefore(names: seq<Name>, i: nat, j: nat)
    requires i < |names| && j < |names|
  {
    Lt(names[i], names[j]) || (names[i] == names[j] && i < j)
  }

  predicate Indices(names: seq<Name>, order: seq<nat>) {
    forall k :: 0 <= k < |order| ==> order[k] < |names|
  }

  function Pick(names: seq<Name>, order: seq<nat>): (out: seq<Name>)
    requires Indices(names, order)
    ensures |out| == |order|
  {
    seq(|order|, k requires 0 <= k < |order| => names[order[k]])
  }

  function InsertEntry(names: seq<Name>, i: nat, order: seq<nat>): (out: seq<nat>)
    requires i < |names| && Indices(names, order)
    ensures Indices(names, out) && forall k: nat :: k in out <==> k == i || k in order
    ensures Room(Pick(names, out)) == Room(Pick(names, order)) + |names[i]| + 1
  {
    if order == [] || EntryBefore(names, i, order[0]) then
      assert Pick(names, [i] + order)[1..] == Pick(names, order);
      [i] + order
    else
      var rest := InsertEntry(names, i, order[1..]);
      assert Pick(names, order)[1..] == Pick(names, order[1..]);
      assert Pick(names, [order[0]] + rest)[1..] == Pick(names, rest);
      assert forall k: nat :: k in order <==> k == order[0] || k in order[1..];
      [order[0]] + rest
  }

  method SortEntries(names: seq<Name>) returns (order: seq<nat>)
    ensures Indices(names, order) && forall k: nat :: k < |names| ==> k in order
    ensures Room(Pick(names, order)) == Room(names)
  {
    order := [];
    for n := 0 to |names|
      invariant Indices(names, order) && forall k: nat :: k < n ==> k in order
      invariant Room(Pick(names, order)) == Room(names[..n])
    {
      RoomAt(names, n);
      order := InsertEntry(names, n, order);
    }
    assert names[..|names|] == names;
  }

  /** `build_with_name_offsets`: offsets in input order, each reading back its name. */
  method BuildWithNameOffsets(names: seq<Name>) returns (raw: seq<byte>, offsets: seq<nat>)
    requires (forall k :: k in names ==> NulFree(k)) && Room(names) + 1 < TWO32
    ensures |offsets| == |names| && |raw| % 8 == 0
    ensures forall i :: 0 <= i < |names| ==> Get(raw, offsets[i]) == Ok(names[i])
  {
    var order := SortEntries(names);
    var placed;
    placed, offsets := PlaceEntries(names, order);
    hide Stored, Get, Pick, Room;
    raw := Pad(placed);
    forall i | 0 <= i < |names| ensures Get(raw, offsets[i]) == Ok(names[i]) {
      StoredPrefix(placed, raw, offsets[i], names[i]);
      GetStored(raw, offsets[i], names[i]);
    }
  }

  /** The first `n` entries of the order read back where their offsets say. */
  ghost predicate EntriesStored(names: seq<Name>, order: seq<nat>, raw: seq<byte>, offsets: seq<nat>, n: nat)
    requires Indices(names, order) && n <= |order| && |offsets| == |names|
  {
    forall k :: 0 <= k < n ==> Stored(raw, offsets[order[k]], names[order[k]])
  }

  lemma StoreEntry(names: seq<Name>, order: seq<nat>, was: seq<byte>, raw: seq<byte>, offsets: seq<nat>, n: nat,
                   offset: nat)
    requires Indices(names, order) && n < |order| && |offsets| == |names| && was <= raw
    requires EntriesStored(names, order, was, offsets, n) && Stored(raw, offset, names[order[n]])
    ensures EntriesStored(names, order, raw, offsets[order[n] := offset], n + 1)
  {
    hide Stored;
    forall k | 0 <= k < n ensures Stored(raw, offsets[order[k]], names[order[k]]) {
      StoredPrefix(was, raw, offsets[order[k]], names[order[k]]);
    }
  }

  lemma AllStored(names: seq<Name>, order: seq<nat>, raw: seq<byte>, offsets: seq<nat>)
    requires Indices(names, order) && |offsets| == |names| && (forall k: nat :: k < |names| ==> k in order)
    requires EntriesStored(names, order, raw, offsets, |order|)
    ensures forall i :: 0 <= i < |names| ==> Stored(raw, offsets[i], names[i])
  {
    hide Stored;
    forall i | 0 <= i < |names| ensures Stored(raw, offsets[i], names[i]) {
      assert i in order;
    }
  }

  lemma PickRoom(names: seq<Name>, order: seq<nat>, n: nat)
    requires Indices(names, order) && n < |order|
    ensures order[n] < |names|
    ensures Room(Pick(names, order)[..n + 1]) == Room(Pick(names, order)[..n]) + |names[order[n]]| + 1
    ensures Room(Pick(names, order)[..n + 1]) <= Room(Pick(names, order))
  {
    RoomAt(Pick(names, order), n);
  }

  method PlaceEntries(names: seq<Name>, order: seq<nat>) returns (raw: seq<byte>, offsets: seq<nat>)
    requires Indices(names, order) && (forall k: nat :: k < |names| ==> k in order)
    requires Room(Pick(names, order)) + 1 < TWO32
    ensures |offsets| == |names| && forall i :: 0 <= i < |names| ==> Stored(raw, offsets[i], names[i])
  {
    ghost var sorted := Pick(names, order);
    raw, offsets := [0], seq(|names|, _ => 0);
    var roots: seq<Root> := [];
    assert RootsStored(raw, roots) && EntriesStored(names, order, raw, offsets, 0);
    hide Stored, FindSuffix, Room, RootsStored, EntriesStored, Pick, Indices;
    for n := 0 to |order|
      invariant RootsStored(raw, roots) && |raw| <= 1 + Room(sorted[..n])
      invariant |offsets| == |names| && EntriesStored(names, order, raw, offsets, n)
    {
      PickRoom(names, order, n);
      ghost var was := raw;
      var index, offset := order[n], 0;
      raw, roots, offset := Place(raw, roots, names[index]);
      StoreEntry(names, order, was, raw, offsets, n, offset);
      offsets := offsets[index := offset];
    }
    AllStored(names, order, raw, offsets);
  }
}
