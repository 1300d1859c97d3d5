/** Symbol visibility patterns: the greedy matcher that remembers one star. */
module Glob {
  import opened Wrappers

  /** The declarative meaning of `*` and `?`. */
  predicate Matches(p: string, v: string) {
    if p == "" then v == ""
    else if p[0] == '*' then exists k :: 0 <= k <= |v| && Matches(p[1..], v[k..])
    else v != "" && (p[0] == '?' || p[0] == v[0]) && Matches(p[1..], v[1..])
  }

  predicate Literal(p: char, v: char) { p == '?' || p == v }

  /** What the matcher decides: as above, but a `*` that faces a `*` byte is spent on it. */
  predicate Decides(p: string, v: string)
    decreases |p|
  {
    if p == "" then v == ""
    else if v != "" && Literal(p[0], v[0]) then Decides(p[1..], v[1..])
    else p[0] == '*' && exists k :: 0 <= k <= |v| && Decides(p[1..], v[k..])
  }

  /** Some tail of `v` from `b` on is accepted by the pattern after the star. */
  ghost predicate AnyFrom(p: string, v: string, b: nat) {
    exists k :: b <= k <= |v| && Decides(p, v[k..])
  }

  /** `p[i..j]` matches the bytes of `v` from `b` on, one each. */
  ghost predicate Aligned(p: string, i: nat, j: nat, v: string, b: nat) {
    && i <= j <= |p| && b + (j - i) <= |v|
    && forall n :: i <= n < j ==> Literal(p[n], v[b + (n - i)])
  }

  lemma StarSplit(p: string, v: string, k: nat)
    requires k <= |v| && p != "" && p[0] == '*' && Decides(p, v[k..])
    ensures AnyFrom(p[1..], v, k)
  {
    var tail := v[k..];
    if tail != "" && Literal(p[0], tail[0]) {
      assert tail[1..] == v[k + 1..];
    } else {
      var n :| 0 <= n <= |tail| && Decides(p[1..], tail[n..]);
      assert tail[n..] == v[k + n..];
    }
  }

  lemma StarJoin(p: string, v: string, k: nat)
    requires k <= |v| && p != "" && p[0] == '*' && (k == |v| || v[k] != '*')
    ensures Decides(p, v[k..]) <==> AnyFrom(p[1..], v, k)
  {
    if AnyFrom(p[1..], v, k) {
      var n :| k <= n <= |v| && Decides(p[1..], v[n..]);
      assert v[k..][n - k..] == v[n..];
    }
    if Decides(p, v[k..]) {
      StarSplit(p, v, k);
    }
  }

  lemma AlignedTail(p: string, i: nat, j: nat, v: string, b: nat)
    requires Aligned(p, i, j, v, b) && i < j
    ensures Literal(p[i], v[b]) && Aligned(p, i + 1, j, v, b + 1)
  {
    forall n | i + 1 <= n < j ensures Literal(p[n], v[b + 1 + (n - (i + 1))]) {
      assert Literal(p[n], v[b + (n - i)]);
    }
  }

  /** The first pattern character takes one byte, or is a star that takes any number. */
  lemma FirstTakes(p: string, i: nat, v: string, k: nat)
    requires i < |p| && k <= |v| && Decides(p[i..], v[k..])
    ensures if k < |v| && Literal(p[i], v[k]) then Decides(p[i + 1..], v[k + 1..]) else AnyFrom(p[i + 1..], v, k)
  {
    var rest, tail := p[i..], v[k..];
    assert rest[1..] == p[i + 1..];
    if k < |v| && Literal(p[i], v[k]) {
      assert tail[1..] == v[k + 1..];
    } else {
      StarSplit(rest, v, k);
    }
  }

  /** Starting later never lets the pattern get past `p[i..j]` earlier than the aligned
      attempt did: a star that was spent on a byte there is spent on it again. */
  lemma {:induction false} NeverEarlier(p: string, i: nat, j: nat, v: string, b: nat, k: nat)
    requires Aligned(p, i, j, v, b) && b <= k <= |v| && Decides(p[i..], v[k..])
    ensures AnyFrom(p[j..], v, b + (j - i))
    decreases j - i
  {
    hide Decides, Literal;
    if i < j {
      AlignedTail(p, i, j, v, b);
      FirstTakes(p, i, v, k);
      hide Aligned;
      if k < |v| && Literal(p[i], v[k]) {
        NeverEarlier(p, i + 1, j, v, b + 1, k + 1);
      } else {
        var n :| k <= n <= |v| && Decides(p[i + 1..], v[n..]);
        NeverEarlier(p, i + 1, j, v, b + 1, n);
      }
    }
  }

  /** `wildcard_matches`: one remembered star is enough. */
  method WildcardMatches(pattern: string, value: string) returns (r: bool)
    ensures r == Decides(pattern, value)
  {
    hide Decides, Searching;
    var p: nat, v: nat, backtrack: nat := 0, 0, 0;
    var star: Option<nat> := None;
    assert pattern[0..] == pattern && value[0..] == value;
    while v < |value|
      invariant p <= |pattern| && v <= |value| && backtrack <= |value|
      invariant star.None? ==> Decides(pattern, value) == Decides(pattern[p..], value[v..])
      invariant star.Some? ==> star.value < |pattern| && Searching(pattern, value, star.value, backtrack, p, v)
      decreases if star.None? then |pattern| + 1 else |pattern| - star.value, |value| - backtrack, |value| - v
    {
      if p < |pattern| && Literal(pattern[p], value[v]) {
        StepBoth(pattern, value, p, v);
        if star.Some? {
          SearchStep(pattern, value, star.value, backtrack, p, v);
        }
        p, v := p + 1, v + 1;
      } else if p < |pattern| && pattern[p] == '*' {
        if star.Some? {
          NewStar(pattern, value, star.value, backtrack, p, v);
        } else {
          FirstStar(pattern, value, p, v);
        }
        star, backtrack := Some(p), v;
        p := p + 1;
      } else if star.Some? {
        Backtrack(pattern, value, star.value, backtrack, p, v);
        p := star.value + 1;
        backtrack := backtrack + 1;
        v := backtrack;
      } else {
        Mismatch(pattern, value, p, v);
        return false;
      }
    }
    assert value[v..] == "";
    if star.Some? {
      SearchEnds(pattern, value, star.value, backtrack, p);
    }
    r := SkipStars(pattern, p);
  }

  method SkipStars(pattern: string, from: nat) returns (r: bool)
    requires from <= |pattern|
    ensures r == Decides(pattern[from..], "")
  {
    hide Decides;
    var p := from;
    while p < |pattern| && pattern[p] == '*'
      invariant from <= p <= |pattern|
      invariant Decides(pattern[p..], "") == Decides(pattern[from..], "")
    {
      TrailingStar(pattern, p);
      p := p + 1;
    }
    TrailingEnd(pattern, p);
    r := p == |pattern|;
  }

  /** State of the search after the last star at `s`: the answer lies at or after
      `backtrack`, and the current attempt has come from there to `p`, `v` byte by byte. */
  ghost predicate Searching(pattern: string, value: string, s: nat, backtrack: nat, p: nat, v: nat) {
    && s < p <= |pattern| && backtrack <= v <= |value| && v - backtrack == p - (s + 1)
    && Aligned(pattern, s + 1, p, value, backtrack)
    && Decides(pattern, value) == AnyFrom(pattern[s + 1..], value, backtrack)
    && Decides(pattern[s + 1..], value[backtrack..]) == Decides(pattern[p..], value[v..])
  }

  lemma StepBoth(pattern: string, value: string, p: nat, v: nat)
    requires p < |pattern| && v < |value| && Literal(pattern[p], value[v])
    ensures Decides(pattern[p..], value[v..]) == Decides(pattern[p + 1..], value[v + 1..])
  {
    assert pattern[p..][1..] == pattern[p + 1..] && value[v..][1..] == value[v + 1..];
  }

  lemma SearchStep(pattern: string, value: string, s: nat, backtrack: nat, p: nat, v: nat)
    requires Searching(pattern, value, s, backtrack, p, v)
    requires p < |pattern| && v < |value| && Literal(pattern[p], value[v])
    ensures Searching(pattern, value, s, backtrack, p + 1, v + 1)
  {
    StepBoth(pattern, value, p, v);
    hide Decides;
  }

  lemma FirstStar(pattern: string, value: string, p: nat, v: nat)
    requires p < |pattern| && v < |value| && pattern[p] == '*' && value[v] != '*'
    requires Decides(pattern, value) == Decides(pattern[p..], value[v..])
    ensures Searching(pattern, value, p, v, p + 1, v)
  {
    StarJoin(pattern[p..], value, v);
    assert pattern[p..][1..] == pattern[p + 1..];
  }

  /** Meeting another star: the earlier one can be forgotten. */
  lemma NewStar(pattern: string, value: string, s: nat, backtrack: nat, p: nat, v: nat)
    requires Searching(pattern, value, s, backtrack, p, v)
    requires p < |pattern| && v < |value| && pattern[p] == '*' && value[v] != '*'
    ensures s < p && Searching(pattern, value, p, v, p + 1, v)
  {
    StarJoin(pattern[p..], value, v);
    assert pattern[p..][1..] == pattern[p + 1..];
    if AnyFrom(pattern[s + 1..], value, backtrack) {
      var k :| backtrack <= k <= |value| && Decides(pattern[s + 1..], value[k..]);
      NeverEarlier(pattern, s + 1, p, value, backtrack, k);
      var n :| v <= n <= |value| && Decides(pattern[p..], value[n..]);
      StarSplit(pattern[p..], value, n);
      var i :| n <= i <= |value| && Decides(pattern[p + 1..], value[i..]);
      assert AnyFrom(pattern[p + 1..], value, v);
    }
  }

  lemma Mismatch(pattern: string, value: string, p: nat, v: nat)
    requires p <= |pattern| && v < |value|
    requires p < |pattern| ==> !Literal(pattern[p], value[v]) && pattern[p] != '*'
    ensures !Decides(pattern[p..], value[v..])
  {
  }

  lemma Backtrack(pattern: string, value: string, s: nat, backtrack: nat, p: nat, v: nat)
    requires Searching(pattern, value, s, backtrack, p, v) && v < |value|
    requires p < |pattern| ==> !Literal(pattern[p], value[v]) && pattern[p] != '*'
    ensures backtrack < |value| && Searching(pattern, value, s, backtrack + 1, s + 1, backtrack + 1)
  {
    Mismatch(pattern, value, p, v);
    if AnyFrom(pattern[s + 1..], value, backtrack) {
      var k :| backtrack <= k <= |value| && Decides(pattern[s + 1..], value[k..]);
      assert k != backtrack;
    }
  }

  lemma TrailingStar(pattern: string, p: nat)
    requires p < |pattern| && pattern[p] == '*'
    ensures Decides(pattern[p..], "") == Decides(pattern[p + 1..], "")
  {
    assert pattern[p..][1..] == pattern[p + 1..];
    assert ""[0..] == "";
  }

  lemma TrailingEnd(pattern: string, p: nat)
    requires p <= |pattern| && (p < |pattern| ==> pattern[p] != '*')
    ensures Decides(pattern[p..], "") <==> p == |pattern|
  {
  }

  lemma SearchEnds(pattern: string, value: string, s: nat, backtrack: nat, p: nat)
    requires Searching(pattern, value, s, backtrack, p, |value|)
    ensures Decides(pattern, value) == Decides(pattern[p..], "")
  {
    assert value[|value|..] == "";
    if AnyFrom(pattern[s + 1..], value, backtrack) {
      var k :| backtrack <= k <= |value| && Decides(pattern[s + 1..], value[k..]);
      NeverEarlier(pattern, s + 1, p, value, backtrack, k);
    }
    if Decides(pattern[s + 1..], value[backtrack..]) {
      assert AnyFrom(pattern[s + 1..], value, backtrack);
    }
  }

  // ---- against the declarative meaning ---------------------------------------

  /** The matcher accepts nothing the pattern does not mean. */
  lemma {:induction false} DecidesSound(p: string, v: string)
    requires Decides(p, v)
    ensures Matches(p, v)
    decreases |p|
  {
    if p != "" {
      if v != "" && Literal(p[0], v[0]) {
        DecidesSound(p[1..], v[1..]);
        assert v[1..] == v[1..|v|];
      } else {
        var k :| 0 <= k <= |v| && Decides(p[1..], v[k..]);
        DecidesSound(p[1..], v[k..]);
      }
    }
  }

  lemma {:induction false} DecidesComplete(p: string, v: string)
    requires Matches(p, v) && '*' !in v
    ensures Decides(p, v)
    decreases |p|
  {
    if p != "" {
      if p[0] == '*' {
        var k :| 0 <= k <= |v| && Matches(p[1..], v[k..]);
        assert forall c :: c in v[k..] ==> c in v;
        DecidesComplete(p[1..], v[k..]);
      } else {
        assert forall c :: c in v[1..] ==> c in v;
        DecidesComplete(p[1..], v[1..]);
      }
    }
  }

  function Marks(n: nat): string { seq(n, _ => '?') }

  lemma {:induction false} MarksMatch(n: nat, v: string)
    ensures Matches(Marks(n), v) <==> |v| == n
    ensures Decides(Marks(n), v) <==> |v| == n
    decreases n
  {
    if n > 0 {
      assert Marks(n)[1..] == Marks(n - 1);
      if v != "" {
        MarksMatch(n - 1, v[1..]);
      }
    }
  }

  /** Where a value holds a star byte at `i`, the pattern that copies it up to and
      including that byte and then wants one mark per byte from it on fools the matcher. */
  lemma {:induction false} StarFools(v: string, i: nat)
    requires i < |v| && v[i] == '*' && '*' !in v[..i]
    ensures var p := v[..i + 1] + Marks(|v| - i); Matches(p, v) && !Decides(p, v)
    decreases i
  {
    var p := v[..i + 1] + Marks(|v| - i);
    if i == 0 {
      assert p[1..] == Marks(|v|);
      MarksMatch(|v|, v);
      assert v[0..] == v;
      MarksMatch(|v|, v[1..]);
    } else {
      assert v[..i][0] == v[0];
      assert p[1..] == v[1..][..i] + Marks(|v[1..]| - (i - 1));
      assert forall c :: c in v[1..][..i - 1] ==> c in v[..i] by {
        assert v[1..][..i - 1] == v[..i][1..];
      }
      StarFools(v[1..], i - 1);
    }
  }

  function FirstStarByte(v: string): (i: nat)
    requires '*' in v
    ensures i < |v| && v[i] == '*' && '*' !in v[..i]
  {
    if v[0] == '*' then 0 else
    var i := FirstStarByte(v[1..]);
    assert v[..i + 1] == [v[0]] + v[1..][..i];
    i + 1
  }

  /** The matcher computes the declarative meaning of every pattern on a value exactly when
      the value holds no star byte. */
  lemma GlobMeaning(v: string)
    ensures (forall p :: Decides(p, v) <==> Matches(p, v)) <==> '*' !in v
  {
    if '*' in v {
      var i := FirstStarByte(v);
      StarFools(v, i);
    } else {
      forall p ensures Decides(p, v) <==> Matches(p, v) {
        if Decides(p, v) {
          DecidesSound(p, v);
        }
        if Matches(p, v) {
          DecidesComplete(p, v);
        }
      }
    }
  }

  // ---- the policy ------------------------------------------------------------------

  /** `hides`: outside a non-empty allow list, or on the deny list. */
  method Hides(exported: seq<string>, unexported: seq<string>, name: string) returns (hidden: bool)
    ensures hidden <==> ((exported != [] && forall p :: p in exported ==> !Decides(p, name))
                         || exists p :: p in unexported && Decides(p, name))
    ensures '*' !in name ==>
      (hidden <==> (exported != [] && forall p :: p in exported ==> !Matches(p, name))
                   || exists p :: p in unexported && Matches(p, name))
  {
    GlobMeaning(name);
    hide Matches, Decides;
    var allowed := AnyMatches(exported, name);
    if exported != [] && !allowed {
      return true;
    }
    hidden := AnyMatches(unexported, name);
  }

  method AnyMatches(patterns: seq<string>, name: string) returns (found: bool)
    ensures found <==> exists p :: p in patterns && Decides(p, name)
  {
    hide Decides;
    for i := 0 to |patterns|
      invariant forall j :: 0 <= j < i ==> !Decides(patterns[j], name)
    {
      var m := WildcardMatches(patterns[i], name);
      if m {
        return true;
      }
    }
    found := false;
  }
}
