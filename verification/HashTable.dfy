/** The SysV `.hash` section: bucket heads and chains over the dynamic symbols. */
module HashTable {
  import opened Wrappers

  type Name = seq<bv8>

  // ---- elf_hash ---------------------------------------------------------------

  /** What the step does to the shifted hash with the next byte added. */
  function Mix(x: bv32): (r: bv32)
    ensures r < 0x1000_0000
  {
    var g := x & 0xf000_0000;
    var mixed := if g != 0 then x ^ (g >> 24) else x;
    mixed & !g
  }

  function HashStep(h: bv32, c: bv8): (r: bv32)
    ensures r < 0x1000_0000
  {
    Mix((h << 4) + (c as bv32))
  }

  /** The top four bits are cleared and the rest but bits 4 to 7 stays; all of it when the top bits are clear. */
  lemma MixKeeps(x: bv32)
    ensures x < 0x1000_0000 ==> Mix(x) == x
    ensures Mix(x) & 0x0fff_ff0f == x & 0x0fff_ff0f && Mix(x) & 0xf000_0000 == 0
  {
  }

  /** Bits 4 to 7 are exclusive-ored with the top four. */
  lemma MixFolds(x: bv32)
    ensures (Mix(x) >> 4) & 0xf == ((x >> 4) & 0xf) ^ (x >> 28)
  {
  }

  lemma Sixteen(h: bv32)
    ensures h << 4 == 16 * h
  {
  }

  /** The step of the gABI: sixteen times the hash plus the byte, in 32 bits, mixed. */
  lemma HashStepMeans(h: bv32, c: bv8, x: bv32)
    requires x == 16 * h + (c as bv32)
    ensures HashStep(h, c) == Mix(x)
  {
    hide Mix;
    Sixteen(h);
  }

  function HashOf(name: Name): bv32 {
    if name == [] then 0 else HashStep(HashOf(name[..|name| - 1]), name[|name| - 1])
  }

  /** `elf_hash`: below 2^28 after every byte. */
  method ElfHash(name: Name) returns (h: bv32)
    ensures h == HashOf(name) && h < 0x1000_0000
  {
    hide HashStep;
    h := 0;
    for i := 0 to |name|
      invariant h == HashOf(name[..i]) && h < 0x1000_0000
    {
      assert name[..i + 1][..i] == name[..i];
      h := HashStep(h, name[i]);
    }
    assert name[..|name|] == name;
  }

  // ---- the table, characterised without the builder -------------------------------

  /** `names[0]` is the null symbol and is never indexed. */
  function Bucket(names: seq<Name>, i: nat): (b: nat)
    requires i < |names|
    ensures b < BucketCount(names)
  {
    (HashOf(names[i]) as nat) % BucketCount(names)
  }

  function BucketCount(names: seq<Name>): nat { if |names| == 0 then 1 else |names| }

  /** The last symbol before `n` that falls in bucket `b`; 0 when there is none. */
  function Latest(names: seq<Name>, b: nat, n: nat): (i: nat)
    requires n <= |names|
    ensures i < n || i == 0
    ensures i > 0 ==> Bucket(names, i) == b
    ensures forall k :: i < k < n ==> Bucket(names, k) != b
  {
    if n <= 1 then 0
    else if Bucket(names, n - 1) == b then n - 1
    else Latest(names, b, n - 1)
  }

  /** Buckets head, and chains link, each bucket's symbols from the last to the first. */
  ghost predicate Indexed(names: seq<Name>, buckets: seq<nat>, chain: seq<nat>, n: nat) {
    && n <= |names| && |buckets| == BucketCount(names) && |chain| == |names|
    && (forall b {:trigger buckets[b]} :: 0 <= b < |buckets| ==> buckets[b] == Latest(names, b, n))
    && (forall i {:trigger chain[i]} :: 0 < i < n ==> chain[i] == Latest(names, Bucket(names, i), i))
  }

  lemma IndexedNext(names: seq<Name>, buckets: seq<nat>, chain: seq<nat>, si: nat)
    requires 0 < si < |names| && Indexed(names, buckets, chain, si)
    ensures var b := Bucket(names, si);
      Indexed(names, buckets[b := si], chain[si := buckets[b]], si + 1)
  {
    hide HashOf;
    var here := Bucket(names, si);
    var buckets', chain' := buckets[here := si], chain[si := buckets[here]];
    forall b | 0 <= b < |buckets| ensures buckets'[b] == Latest(names, b, si + 1) {
      assert buckets[b] == Latest(names, b, si);
    }
    forall i | 0 < i < si + 1 ensures chain'[i] == Latest(names, Bucket(names, i), i) {
      assert i < si ==> chain[i] == Latest(names, Bucket(names, i), i);
    }
  }

  /** The builder. */
  method BuildHash(names: seq<Name>) returns (bucketSeq: seq<nat>, chainSeq: seq<nat>)
    requires |names| > 0
    ensures Indexed(names, bucketSeq, chainSeq, |names|)
  {
    var nbucket := BucketCount(names);
    var buckets, chain := new nat[nbucket](_ => 0), new nat[|names|](_ => 0);
    hide HashOf, Latest;
    var si := 1;
    IndexedStart(names, buckets[..], chain[..]);
    while si < |names|
      invariant 1 <= si <= |names| && buckets.Length == nbucket && chain.Length == |names|
      invariant Indexed(names, buckets[..], chain[..], si)
    {
      var h := ElfHash(names[si]);
      var b := (h as nat) % nbucket;
      ghost var was: seq<nat>, wasChain: seq<nat> := buckets[..], chain[..];
      hide Indexed;
      IndexedNext(names, was, wasChain, si);
      chain[si] := buckets[b];
      buckets[b] := si;
      assert buckets[..] == was[b := si] && chain[..] == wasChain[si := was[b]];
      si := si + 1;
    }
    bucketSeq, chainSeq := buckets[..], chain[..];
  }

  lemma IndexedStart(names: seq<Name>, buckets: seq<nat>, chain: seq<nat>)
    requires |names| > 0 && |buckets| == BucketCount(names) && |chain| == |names|
    requires forall b :: 0 <= b < |buckets| ==> buckets[b] == 0
    ensures Indexed(names, buckets, chain, 1)
  {
  }

  // ---- walking it -----------------------------------------------------------------------

  ghost predicate Descending(chain: seq<nat>) {
    forall i :: 0 < i < |chain| ==> chain[i] < i
  }

  /** The indices a loader visits from `i`, in order. */
  function Walk(chain: seq<nat>, i: nat): seq<nat>
    requires Descending(chain) && i < |chain|
  {
    if i == 0 then [] else [i] + Walk(chain, chain[i])
  }

  lemma ChainsDescend(names: seq<Name>, buckets: seq<nat>, chain: seq<nat>)
    requires Indexed(names, buckets, chain, |names|)
    ensures Descending(chain)
  {
    hide Bucket;
  }

  /** Walking from the last symbol of bucket `b` before `n` visits exactly that bucket's
      symbols before `n`, each once, from the last to the first. */
  lemma {:induction false} WalkVisits(names: seq<Name>, buckets: seq<nat>, chain: seq<nat>, b: nat, n: nat)
    requires Indexed(names, buckets, chain, |names|) && 0 < n <= |names| && Descending(chain)
    ensures Latest(names, b, n) < |chain|
    ensures var walk := Walk(chain, Latest(names, b, n));
      && (forall i :: i in walk <==> 0 < i < n && Bucket(names, i) == b)
      && (forall j, k :: 0 <= j < k < |walk| ==> walk[j] > walk[k])
    decreases n
  {
    hide Bucket;
    var i := Latest(names, b, n);
    if i > 0 {
      assert chain[i] == Latest(names, b, i);
      WalkVisits(names, buckets, chain, b, i);
      var rest := Walk(chain, chain[i]);
      hide Indexed, Latest;
      assert forall k :: 0 <= k < |rest| ==> rest[k] in rest;
      assert Walk(chain, i) == [i] + rest;
    }
  }

  /** Lookup the way a loader does it: head of the name's bucket, then along the chain.
      It finds the name exactly when a linear scan does, at its last occurrence. */
  method Lookup(names: seq<Name>, buckets: seq<nat>, chain: seq<nat>, name: Name) returns (r: Option<nat>)
    requires |names| > 0 && Indexed(names, buckets, chain, |names|)
    ensures r.Some? <==> exists i :: 0 < i < |names| && names[i] == name
    ensures r.Some? ==> 0 < r.value < |names| && names[r.value] == name
    ensures r.Some? ==> forall i :: r.value < i < |names| ==> names[i] != name
  {
    hide Indexed, HashOf, Bucket;
    Head(names, buckets, chain, name);
    var h := ElfHash(name);
    var b: nat := (h as nat) % |buckets|;
    var i: nat := buckets[b];
    while i != 0
      invariant i < |names| && (i > 0 ==> Bucket(names, i) == b)
      invariant forall k :: i < k < |names| ==> names[k] != name
      decreases i
    {
      if names[i] == name {
        return Some(i);
      }
      Link(names, buckets, chain, name, i);
      i := chain[i];
    }
    r := None;
  }

  /** The head of a name's bucket: no later symbol has the name. */
  lemma Head(names: seq<Name>, buckets: seq<nat>, chain: seq<nat>, name: Name)
    requires |names| > 0 && Indexed(names, buckets, chain, |names|)
    ensures |buckets| == |chain| == |names|
    ensures var b := (HashOf(name) as nat) % |buckets|;
      && buckets[b] < |names| && (buckets[b] > 0 ==> Bucket(names, buckets[b]) == b)
      && forall k :: buckets[b] < k < |names| ==> names[k] != name
  {
    NotAfter(names, name, (HashOf(name) as nat) % |buckets|, |names|);
  }

  /** A chain link skips no symbol with the name. */
  lemma Link(names: seq<Name>, buckets: seq<nat>, chain: seq<nat>, name: Name, i: nat)
    requires Indexed(names, buckets, chain, |names|) && 0 < i < |names|
    requires Bucket(names, i) == (HashOf(name) as nat) % |buckets|
    ensures chain[i] < i && (chain[i] > 0 ==> Bucket(names, chain[i]) == Bucket(names, i))
    ensures forall k :: chain[i] < k < i ==> names[k] != name
  {
    assert chain[i] == Latest(names, Bucket(names, i), i);
    NotAfter(names, name, Bucket(names, i), i);
  }

  /** No symbol of another bucket has the name. */
  lemma NotAfter(names: seq<Name>, name: Name, b: nat, n: nat)
    requires n <= |names| && b == (HashOf(name) as nat) % BucketCount(names)
    ensures forall k :: Latest(names, b, n) < k < n ==> names[k] != name
  {
    forall k | Latest(names, b, n) < k < n ensures names[k] != name {
      assert Bucket(names, k) != b;
    }
  }
}
