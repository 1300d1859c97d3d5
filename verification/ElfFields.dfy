/** Relocated fields of a static link: range checks, encoding and read-back. */
module ElfFields {
  import opened Wrappers
  import opened Elf
  import opened Bytes

  datatype Kind = Abs64 | Abs32 | Abs32S | Pc32

  /** One relocation ready to apply: S, A and P of the psABI and the field's place in the section's bytes. */
  datatype Patch = Patch(kind: Kind, spot: nat, s: int, addend: int, p: int)

  function Width(kind: Kind): nat { if kind == Abs64 then 8 else 4 }

  /** S + A, or S + A - P. */
  function Value(r: Patch): int {
    if r.kind == Pc32 then r.s + r.addend - r.p else r.s + r.addend
  }

  predicate FitsU32(v: int) { 0 <= v < 0x1_0000_0000 }

  predicate FitsI32(v: int) { -0x8000_0000 <= v < 0x8000_0000 }

  /** The relocation's own range; a 64-bit field takes every value. */
  predicate Accepted(r: Patch) {
    match r.kind
    case Abs64 => true
    case Abs32 => FitsU32(Value(r))
    case Abs32S => FitsI32(Value(r))
    case Pc32 => FitsI32(Value(r))
  }

  function SignExtend(u: nat): int { if u >= 0x8000_0000 then u - 0x1_0000_0000 else u }

  function Ru64(data: seq<byte>, at: nat): nat
    requires at + 8 <= |data|
  {
    Ru32(data, at) + 0x1_0000_0000 * Ru32(data, at + 4)
  }

  /** What a program reading the field gets. */
  function ReadField(kind: Kind, data: seq<byte>, at: nat): int
    requires at + Width(kind) <= |data|
  {
    match kind
    case Abs64 => Ru64(data, at)
    case Abs32 => Ru32(data, at)
    case Abs32S => SignExtend(Ru32(data, at))
    case Pc32 => SignExtend(Ru32(data, at))
  }

  /** `encode_abs32`. */
  function EncodeAbs32(value: int, signed: bool): Result<seq<byte>> {
    if signed then if FitsI32(value) then Ok(Le32(value % 0x1_0000_0000)) else Err
    else if FitsU32(value) then Ok(Le32(value)) else Err
  }

  /** The bytes a relocation writes, or an overflow error. */
  function Encode(r: Patch): Result<seq<byte>> {
    match r.kind
    case Abs64 =>
      var v := Value(r) % 0x1_0000_0000_0000_0000;
      Ok(Le32(v % 0x1_0000_0000) + Le32(v / 0x1_0000_0000))
    case Abs32 => EncodeAbs32(Value(r), false)
    case Abs32S => EncodeAbs32(Value(r), true)
    case Pc32 => if FitsI32(Value(r)) then Ok(Le32(Value(r) % 0x1_0000_0000)) else Err
  }

  lemma EncodeShape(r: Patch)
    ensures Encode(r).Ok? <==> Accepted(r)
    ensures Encode(r).Ok? ==> |Encode(r).value| == Width(r.kind)
  {
    hide Le32;
  }

  predicate FieldIs(data: seq<byte>, at: nat, bytes: seq<byte>) {
    at + |bytes| <= |data| && data[at..at + |bytes|] == bytes
  }

  lemma Read32(data: seq<byte>, at: nat, v: int)
    requires FieldIs(data, at, Le32(v % 0x1_0000_0000))
    ensures Ru32(data, at) == v % 0x1_0000_0000
  {
    Le32RoundTrip(v % 0x1_0000_0000, data, at);
  }

  /** An accepted field reads back to S+A or S+A-P without truncation; a 64-bit one modulo 2^64. */
  lemma FieldReadsBack(r: Patch, data: seq<byte>)
    requires Encode(r).Ok? && FieldIs(data, r.spot, Encode(r).value)
    ensures r.spot + Width(r.kind) <= |data|
    ensures ReadField(r.kind, data, r.spot) ==
      if r.kind == Abs64 then Value(r) % 0x1_0000_0000_0000_0000 else Value(r)
  {
    EncodeShape(r);
    hide Le32, Ru32;
    if r.kind == Abs64 {
      var v := Value(r) % 0x1_0000_0000_0000_0000;
      var lo, hi := v % 0x1_0000_0000, v / 0x1_0000_0000;
      var bytes := Le32(lo) + Le32(hi);
      assert data[r.spot..r.spot + 4] == bytes[..4] == Le32(lo);
      assert data[r.spot + 4..r.spot + 8] == bytes[4..8] == Le32(hi);
      Le32RoundTrip(lo, data, r.spot);
      Le32RoundTrip(hi, data, r.spot + 4);
    } else {
      assert Encode(r).value == Le32(Value(r) % 0x1_0000_0000);
      Read32(data, r.spot, Value(r));
    }
  }

  predicate Disjoint(a: Patch, b: Patch) {
    a.spot + Width(a.kind) <= b.spot || b.spot + Width(b.kind) <= a.spot
  }

  ghost predicate AllDisjoint(patches: seq<Patch>) {
    forall i, j :: 0 <= i < j < |patches| ==> Disjoint(patches[i], patches[j])
  }

  predicate Covers(r: Patch, i: int) { r.spot <= i < r.spot + Width(r.kind) }

  ghost predicate InSection(patches: seq<Patch>, length: nat) {
    forall k :: 0 <= k < |patches| ==> patches[k].spot + Width(patches[k].kind) <= length
  }

  /** Writes one field in place. */
  method WriteField(data: array<byte>, at: nat, bytes: seq<byte>)
    requires at + |bytes| <= data.Length
    modifies data
    ensures FieldIs(data[..], at, bytes)
    ensures forall i :: 0 <= i < data.Length && !(at <= i < at + |bytes|) ==> data[i] == old(data[i])
  {
    for k := 0 to |bytes|
      invariant forall j :: 0 <= j < k ==> data[at + j] == bytes[j]
      invariant forall i :: 0 <= i < data.Length && !(at <= i < at + k) ==> data[i] == old(data[i])
    {
      data[at + k] := bytes[k];
    }
    assert data[..][at..at + |bytes|] == bytes;
  }

  ghost predicate Done(data: seq<byte>, r: Patch) {
    Encode(r).Ok? && FieldIs(data, r.spot, Encode(r).value)
  }

  /** A field survives writing outside it. */
  lemma DoneStays(a: seq<byte>, b: seq<byte>, r: Patch, at: nat, width: nat)
    requires Done(a, r) && |a| == |b|
    requires forall i :: 0 <= i < |a| && !(at <= i < at + width) ==> a[i] == b[i]
    requires r.spot + Width(r.kind) <= at || at + width <= r.spot
    ensures Done(b, r)
  {
    EncodeShape(r);
    hide Encode;
    var n := Width(r.kind);
    assert a[r.spot..r.spot + n] == b[r.spot..r.spot + n];
  }

  /**
   * Applies a section's relocations in place.  It succeeds exactly when every value is in range; then
   * each field of a disjoint set holds its value, and in any case nothing outside the fields changes.
   */
  method Apply(data: array<byte>, patches: seq<Patch>) returns (ok: bool)
    requires InSection(patches, data.Length)
    modifies data
    ensures ok <==> forall k :: 0 <= k < |patches| ==> Accepted(patches[k])
    ensures forall i :: 0 <= i < data.Length && (forall k :: 0 <= k < |patches| ==> !Covers(patches[k], i)) ==>
      data[i] == old(data[i])
    ensures ok && AllDisjoint(patches) ==> forall k :: 0 <= k < |patches| ==> Done(data[..], patches[k])
  {
    hide Encode, Accepted, Value;
    for n := 0 to |patches|
      invariant forall k :: 0 <= k < n ==> Accepted(patches[k])
      invariant forall i :: 0 <= i < data.Length && (forall k :: 0 <= k < |patches| ==> !Covers(patches[k], i)) ==>
        data[i] == old(data[i])
      invariant AllDisjoint(patches) ==> forall k :: 0 <= k < n ==> Done(data[..], patches[k])
    {
      var r := patches[n];
      EncodeShape(r);
      var bytes := Encode(r);
      if bytes.Err? {
        return false;
      }
      ghost var before := data[..];
      WriteField(data, r.spot, bytes.value);
      if AllDisjoint(patches) {
        forall k | 0 <= k < n ensures Done(data[..], patches[k]) {
          assert Disjoint(patches[k], r);
          DoneStays(before, data[..], patches[k], r.spot, Width(r.kind));
        }
      }
    }
    ok := true;
  }
}
