/** The ULEB128 / SLEB128 codec.  Words are integers with their width written out; a
    shift by `s` is a factor `2^s`, and or-ing bits into positions that are still zero
    is adding. */
module Leb {
  import opened Wrappers
  import opened Bytes

  const TWO63: int := 0x8000_0000_0000_0000
  const TWO64: int := 0x1_0000_0000_0000_0000

  type u64 = x: int | 0 <= x < TWO64
  type i64 = x: int | -TWO63 <= x < TWO63 witness 0

  // ---- writers, as functions of the value -----------------------------------

  function EncodeUleb(value: nat): (out: seq<byte>)
    ensures |out| > 0
  {
    if value < 128 then [value] else [value % 128 + 128] + EncodeUleb(value / 128)
  }

  /** The value's remaining bits are all copies of the sign bit of this byte. */
  predicate SlebDone(value: int) {
    -64 <= value < 64
  }

  function EncodeSleb(value: int): (out: seq<byte>)
    ensures |out| > 0
    decreases if value < 0 then -value else value
  {
    if SlebDone(value) then [value % 128] else [value % 128 + 128] + EncodeSleb(value / 128)
  }

  /** `write_uleb`. */
  method WriteUleb(value: u64, out: seq<byte>) returns (r: seq<byte>)
    ensures r == out + EncodeUleb(value)
  {
    var v: nat := value;
    r := out;
    while true
      invariant r + EncodeUleb(v) == out + EncodeUleb(value)
      decreases v
    {
      var low := v % 128;
      v := v / 128;
      if v == 0 {
        return r + [low];
      }
      r := r + [low + 128];
    }
  }

  /** `write_sleb`. */
  method WriteSleb(value: i64, out: seq<byte>) returns (r: seq<byte>)
    ensures r == out + EncodeSleb(value)
  {
    var v: int := value;
    r := out;
    while true
      invariant r + EncodeSleb(v) == out + EncodeSleb(value)
      decreases if v < 0 then -v else v
    {
      var low := v % 128;
      var next := v / 128;
      var signBit := low >= 64;
      var done := (next == 0 && !signBit) || (next == -1 && signBit);
      assert done <==> SlebDone(v);
      v := next;
      if done {
        return r + [low];
      }
      r := r + [low + 128];
    }
  }

  // ---- readers, as functions of the bytes -------------------------------------

  /** `2^shift` for the shifts 0, 7, .., 63 at which the readers accept a byte. */
  ghost predicate IsScale(scale: nat) {
    || scale == 1 || scale == 0x80 || scale == 0x4000 || scale == 0x20_0000 || scale == 0x1000_0000
    || scale == 0x8_0000_0000 || scale == 0x400_0000_0000 || scale == 0x2_0000_0000_0000
    || scale == 0x100_0000_0000_0000 || scale == TWO63
  }

  /** The low seven bits of `b` or-ed in at `scale`, in a 64-bit word. */
  function OrIn(acc: nat, b: byte, scale: nat): nat {
    acc + b % 128 * scale % TWO64
  }

  /** Value and length of the ULEB at the front of `bytes`, given the bits read so far. */
  function UlebFrom(bytes: seq<byte>, scale: nat, acc: nat): Result<(nat, nat)> {
    if bytes == [] || scale >= TWO64 then Err else
    var acc' := OrIn(acc, bytes[0], scale);
    if bytes[0] < 128 then Ok((acc', 1)) else
    var rest := UlebFrom(bytes[1..], scale * 128, acc');
    if rest.Err? then Err else Ok((rest.value.0, rest.value.1 + 1))
  }

  /** Two's complement reading of a 64-bit word. */
  function ToSigned(word: nat): int {
    if word < TWO63 then word else word - TWO64
  }

  function SlebFrom(bytes: seq<byte>, scale: nat, acc: nat): Result<(int, nat)> {
    if bytes == [] || scale >= TWO64 then Err else
    var acc' := OrIn(acc, bytes[0], scale);
    if bytes[0] < 128 then
      Ok((if scale * 128 < TWO64 && bytes[0] >= 64 then acc' - scale * 128 else ToSigned(acc'), 1))
    else
      var rest := SlebFrom(bytes[1..], scale * 128, acc');
      if rest.Err? then Err else Ok((rest.value.0, rest.value.1 + 1))
  }

  /** `read_uleb`: the value and how many bytes it took. */
  method ReadUleb(bytes: seq<byte>) returns (r: Result<(nat, nat)>)
    ensures r == UlebFrom(bytes, 1, 0)
  {
    hide OrIn;
    var value: nat, scale: nat := 0, 1;
    for i := 0 to |bytes|
      invariant var rest := UlebFrom(bytes[i..], scale, value);
        UlebFrom(bytes, 1, 0) == if rest.Err? then Err else Ok((rest.value.0, rest.value.1 + i))
    {
      var b := bytes[i];
      assert bytes[i..][0] == b && bytes[i..][1..] == bytes[i + 1..];
      if scale >= TWO64 {
        return Err;
      }
      value := OrIn(value, b, scale);
      if b < 128 {
        return Ok((value, i + 1));
      }
      scale := scale * 128;
    }
    r := Err;
  }

  /** `read_sleb`. */
  method ReadSleb(bytes: seq<byte>) returns (r: Result<(int, nat)>)
    ensures r == SlebFrom(bytes, 1, 0)
  {
    hide OrIn, ToSigned;
    var value: nat, scale: nat := 0, 1;
    for i := 0 to |bytes|
      invariant var rest := SlebFrom(bytes[i..], scale, value);
        SlebFrom(bytes, 1, 0) == if rest.Err? then Err else Ok((rest.value.0, rest.value.1 + i))
    {
      var b := bytes[i];
      assert bytes[i..][0] == b && bytes[i..][1..] == bytes[i + 1..];
      if scale >= TWO64 {
        return Err;
      }
      value := OrIn(value, b, scale);
      scale := scale * 128;
      if b < 128 {
        if scale < TWO64 && b >= 64 {
          return Ok((value - scale, i + 1));
        }
        return Ok((ToSigned(value), i + 1));
      }
    }
    r := Err;
  }

  // ---- round trips ---------------------------------------------------------------

  lemma Split(v: int, scale: nat)
    ensures v % 128 * scale + v / 128 * (scale * 128) == v * scale
  {
    calc {
      v * scale;
      { assert v == v % 128 + v / 128 * 128; }
      (v % 128 + v / 128 * 128) * scale;
      v % 128 * scale + v / 128 * 128 * scale;
    }
  }

  lemma OrInExact(acc: nat, b: byte, scale: nat)
    requires b % 128 * scale < TWO64
    ensures OrIn(acc, b, scale) == acc + b % 128 * scale
  {
  }

  lemma Room(high: nat, step: nat)
    requires high > 0
    ensures high * step >= step
  {
  }

  lemma UlebStep(v: nat, scale: nat, acc: nat)
    requires 0 < scale < TWO64 && v * scale < TWO64
    ensures v < 128 ==> OrIn(acc, v, scale) == acc + v * scale
    ensures v >= 128 ==>
      && scale * 128 < TWO64 && v / 128 * (scale * 128) < TWO64
      && OrIn(acc, v % 128 + 128, scale) + v / 128 * (scale * 128) == acc + v * scale
  {
    hide OrIn;
    Split(v, scale);
    if v < 128 {
      OrInExact(acc, v, scale);
    } else {
      Room(v / 128, scale * 128);
      OrInExact(acc, v % 128 + 128, scale);
    }
  }

  lemma {:induction false} UlebFromEncode(v: nat, scale: nat, acc: nat, rest: seq<byte>)
    requires 0 < scale < TWO64 && v * scale < TWO64
    ensures UlebFrom(EncodeUleb(v) + rest, scale, acc) == Ok((acc + v * scale, |EncodeUleb(v)|))
    decreases v
  {
    hide OrIn;
    UlebStep(v, scale, acc);
    var bytes := EncodeUleb(v) + rest;
    if v < 128 {
      assert bytes[0] == v;
    } else {
      assert bytes[0] == v % 128 + 128 && bytes[1..] == EncodeUleb(v / 128) + rest;
      UlebFromEncode(v / 128, scale * 128, OrIn(acc, v % 128 + 128, scale), rest);
    }
  }

  /** Decoding an encoded word, whatever follows it, gives the word and its length. */
  lemma UlebRoundTrip(v: u64, rest: seq<byte>)
    ensures UlebFrom(EncodeUleb(v) + rest, 1, 0) == Ok((v, |EncodeUleb(v)|))
  {
    UlebFromEncode(v, 1, 0, rest);
  }

  /** A value that needs another byte leaves room for one. */
  lemma SlebMore(v: int, scale: nat, acc: nat)
    requires IsScale(scale) && acc < scale && !SlebDone(v)
    requires -TWO63 <= acc + v * scale < TWO63
    ensures scale < TWO63 && IsScale(scale * 128)
    ensures var acc' := OrIn(acc, v % 128 + 128, scale);
      acc' < scale * 128 && acc' + v / 128 * (scale * 128) == acc + v * scale
  {
    Split(v, scale);
    assert v % 128 * scale <= 127 * scale;
  }

  lemma SlebLast(v: int, scale: nat, acc: nat)
    requires IsScale(scale) && acc < scale && SlebDone(v)
    requires -TWO63 <= acc + v * scale < TWO63
    ensures var word := OrIn(acc, v % 128, scale);
      acc + v * scale ==
        if scale * 128 < TWO64 && v % 128 >= 64 then word - scale * 128 else ToSigned(word)
  {
    if scale == TWO63 {
      assert v == 0 || v == -1;
      assert 127 * TWO63 % TWO64 == TWO63;
    } else {
      assert v % 128 == if v < 0 then v + 128 else v;
      SlebLow(v, scale);
      hide OrIn;
      OrInExact(acc, v % 128, scale);
    }
  }

  lemma SlebLow(v: int, scale: nat)
    requires IsScale(scale) && scale != TWO63 && SlebDone(v)
    ensures v % 128 * scale < TWO64 && scale * 128 < TWO64
    ensures v % 128 * scale == if v < 0 then v * scale + 128 * scale else v * scale
  {
    if v < 0 {
      assert (v + 128) * scale == v * scale + 128 * scale;
    }
    assert v % 128 * scale <= 127 * scale;
  }

  lemma {:induction false} SlebFromEncode(v: int, scale: nat, acc: nat, rest: seq<byte>)
    requires IsScale(scale) && acc < scale
    requires -TWO63 <= acc + v * scale < TWO63
    ensures SlebFrom(EncodeSleb(v) + rest, scale, acc) == Ok((acc + v * scale, |EncodeSleb(v)|))
    decreases if v < 0 then -v else v
  {
    hide OrIn, ToSigned;
    var bytes := EncodeSleb(v) + rest;
    if SlebDone(v) {
      SlebLast(v, scale, acc);
      assert bytes[0] == v % 128;
    } else {
      SlebMore(v, scale, acc);
      assert bytes[0] == v % 128 + 128 && bytes[1..] == EncodeSleb(v / 128) + rest;
      SlebFromEncode(v / 128, scale * 128, OrIn(acc, v % 128 + 128, scale), rest);
    }
  }

  lemma SlebRoundTrip(v: i64, rest: seq<byte>)
    ensures SlebFrom(EncodeSleb(v) + rest, 1, 0) == Ok((v, |EncodeSleb(v)|))
  {
    SlebFromEncode(v, 1, 0, rest);
  }

  // ---- reading off the front of a stream ---------------------------------------------

  lemma {:induction false} UlebLength(bytes: seq<byte>, scale: nat, acc: nat)
    ensures var r := UlebFrom(bytes, scale, acc); r.Ok? ==> 1 <= r.value.1 <= |bytes|
    decreases |bytes|
  {
    if bytes != [] && scale < TWO64 {
      UlebLength(bytes[1..], scale * 128, OrIn(acc, bytes[0], scale));
    }
  }

  /** One ULEB off the front: the value and the bytes after it. */
  function Take(bytes: seq<byte>): (r: Result<(nat, seq<byte>)>)
    ensures r.Ok? ==> |r.value.1| < |bytes|
  {
    UlebLength(bytes, 1, 0);
    var r := UlebFrom(bytes, 1, 0);
    if r.Err? then Err else Ok((r.value.0, bytes[r.value.1..]))
  }

  method TakeUleb(bytes: seq<byte>) returns (r: Result<(nat, seq<byte>)>)
    ensures r == Take(bytes)
  {
    UlebLength(bytes, 1, 0);
    var u := ReadUleb(bytes);
    r := if u.Err? then Err else Ok((u.value.0, bytes[u.value.1..]));
  }

  lemma TakeEncode(v: nat, rest: seq<byte>)
    requires v < TWO64
    ensures Take(EncodeUleb(v) + rest) == Ok((v, rest))
  {
    UlebRoundTrip(v, rest);
  }

  lemma {:induction false} SlebLength(bytes: seq<byte>, scale: nat, acc: nat)
    ensures var r := SlebFrom(bytes, scale, acc); r.Ok? ==> 1 <= r.value.1 <= |bytes|
    decreases |bytes|
  {
    if bytes != [] && scale < TWO64 {
      SlebLength(bytes[1..], scale * 128, OrIn(acc, bytes[0], scale));
    }
  }

  /** The bytes after the SLEB at the front. */
  function SkipSleb(bytes: seq<byte>): Result<seq<byte>> {
    SlebLength(bytes, 1, 0);
    var r := SlebFrom(bytes, 1, 0);
    if r.Err? then Err else Ok(bytes[r.value.1..])
  }
}
