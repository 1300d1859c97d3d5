/** The linker-optimization-hint stream: ULEB records of kind, argument count, arguments. */
module Loh {
  import opened Wrappers
  import opened Leb
  import opened Bytes

  const TWO32: int := 0x1_0000_0000

  type u32 = x: int | 0 <= x < TWO32

  datatype Entry = Entry(kind: u32, args: seq<u32>)

  predicate Writable(entries: seq<Entry>) {
    forall e :: e in entries ==> |e.args| < TWO64
  }

  // ---- writing ------------------------------------------------------------

  function EncodeArgs(args: seq<u32>): seq<byte> {
    if args == [] then [] else EncodeUleb(args[0]) + EncodeArgs(args[1..])
  }

  function EncodeEntry(e: Entry): seq<byte> {
    EncodeUleb(e.kind) + EncodeUleb(|e.args|) + EncodeArgs(e.args)
  }

  function Encode(entries: seq<Entry>): seq<byte> {
    if entries == [] then [] else EncodeEntry(entries[0]) + Encode(entries[1..])
  }

  lemma {:induction false} EncodeArgsSnoc(args: seq<u32>, arg: u32)
    ensures EncodeArgs(args + [arg]) == EncodeArgs(args) + EncodeUleb(arg)
  {
    if args != [] {
      assert (args + [arg])[1..] == args[1..] + [arg];
      EncodeArgsSnoc(args[1..], arg);
    }
  }

  lemma {:induction false} EncodeSnoc(entries: seq<Entry>, e: Entry)
    ensures Encode(entries + [e]) == Encode(entries) + EncodeEntry(e)
  {
    if entries != [] {
      assert (entries + [e])[1..] == entries[1..] + [e];
      EncodeSnoc(entries[1..], e);
    }
  }

  method WriteEntry(e: Entry, prefix: seq<byte>) returns (out: seq<byte>)
    requires |e.args| < TWO64
    ensures out == prefix + EncodeEntry(e)
  {
    out := WriteUleb(e.kind, prefix);
    out := WriteUleb(|e.args|, out);
    ghost var head := out;
    for k := 0 to |e.args|
      invariant out == head + EncodeArgs(e.args[..k])
    {
      assert e.args[..k + 1] == e.args[..k] + [e.args[k]];
      EncodeArgsSnoc(e.args[..k], e.args[k]);
      out := WriteUleb(e.args[k], out);
    }
    assert e.args[..|e.args|] == e.args;
  }

  /** `write_loh_blob`. */
  method WriteLoh(entries: seq<Entry>) returns (out: seq<byte>)
    requires Writable(entries)
    ensures out == Encode(entries)
  {
    hide EncodeEntry;
    out := [];
    for n := 0 to |entries|
      invariant out == Encode(entries[..n])
    {
      assert entries[..n + 1] == entries[..n] + [entries[n]];
      EncodeSnoc(entries[..n], entries[n]);
      out := WriteEntry(entries[n], out);
    }
    assert entries[..|entries|] == entries;
  }

  // ---- reading --------------------------------------------------------------

  function ParseArgs(bytes: seq<byte>, argc: nat): (r: Result<(seq<u32>, seq<byte>)>)
    ensures r.Ok? ==> |r.value.1| <= |bytes|
    decreases argc
  {
    if argc == 0 then Ok(([], bytes)) else
    var arg := Take(bytes);
    if arg.Err? || arg.value.0 >= TWO32 then Err else
    var rest := ParseArgs(arg.value.1, argc - 1);
    if rest.Err? then Err else Ok(([arg.value.0] + rest.value.0, rest.value.1))
  }

  function ParseEntry(bytes: seq<byte>): (r: Result<(Entry, seq<byte>)>)
    ensures r.Ok? ==> |r.value.1| < |bytes|
  {
    var kind := Take(bytes);
    if kind.Err? then Err else
    var argc := Take(kind.value.1);
    if argc.Err? || kind.value.0 >= TWO32 then Err else
    var args := ParseArgs(argc.value.1, argc.value.0);
    if args.Err? then Err else Ok((Entry(kind.value.0, args.value.0), args.value.1))
  }

  function Parse(bytes: seq<byte>): Result<seq<Entry>>
    decreases |bytes|
  {
    if AllZero(bytes, 0) then Ok([]) else
    var entry := ParseEntry(bytes);
    if entry.Err? then Err else
    var rest := Parse(entry.value.1);
    if rest.Err? then Err else Ok([entry.value.0] + rest.value)
  }

  method ReadArgs(bytes: seq<byte>, argc: nat) returns (r: Result<(seq<u32>, seq<byte>)>)
    ensures r == ParseArgs(bytes, argc)
  {
    hide Take;
    var args: seq<u32>, rest := [], bytes;
    assert ParseArgs(bytes, argc).Ok? ==> args + ParseArgs(bytes, argc).value.0 == ParseArgs(bytes, argc).value.0;
    while |args| < argc
      invariant |args| <= argc
      invariant var tail := ParseArgs(rest, argc - |args|);
        ParseArgs(bytes, argc) == if tail.Err? then Err else Ok((args + tail.value.0, tail.value.1))
    {
      var arg := TakeUleb(rest);
      if arg.Err? || arg.value.0 >= TWO32 {
        return Err;
      }
      ghost var tail := ParseArgs(arg.value.1, argc - |args| - 1);
      assert tail.Ok? ==> args + ([arg.value.0] + tail.value.0) == args + [arg.value.0] + tail.value.0;
      args := args + [arg.value.0];
      rest := arg.value.1;
    }
    assert args + [] == args;
    r := Ok((args, rest));
  }

  /** The most words a vector of `u32` may reserve: its bytes must not exceed `isize::MAX`. */
  const CAPACITY: nat := 0x2000_0000_0000_0000

  /** Parsing meets an entry that claims more arguments than can be reserved before it meets an error. */
  predicate Overflows(bytes: seq<byte>)
    decreases |bytes|
  {
    if AllZero(bytes, 0) then false else
    var kind := Take(bytes);
    if kind.Err? then false else
    var argc := Take(kind.value.1);
    if argc.Err? || kind.value.0 >= TWO32 then false else
    if argc.value.0 >= CAPACITY then true else
    var entry := ParseEntry(bytes);
    entry.Ok? && Overflows(entry.value.1)
  }

  /** `parse_loh_blob`; `None` where reserving room for the arguments panics. */
  method ParseLoh(bytes: seq<byte>) returns (r: Option<Result<seq<Entry>>>)
    ensures r.None? <==> Overflows(bytes)
    ensures r.Some? ==> r.value == Parse(bytes)
  {
    hide Take, ParseArgs;
    var out: seq<Entry>, rest := [], bytes;
    assert Parse(bytes).Ok? ==> out + Parse(bytes).value == Parse(bytes).value;
    while !AllZero(rest, 0)
      invariant Parse(bytes) == if Parse(rest).Err? then Err else Ok(out + Parse(rest).value)
      invariant Overflows(bytes) <==> Overflows(rest)
      decreases |rest|
    {
      var kind := TakeUleb(rest);
      if kind.Err? {
        return Some(Err);
      }
      var argc := TakeUleb(kind.value.1);
      if argc.Err? || kind.value.0 >= TWO32 {
        return Some(Err);
      }
      if argc.value.0 >= CAPACITY {
        return None;
      }
      var args := ReadArgs(argc.value.1, argc.value.0);
      if args.Err? {
        return Some(Err);
      }
      var e := Entry(kind.value.0, args.value.0);
      assert ParseEntry(rest) == Ok((e, args.value.1));
      ghost var tail := Parse(args.value.1);
      assert tail.Ok? ==> out + ([e] + tail.value) == out + [e] + tail.value;
      out, rest := out + [e], args.value.1;
    }
    assert out + [] == out;
    r := Some(Ok(out));
  }

  // ---- round trip ---------------------------------------------------------------

  function Zeros(n: nat): seq<byte> { seq(n, _ => 0) }

  predicate IsBlank(e: Entry) { e == Entry(0, []) }

  /** What a stream can carry: trailing blank records read as padding. */
  function Trim(entries: seq<Entry>): seq<Entry> {
    if entries != [] && IsBlank(entries[|entries| - 1]) then Trim(entries[..|entries| - 1]) else entries
  }

  lemma {:induction false} ParseArgsEncode(args: seq<u32>, rest: seq<byte>)
    ensures ParseArgs(EncodeArgs(args) + rest, |args|) == Ok((args, rest))
  {
    hide Take;
    if args == [] {
      assert EncodeArgs(args) + rest == rest;
    } else {
      assert EncodeArgs(args) + rest == EncodeUleb(args[0]) + (EncodeArgs(args[1..]) + rest);
      TakeEncode(args[0], EncodeArgs(args[1..]) + rest);
      ParseArgsEncode(args[1..], rest);
      assert [args[0]] + args[1..] == args;
    }
  }

  lemma ParseEntryEncode(e: Entry, rest: seq<byte>)
    requires |e.args| < TWO64
    ensures ParseEntry(EncodeEntry(e) + rest) == Ok((e, rest))
  {
    hide Take;
    var tail := EncodeArgs(e.args) + rest;
    assert EncodeEntry(e) + rest == EncodeUleb(e.kind) + (EncodeUleb(|e.args|) + tail);
    TakeEncode(e.kind, EncodeUleb(|e.args|) + tail);
    TakeEncode(|e.args|, tail);
    ParseArgsEncode(e.args, rest);
  }

  lemma {:induction false} UlebZero(v: nat)
    ensures AllZero(EncodeUleb(v), 0) <==> v == 0
  {
    assert EncodeUleb(v)[0] == 0 <==> v == 0;
  }

  lemma AllZeroSplit(a: seq<byte>, b: seq<byte>)
    ensures AllZero(a + b, 0) <==> AllZero(a, 0) && AllZero(b, 0)
  {
    assert forall i :: 0 <= i < |a| ==> a[i] == (a + b)[i];
    assert forall i :: 0 <= i < |b| ==> b[i] == (a + b)[|a| + i];
  }

  lemma EntryZero(e: Entry)
    ensures AllZero(EncodeEntry(e), 0) <==> IsBlank(e)
  {
    UlebZero(e.kind);
    UlebZero(|e.args|);
    AllZeroSplit(EncodeUleb(e.kind) + EncodeUleb(|e.args|), EncodeArgs(e.args));
    AllZeroSplit(EncodeUleb(e.kind), EncodeUleb(|e.args|));
  }

  lemma {:induction false} EncodeZero(entries: seq<Entry>)
    ensures AllZero(Encode(entries), 0) <==> Trim(entries) == []
  {
    if entries != [] {
      var n := |entries| - 1;
      assert entries == entries[..n] + [entries[n]];
      EncodeSnoc(entries[..n], entries[n]);
      AllZeroSplit(Encode(entries[..n]), EncodeEntry(entries[n]));
      EntryZero(entries[n]);
      EncodeZero(entries[..n]);
    }
  }

  lemma {:induction false} TrimCons(entries: seq<Entry>)
    requires entries != []
    ensures Trim(entries) == if Trim(entries[1..]) == [] && IsBlank(entries[0]) then []
                             else [entries[0]] + Trim(entries[1..])
  {
    var n := |entries| - 1;
    if n > 0 && IsBlank(entries[n]) {
      TrimCons(entries[..n]);
      assert entries[..n][1..] == entries[1..][..n - 1];
    }
  }

  /** Parsing a written stream padded with zeros gives back the entries, up to trailing
      blank ones. */
  lemma {:induction false} ParseWritten(entries: seq<Entry>, pad: nat)
    requires Writable(entries)
    ensures Parse(Encode(entries) + Zeros(pad)) == Ok(Trim(entries))
  {
    var bytes := Encode(entries) + Zeros(pad);
    AllZeroSplit(Encode(entries), Zeros(pad));
    EncodeZero(entries);
    if Trim(entries) != [] {
      hide ParseEntry;
      assert bytes == EncodeEntry(entries[0]) + (Encode(entries[1..]) + Zeros(pad));
      ParseEntryEncode(entries[0], Encode(entries[1..]) + Zeros(pad));
      ParseWritten(entries[1..], pad);
      TrimCons(entries);
    }
  }

  /** The stream round-trips exactly when its last entry is not blank. */
  lemma LohRoundTrip(entries: seq<Entry>, pad: nat)
    requires Writable(entries)
    ensures Parse(Encode(entries) + Zeros(pad)) == Ok(entries)
       <==> (entries == [] || !IsBlank(entries[|entries| - 1]))
  {
    ParseWritten(entries, pad);
    TrimLength(entries);
  }

  lemma {:induction false} TrimLength(entries: seq<Entry>)
    ensures |Trim(entries)| <= |entries|
    ensures Trim(entries) == entries <==> entries == [] || !IsBlank(entries[|entries| - 1])
  {
    if entries != [] && IsBlank(entries[|entries| - 1]) {
      TrimLength(entries[..|entries| - 1]);
    }
  }

  lemma OverflowsEntry(e: Entry, rest: seq<byte>)
    requires |e.args| < TWO64 && !AllZero(EncodeEntry(e) + rest, 0)
    ensures Overflows(EncodeEntry(e) + rest) <==> |e.args| >= CAPACITY || Overflows(rest)
  {
    var tail := EncodeArgs(e.args) + rest;
    var bytes := EncodeEntry(e) + rest;
    assert bytes == EncodeUleb(e.kind) + (EncodeUleb(|e.args|) + tail);
    TakeEncode(e.kind, EncodeUleb(|e.args|) + tail);
    TakeEncode(|e.args|, tail);
    ParseEntryEncode(e, rest);
    hide Take, ParseEntry, AllZero, EncodeEntry;
  }

  lemma {:induction false} BlanksFit(entries: seq<Entry>)
    requires Trim(entries) == []
    ensures forall e :: e in entries ==> e.args == []
  {
    if entries != [] {
      var n := |entries| - 1;
      BlanksFit(entries[..n]);
      assert entries == entries[..n] + [entries[n]];
    }
  }

  /** Reading back a written stream panics exactly when an entry has more arguments than a vector can hold. */
  lemma {:induction false} WrittenOverflows(entries: seq<Entry>, pad: nat)
    requires Writable(entries)
    ensures Overflows(Encode(entries) + Zeros(pad)) <==> exists e :: e in entries && |e.args| >= CAPACITY
  {
    var bytes := Encode(entries) + Zeros(pad);
    AllZeroSplit(Encode(entries), Zeros(pad));
    EncodeZero(entries);
    if Trim(entries) == [] {
      BlanksFit(entries);
    } else {
      var rest := Encode(entries[1..]) + Zeros(pad);
      assert bytes == EncodeEntry(entries[0]) + rest;
      assert !AllZero(bytes, 0);
      hide Overflows, AllZero, EncodeEntry;
      OverflowsEntry(entries[0], rest);
      WrittenOverflows(entries[1..], pad);
      assert entries == [entries[0]] + entries[1..];
    }
  }
}
