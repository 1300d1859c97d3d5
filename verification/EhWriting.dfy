/** What an `.eh_frame` section says, told by how it is written. */
module EhWriting {
  import opened Wrappers
  import opened Bytes
  import opened Leb
  import opened Elf
  import opened EhFrame

  // ---- augmentations ---------------------------------------------------------------------------------

  /** What a letter after `z` announces. */
  datatype Field =
    | FdeEncoding(enc: byte)
    | LsdaEncoding(enc: byte)
    | Personality(enc: byte, pointer: seq<byte>)
    | SignalFrame

  function Letter(f: Field): byte {
    match f
    case FdeEncoding(_) => 82    // R
    case LsdaEncoding(_) => 76   // L
    case Personality(_, _) => 80 // P
    case SignalFrame => 83       // S
  }

  function FieldData(f: Field): seq<byte> {
    match f
    case FdeEncoding(enc) => [enc]
    case LsdaEncoding(enc) => [enc]
    case Personality(enc, pointer) => [enc] + pointer
    case SignalFrame => []
  }

  /** A personality pointer is as long as the format in the low bits of its encoding. */
  predicate Fits(f: Field) {
    f.Personality? ==>
      var format := f.enc % 8;
      || (format == 0 && |f.pointer| == 8)   // DW_EH_PE_absptr
      || (format == 2 && |f.pointer| == 2)   // DW_EH_PE_udata2
      || (format == 3 && |f.pointer| == 4)   // DW_EH_PE_udata4
      || (format == 4 && |f.pointer| == 8)   // DW_EH_PE_udata8
  }

  predicate AllFit(fields: seq<Field>) { forall f :: f in fields ==> Fits(f) }

  function Letters(fields: seq<Field>): (s: seq<byte>)
    ensures |s| == |fields| && forall i :: 0 <= i < |s| ==> s[i] != 0
  {
    if fields == [] then [] else [Letter(fields[0])] + Letters(fields[1..])
  }

  function Data(fields: seq<Field>): seq<byte> {
    if fields == [] then [] else FieldData(fields[0]) + Data(fields[1..])
  }

  /** The encoding written last, or `none` where there is none. */
  function LastEncoding(fields: seq<Field>, none: byte): byte {
    if fields == [] then none
    else
      var last := fields[|fields| - 1];
      if last.FdeEncoding? then last.enc else LastEncoding(fields[..|fields| - 1], none)
  }

  lemma {:induction false} LastFrom(f: Field, rest: seq<Field>, none: byte)
    ensures LastEncoding([f] + rest, none) == LastEncoding(rest, if f.FdeEncoding? then f.enc else none)
  {
    var all := [f] + rest;
    if rest == [] {
      assert all[..|all| - 1] == [];
    } else {
      var n := |rest| - 1;
      assert all[|all| - 1] == rest[n] && all[..|all| - 1] == [f] + rest[..n];
      LastFrom(f, rest[..n], none);
    }
  }

  lemma ConsFields(f: Field, more: seq<Field>)
    ensures Letters([f] + more) == [Letter(f)] + Letters(more) && Data([f] + more) == FieldData(f) + Data(more)
    ensures AllFit([f] + more) <==> Fits(f) && AllFit(more)
  {
    var all := [f] + more;
    assert all[0] == f && all[1..] == more;
    assert forall x :: x in all <==> x == f || x in more;
  }

  /** One field at the front of the data. */
  lemma FieldStep(f: Field, chars: seq<byte>, data: seq<byte>, none: byte)
    requires Fits(f) && chars != [] && chars[0] == Letter(f)
    requires |FieldData(f)| <= |data| && data[..|FieldData(f)|] == FieldData(f)
    ensures Augmentation(chars, data, none)
         == Augmentation(chars[1..], data[|FieldData(f)|..], if f.FdeEncoding? then f.enc else none)
  {
    if f.SignalFrame? {
      assert data[0..] == data;
    } else {
      assert data[0] == FieldData(f)[0] == f.enc;
    }
  }

  lemma Front(a: seq<byte>, b: seq<byte>, rest: seq<byte>)
    ensures var all := a + b + rest; |a| <= |all| && all[..|a|] == a && all[|a|..] == b + rest
  {
  }

  /** Fields that were written are read. */
  lemma {:induction false} AugmentationReads(fields: seq<Field>, rest: seq<byte>, none: byte)
    requires AllFit(fields)
    ensures Augmentation(Letters(fields), Data(fields) + rest, none) == Ok(LastEncoding(fields, none))
  {
    if fields != [] {
      hide *;
      var f, more := fields[0], fields[1..];
      assert fields == [f] + more;
      ConsFields(f, more);
      var chars, data := Letters(fields), Data(fields) + rest;
      assert chars[0] == Letter(f) && chars[1..] == Letters(more);
      Front(FieldData(f), Data(more), rest);
      LastFrom(f, more, none);
      FieldStep(f, chars, data, none);
      AugmentationReads(more, rest, if f.FdeEncoding? then f.enc else none);
    }
  }

  /** One field off the front of the data. */
  lemma FieldRead(chars: seq<byte>, data: seq<byte>, none: byte) returns (f: Field)
    requires chars != [] && Augmentation(chars, data, none).Ok?
    ensures Fits(f) && chars[0] == Letter(f) && |FieldData(f)| <= |data| && data[..|FieldData(f)|] == FieldData(f)
    ensures Augmentation(chars, data, none)
         == Augmentation(chars[1..], data[|FieldData(f)|..], if f.FdeEncoding? then f.enc else none)
  {
    if chars[0] == 83 {
      f := SignalFrame;
      assert data[0..] == data;
    } else if chars[0] == 82 {
      f := FdeEncoding(data[0]);
    } else if chars[0] == 76 {
      f := LsdaEncoding(data[0]);
    } else {
      var size := match data[0] % 8 case 0 => 8 case 2 => 2 case 3 => 4 case 4 => 8 case _ => 0;
      f := Personality(data[0], data[1..1 + size]);
      assert data[..1 + size] == [data[0]] + data[1..1 + size];
    }
  }

  /** What is read was written so. */
  lemma {:induction false} AugmentationComes(chars: seq<byte>, data: seq<byte>, none: byte)
    returns (fields: seq<Field>, rest: seq<byte>)
    requires Augmentation(chars, data, none).Ok?
    ensures AllFit(fields) && chars == Letters(fields) && data == Data(fields) + rest
    ensures Augmentation(chars, data, none) == Ok(LastEncoding(fields, none))
    decreases |chars|
  {
    hide *;
    if chars == [] {
      fields, rest := [], data;
      NoFields(data, none);
    } else {
      var f := FieldRead(chars, data, none);
      var next := data[|FieldData(f)|..];
      var more;
      more, rest := AugmentationComes(chars[1..], next, if f.FdeEncoding? then f.enc else none);
      fields := [f] + more;
      LastFrom(f, more, none);
      ConsFields(f, more);
      Rejoin(chars, data, Letter(f), FieldData(f), Data(more), rest);
    }
  }

  lemma NoFields(data: seq<byte>, none: byte)
    ensures AllFit([]) && Letters([]) == [] && Data([]) == [] && data == [] + data
    ensures LastEncoding([], none) == none && Augmentation([], data, none) == Ok(none)
  {
  }

  lemma Rejoin(chars: seq<byte>, data: seq<byte>, letter: byte, a: seq<byte>, b: seq<byte>, rest: seq<byte>)
    requires chars != [] && chars[0] == letter && |a| <= |data| && data[..|a|] == a && data[|a|..] == b + rest
    ensures chars == [letter] + chars[1..] && data == a + b + rest
  {
    assert data == data[..|a|] + data[|a|..];
  }

  /**
   * The meaning of the letters after `z`: reading succeeds with `x` exactly when they and the data are a list of
   * fields, and then `x` is the encoding written for the last `R`, or 0.
   */
  lemma AugmentationExactly(chars: seq<byte>, data: seq<byte>, x: byte)
    ensures Augmentation(chars, data, 0) == Ok(x) <==>
      exists fields, rest ::
        AllFit(fields) && chars == Letters(fields) && data == Data(fields) + rest && x == LastEncoding(fields, 0)
  {
    hide Augmentation, AllFit, LastEncoding;
    if Augmentation(chars, data, 0) == Ok(x) {
      var fields, rest := AugmentationComes(chars, data, 0);
    }
    forall fields, rest | AllFit(fields) && chars == Letters(fields) && data == Data(fields) + rest
      && x == LastEncoding(fields, 0)
      ensures Augmentation(chars, data, 0) == Ok(x)
    {
      AugmentationReads(fields, rest, 0);
    }
  }

  // ---- common information entries ----------------------------------------------------------------------

  /** A CIE; `code`, `data` and `register` are its factors and return-address column, `rest` its instructions. */
  datatype Cie = Cie(version: byte, fields: seq<Field>, code: u64, data: i64, register: nat, rest: seq<byte>)

  predicate CieFits(c: Cie) {
    && AllFit(c.fields) && |Data(c.fields)| < TWO64
    && (if c.version < 3 then c.register < 256 else c.register < TWO64)
  }

  function RegisterBytes(c: Cie): seq<byte>
    requires CieFits(c)
  {
    if c.version < 3 then [c.register] else EncodeUleb(c.register)
  }

  /** The bytes after the augmentation string. */
  function CieTail(c: Cie): seq<byte>
    requires CieFits(c)
  {
    EncodeUleb(c.code) + (EncodeSleb(c.data) + (RegisterBytes(c) +
      (EncodeUleb(|Data(c.fields)|) + (Data(c.fields) + c.rest))))
  }

  /** A CIE's bytes after its id, with an augmentation that begins with `z`. */
  function WriteCie(c: Cie): seq<byte>
    requires CieFits(c)
  {
    [c.version] + ([122] + Letters(c.fields)) + [0] + CieTail(c)
  }

  lemma {:induction false} NulAfter(data: seq<byte>, from: nat, at: nat)
    requires from <= at < |data| && data[at] == 0 && forall i :: from <= i < at ==> data[i] != 0
    ensures FindNul(data, from) == Some(at)
    decreases at - from
  {
    if from < at {
      NulAfter(data, from + 1, at);
    }
  }

  /** The string and the rest of a CIE's body. */
  lemma SplitBody(version: byte, aug: seq<byte>, tail: seq<byte>)
    requires forall i :: 0 <= i < |aug| ==> aug[i] != 0
    ensures var body := [version] + aug + [0] + tail;
      && body != [] && body[0] == version && FindNul(body, 1) == Some(1 + |aug|)
      && body[1..1 + |aug|] == aug && body[2 + |aug|..] == tail
  {
    var body := [version] + aug + [0] + tail;
    assert forall i :: 1 <= i < 1 + |aug| ==> body[i] == aug[i - 1];
    NulAfter(body, 1, 1 + |aug|);
  }

  lemma SkipEncoded(v: i64, rest: seq<byte>)
    ensures SkipSleb(EncodeSleb(v) + rest) == Ok(rest)
  {
    SlebRoundTrip(v, rest);
  }

  lemma RegisterReads(c: Cie, rest: seq<byte>)
    requires CieFits(c)
    ensures var bytes := RegisterBytes(c) + rest;
      if c.version >= 3 then Take(bytes) == Ok((c.register, rest)) else bytes != [] && bytes[1..] == rest
  {
    if c.version >= 3 {
      TakeEncode(c.register, rest);
    }
  }

  /** A CIE that was written declares the encoding of its last `R`. */
  lemma CieReads(c: Cie)
    requires CieFits(c)
    ensures CieFdeEncoding(WriteCie(c)) == Ok(LastEncoding(c.fields, 0))
  {
    hide *;
    var aug, data := [122] + Letters(c.fields), Data(c.fields);
    var inside := EncodeUleb(|data|) + (data + c.rest);
    WrittenIs(c);
    SplitBody(c.version, aug, CieTail(c));
    TakeEncode(c.code, EncodeSleb(c.data) + (RegisterBytes(c) + inside));
    SkipEncoded(c.data, RegisterBytes(c) + inside);
    RegisterReads(c, inside);
    TakeEncode(|data|, data + c.rest);
    CieSteps(WriteCie(c), aug, EncodeSleb(c.data) + (RegisterBytes(c) + inside), RegisterBytes(c) + inside, inside,
             |data|, data + c.rest);
    assert (data + c.rest)[..|data|] == data + [] && aug[1..] == Letters(c.fields);
    AugmentationReads(c.fields, [], 0);
  }

  lemma WrittenIs(c: Cie)
    requires CieFits(c)
    ensures AllFit(c.fields) && |Data(c.fields)| < TWO64
    ensures WriteCie(c) == [c.version] + ([122] + Letters(c.fields)) + [0] + CieTail(c)
    ensures CieTail(c) == EncodeUleb(c.code) + (EncodeSleb(c.data) + (RegisterBytes(c) +
      (EncodeUleb(|Data(c.fields)|) + (Data(c.fields) + c.rest))))
    ensures forall i :: 0 <= i < |[122] + Letters(c.fields)| ==> ([122] + Letters(c.fields))[i] != 0
  {
    hide AllFit, Letters, Data, EncodeUleb, EncodeSleb, RegisterBytes;
  }

  /** The reading of a CIE, step by step. */
  lemma CieSteps(body: seq<byte>, aug: seq<byte>, t1: seq<byte>, t2: seq<byte>, t3: seq<byte>, length: nat,
                 t4: seq<byte>)
    requires body != [] && FindNul(body, 1) == Some(1 + |aug|) && body[1..1 + |aug|] == aug
    requires aug != [] && aug[0] == 122
    requires Take(body[2 + |aug|..]).Ok? && Take(body[2 + |aug|..]).value.1 == t1 && SkipSleb(t1) == Ok(t2)
    requires if body[0] >= 3 then Take(t2).Ok? && Take(t2).value.1 == t3 else t2 != [] && t2[1..] == t3
    requires Take(t3) == Ok((length, t4)) && length <= |t4|
    ensures CieFdeEncoding(body) == Augmentation(aug[1..], t4[..length], 0)
  {
    hide FindNul, Take, SkipSleb, Augmentation;
  }

  /** Without a leading `z` the encoding is absolute, whatever the string says. */
  lemma PlainCieReads(version: byte, aug: seq<byte>, code: u64, data: i64, register: seq<byte>, rest: seq<byte>)
    requires (forall i :: 0 <= i < |aug| ==> aug[i] != 0) && (aug != [] ==> aug[0] != 122)
    requires if version < 3 then |register| == 1 else exists v: u64 :: register == EncodeUleb(v)
    ensures CieFdeEncoding([version] + aug + [0] + (EncodeUleb(code) + (EncodeSleb(data) + (register + rest)))) == Ok(0)
  {
    SplitBody(version, aug, EncodeUleb(code) + (EncodeSleb(data) + (register + rest)));
    TakeEncode(code, EncodeSleb(data) + (register + rest));
    SkipEncoded(data, register + rest);
    if version >= 3 {
      var v: u64 :| register == EncodeUleb(v);
      TakeEncode(v, rest);
    }
    hide FindNul, Take, SkipSleb, Augmentation, EncodeUleb, EncodeSleb;
  }

  predicate NoNul(aug: seq<byte>) { forall i :: 0 <= i < |aug| ==> aug[i] != 0 }

  /** What follows the augmentation string: the two factors, the register and, after `z`, the fields. */
  ghost predicate TailSays(version: byte, aug: seq<byte>, tail: seq<byte>, x: byte) {
    var code := Take(tail);
    && code.Ok?
    && var data := SkipSleb(code.value.1);
       && data.Ok? && (if version < 3 then data.value != [] else Take(data.value).Ok?)
       && var after := if version < 3 then data.value[1..] else Take(data.value).value.1;
          if aug == [] || aug[0] != 122 then x == 0
          else
            var length := Take(after);
            && length.Ok? && length.value.0 <= |length.value.1|
            && exists fields, rest ::
                 && AllFit(fields) && aug[1..] == Letters(fields)
                 && length.value.1[..length.value.0] == Data(fields) + rest && x == LastEncoding(fields, 0)
  }

  ghost predicate CieSays(body: seq<byte>, x: byte) {
    exists aug, tail ::
      NoNul(aug) && body != [] && body == [body[0]] + aug + [0] + tail && TailSays(body[0], aug, tail, x)
  }

  lemma {:induction false} FirstNul(data: seq<byte>, from: nat)
    requires from <= |data|
    ensures FindNul(data, from).Some? ==> forall i :: from <= i < FindNul(data, from).value ==> data[i] != 0
    decreases |data| - from
  {
    if from < |data| && data[from] != 0 {
      FirstNul(data, from + 1);
    }
  }

  lemma NulSplits(body: seq<byte>)
    requires body != [] && FindNul(body, 1).Some?
    ensures var k := FindNul(body, 1).value;
      NoNul(body[1..k]) && body == [body[0]] + body[1..k] + [0] + body[k + 1..]
  {
    FirstNul(body, 1);
    var k := FindNul(body, 1).value;
    assert forall i :: 0 <= i < |body[1..k]| ==> body[1..k][i] == body[i + 1];
    assert body[k] == 0;
  }

  /** The reading of what follows the string. */
  lemma TailReads(body: seq<byte>, aug: seq<byte>, tail: seq<byte>, x: byte)
    requires body != [] && FindNul(body, 1) == Some(1 + |aug|) && body[1..1 + |aug|] == aug && body[2 + |aug|..] == tail
    ensures CieFdeEncoding(body) == Ok(x) <==> TailSays(body[0], aug, tail, x)
  {
    forall chars: seq<byte>, data: seq<byte>
      ensures Augmentation(chars, data, 0) == Ok(x) <==> exists fields, rest ::
        AllFit(fields) && chars == Letters(fields) && data == Data(fields) + rest && x == LastEncoding(fields, 0)
    {
      AugmentationExactly(chars, data, x);
    }
    hide FindNul, Take, SkipSleb, Augmentation, AllFit, Letters, Data, LastEncoding;
  }

  /** Exactly what a CIE's body declares. */
  lemma CieExactly(body: seq<byte>, x: byte)
    ensures CieFdeEncoding(body) == Ok(x) <==> CieSays(body, x)
  {
    if body != [] && FindNul(body, 1).Some? {
      NulSplits(body);
      var k := FindNul(body, 1).value;
      TailReads(body, body[1..k], body[k + 1..], x);
      assert CieFdeEncoding(body) == Ok(x) ==> CieSays(body, x) by {
        hide TailSays, CieFdeEncoding, FindNul;
      }
    }
    forall aug: seq<byte>, tail: seq<byte> | NoNul(aug) && body != [] && body == [body[0]] + aug + [0] + tail
      && TailSays(body[0], aug, tail, x)
      ensures CieFdeEncoding(body) == Ok(x)
    {
      hide TailSays, CieFdeEncoding, FindNul;
      SplitBody(body[0], aug, tail);
      TailReads(body, aug, tail, x);
    }
    hide TailSays, NoNul;
  }

  // ---- whole sections -------------------------------------------------------------------------------------

  /** A CIE, or an FDE of the CIE at this place in the list with the bytes after its CIE pointer. */
  datatype Entry = CieEntry(c: Cie) | FdeEntry(cie: nat, bytes: seq<byte>)

  predicate EntryFits(e: Entry) { e.CieEntry? ==> CieFits(e.c) }

  function Body(e: Entry): seq<byte>
    requires EntryFits(e)
  {
    match e
    case CieEntry(c) => WriteCie(c)
    case FdeEntry(_, bytes) => bytes
  }

  ghost predicate AllEntriesFit(entries: seq<Entry>) { forall i :: 0 <= i < |entries| ==> EntryFits(entries[i]) }

  /** Where entry `i` starts; each has a length word and a CIE pointer or id before its body. */
  function StartOf(entries: seq<Entry>, i: nat): nat
    requires i <= |entries| && AllEntriesFit(entries)
  {
    if i == 0 then 0 else StartOf(entries, i - 1) + 8 + |Body(entries[i - 1])|
  }

  /** An FDE names an earlier CIE that declares `DW_EH_PE_pcrel | DW_EH_PE_sdata4`, and holds its initial location. */
  ghost predicate Sound(entries: seq<Entry>, i: nat)
    requires i < |entries| && AllEntriesFit(entries)
  {
    && 4 + |Body(entries[i])| < 0xffff_ffff
    && (entries[i].FdeEntry? ==>
          && |entries[i].bytes| >= 4 && entries[i].cie < i && entries[entries[i].cie].CieEntry?
          && LastEncoding(entries[entries[i].cie].c.fields, 0) == 0x1b)
  }

  ghost predicate WellWritten(entries: seq<Entry>) {
    && AllEntriesFit(entries) && StartOf(entries, |entries|) < 0x1_0000_0000
    && forall i :: 0 <= i < |entries| ==> Sound(entries, i)
  }

  /** The distance from an FDE's CIE pointer back to its CIE; 0 marks a CIE. */
  ghost function Pointer(entries: seq<Entry>, i: nat): int
    requires i < |entries| && WellWritten(entries)
  {
    assert Sound(entries, i);
    if entries[i].CieEntry? then 0 else StartOf(entries, i) + 4 - StartOf(entries, entries[i].cie)
  }

  lemma {:induction false} StartsRise(entries: seq<Entry>, i: nat, j: nat)
    requires AllEntriesFit(entries) && i < j <= |entries|
    ensures StartOf(entries, i) + 8 + |Body(entries[i])| <= StartOf(entries, j)
    decreases j
  {
    hide Body;
    if i + 1 < j {
      StartsRise(entries, i, j - 1);
    }
  }

  lemma PointerRange(entries: seq<Entry>, i: nat)
    requires i < |entries| && WellWritten(entries)
    ensures 0 <= Pointer(entries, i) < 0x1_0000_0000
    ensures entries[i].FdeEntry? ==> 4 < Pointer(entries, i) <= StartOf(entries, i) + 4
  {
    assert Sound(entries, i);
    StartsRise(entries, i, |entries|);
    if entries[i].FdeEntry? {
      StartsRise(entries, entries[i].cie, i);
    }
  }

  ghost function EntryBytes(entries: seq<Entry>, i: nat): seq<byte>
    requires i < |entries| && WellWritten(entries)
  {
    PointerRange(entries, i);
    Le32(4 + |Body(entries[i])|) + Le32(Pointer(entries, i)) + Body(entries[i])
  }

  ghost function Write(entries: seq<Entry>, n: nat): (out: seq<byte>)
    requires n <= |entries| && WellWritten(entries)
    ensures |out| == StartOf(entries, n)
  {
    if n == 0 then [] else Write(entries, n - 1) + EntryBytes(entries, n - 1)
  }

  lemma {:induction false} WriteSlice(entries: seq<Entry>, i: nat, n: nat)
    requires i < n <= |entries| && WellWritten(entries)
    ensures StartOf(entries, i) <= StartOf(entries, i + 1) <= StartOf(entries, n)
    ensures Write(entries, n)[StartOf(entries, i)..StartOf(entries, i + 1)] == EntryBytes(entries, i)
    decreases n
  {
    hide EntryBytes, Body, WellWritten;
    WrittenFits(entries);
    if i + 1 < n {
      WriteSlice(entries, i, n - 1);
    }
  }

  lemma WrittenFits(entries: seq<Entry>)
    requires WellWritten(entries)
    ensures AllEntriesFit(entries) && forall i :: 0 <= i < |entries| ==> Sound(entries, i)
  {
  }

  /** The record an entry is to be read as. */
  ghost function RecordOf(entries: seq<Entry>, i: nat): Record
    requires i < |entries| && AllEntriesFit(entries)
  {
    var start, end := StartOf(entries, i), StartOf(entries, i + 1);
    match entries[i]
    case CieEntry(c) => Record(start, end, None, None, Some(LastEncoding(c.fields, 0)))
    case FdeEntry(cie, _) => Record(start, end, Some(cie), Some(start + 8), None)
  }

  ghost function RecordsOf(entries: seq<Entry>, n: nat): (records: seq<Record>)
    requires n <= |entries| && AllEntriesFit(entries)
    ensures |records| == n && forall i :: 0 <= i < n ==> records[i] == RecordOf(entries, i)
  {
    seq(n, i requires 0 <= i < n => RecordOf(entries, i))
  }

  /** The bytes the parser looks at for entry `i`, wherever its section ends. */
  lemma EntryRead(entries: seq<Entry>, i: nat, data: seq<byte>)
    requires i < |entries| && WellWritten(entries) && Write(entries, |entries|) <= data
    ensures var at := StartOf(entries, i);
      && at + 8 + |Body(entries[i])| == StartOf(entries, i + 1) <= |data|
      && Ru32(data, at) == 4 + |Body(entries[i])| && Ru32(data, at + 4) == Pointer(entries, i)
      && data[at + 8..at + 8 + |Body(entries[i])|] == Body(entries[i])
  {
    hide *;
    EntryFacts(entries, i);
    var at, end := StartOf(entries, i), StartOf(entries, i + 1);
    var body, pointer := Body(entries[i]), Pointer(entries, i);
    WriteSlice(entries, i, |entries|);
    EntryBytesAre(entries, i);
    PrefixSlice(Write(entries, |entries|), data, at, end);
    SliceOf(data, at, end, Le32(4 + |body|), Le32(pointer), body);
    Le32RoundTrip(4 + |body|, data, at);
    Le32RoundTrip(pointer, data, at + 4);
  }

  lemma PrefixSlice(a: seq<byte>, data: seq<byte>, at: nat, end: nat)
    requires a <= data && at <= end <= |a|
    ensures end <= |data| && data[at..end] == a[at..end]
  {
  }

  /** What is known about an entry of a well written list. */
  lemma EntryFacts(entries: seq<Entry>, i: nat)
    requires i < |entries| && WellWritten(entries)
    ensures AllEntriesFit(entries) && EntryFits(entries[i]) && 4 + |Body(entries[i])| < 0xffff_ffff
    ensures 0 <= Pointer(entries, i) < 0x1_0000_0000
    ensures StartOf(entries, i + 1) == StartOf(entries, i) + 8 + |Body(entries[i])|
    ensures entries[i].CieEntry? ==>
      CieFits(entries[i].c) && Body(entries[i]) == WriteCie(entries[i].c) && Pointer(entries, i) == 0
    ensures entries[i].FdeEntry? ==>
      && |entries[i].bytes| >= 4 && Body(entries[i]) == entries[i].bytes
      && entries[i].cie < i && entries[entries[i].cie].CieEntry?
      && LastEncoding(entries[entries[i].cie].c.fields, 0) == 0x1b
      && 4 < Pointer(entries, i) == StartOf(entries, i) + 4 - StartOf(entries, entries[i].cie)
  {
    PointerRange(entries, i);
    assert Sound(entries, i);
    hide WriteCie, CieFits, LastEncoding;
  }

  lemma EntryBytesAre(entries: seq<Entry>, i: nat)
    requires i < |entries| && WellWritten(entries)
    ensures 0 <= Pointer(entries, i)
    ensures EntryBytes(entries, i) == Le32(4 + |Body(entries[i])|) + Le32(Pointer(entries, i)) + Body(entries[i])
  {
    PointerRange(entries, i);
    hide WellWritten, Body, Le32, Pointer;
  }

  lemma SubSlice(data: seq<byte>, at: nat, end: nat, from: nat, to: nat)
    requires at <= end <= |data| && from <= to <= end - at
    ensures data[at..end][from..to] == data[at + from..at + to]
  {
    var a, b := data[at..end][from..to], data[at + from..at + to];
    assert |a| == |b| == to - from;
    forall k | 0 <= k < |a| ensures a[k] == b[k] {
      var m := from + k;
      assert data[at..end][m] == data[at + m];
    }
  }

  lemma SliceOf(data: seq<byte>, at: nat, end: nat, a: seq<byte>, b: seq<byte>, c: seq<byte>)
    requires at <= end <= |data| && data[at..end] == a + b + c && |a| == |b| == 4
    ensures end == at + 8 + |c|
    ensures data[at..at + 4] == a && data[at + 4..at + 4 + 4] == b && data[at + 8..end] == c
  {
    var all := data[at..end];
    assert |all| == 8 + |c|;
    SubSlice(data, at, end, 0, 4);
    SubSlice(data, at, end, 4, 8);
    SubSlice(data, at, end, 8, |all|);
  }

  lemma FindsCie(entries: seq<Entry>, n: nat, cie: nat)
    requires AllEntriesFit(entries) && cie < n <= |entries| && entries[cie].CieEntry?
    ensures FindCie(RecordsOf(entries, n), StartOf(entries, cie)) == Some(cie)
  {
    var records := RecordsOf(entries, n);
    forall i, j | 0 <= i < j < |records| ensures records[i].start < records[j].start {
      StartsRise(entries, i, j);
    }
    FindCieAt(records, cie);
  }

  lemma DecodesEntry(entries: seq<Entry>, i: nat)
    requires WellWritten(entries) && i < |entries|
    ensures 0 <= Pointer(entries, i)
    ensures Decode(StartOf(entries, i), 4 + |Body(entries[i])|, Pointer(entries, i), Body(entries[i]),
                   RecordsOf(entries, i)) == Found(RecordOf(entries, i))
  {
    hide *;
    EntryFacts(entries, i);
    RecordIs(entries, i);
    var start, body := StartOf(entries, i), Body(entries[i]);
    match entries[i] {
      case CieEntry(c) =>
        CieReads(c);
        DecodesCie(start, body, RecordsOf(entries, i));
      case FdeEntry(cie, bytes) =>
        FindsCie(entries, i, cie);
        RecordIs(entries, cie);
        DecodesFde(start, body, Pointer(entries, i), RecordsOf(entries, i));
    }
  }

  lemma RecordIs(entries: seq<Entry>, i: nat)
    requires i < |entries| && AllEntriesFit(entries)
    ensures var start, end := StartOf(entries, i), StartOf(entries, i + 1);
      RecordOf(entries, i) == match entries[i]
        case CieEntry(c) => Record(start, end, None, None, Some(LastEncoding(c.fields, 0)))
        case FdeEntry(cie, _) => Record(start, end, Some(cie), Some(start + 8), None)
  {
    hide StartOf, LastEncoding;
  }

  lemma DecodesCie(start: nat, body: seq<byte>, records: seq<Record>)
    requires CieFdeEncoding(body).Ok?
    ensures Decode(start, 4 + |body|, 0, body, records)
         == Found(Record(start, start + 8 + |body|, None, None, Some(CieFdeEncoding(body).value)))
  {
    hide CieFdeEncoding;
  }

  lemma DecodesFde(start: nat, body: seq<byte>, pointer: nat, records: seq<Record>)
    requires 0 < pointer <= start + 4 && |body| >= 4
    requires FindCie(records, start + 4 - pointer).Some?
    requires var cie := FindCie(records, start + 4 - pointer).value; records[cie].fdeEncoding == Some(0x1b)
    ensures Decode(start, 4 + |body|, pointer, body, records)
         == Found(Record(start, start + 8 + |body|, FindCie(records, start + 4 - pointer), Some(start + 8), None))
  {
    hide CieFdeEncoding, FindCie;
  }

  lemma NextIsEntry(entries: seq<Entry>, i: nat, data: seq<byte>)
    requires WellWritten(entries) && i < |entries| && Write(entries, |entries|) <= data
    ensures StartOf(entries, i) < |data|
    ensures NextRecord(data, StartOf(entries, i), RecordsOf(entries, i)) == Found(RecordOf(entries, i))
  {
    hide *;
    EntryFacts(entries, i);
    EntryRead(entries, i, data);
    DecodesEntry(entries, i);
    var at, body := StartOf(entries, i), Body(entries[i]);
    NextIs(data, at, body, Pointer(entries, i), RecordsOf(entries, i));
  }

  lemma NextIs(data: seq<byte>, at: nat, body: seq<byte>, pointer: nat, records: seq<Record>)
    requires at + 8 + |body| <= |data| && 4 + |body| < 0xffff_ffff
    requires Ru32(data, at) == 4 + |body| && Ru32(data, at + 4) == pointer && data[at + 8..at + 8 + |body|] == body
    ensures NextRecord(data, at, records) == Decode(at, 4 + |body|, pointer, body, records)
  {
    hide Ru32, Decode, AllZero;
  }

  lemma NextStops(data: seq<byte>, at: nat, records: seq<Record>)
    requires at < |data| && AllZero(data, at)
    ensures NextRecord(data, at, records) == Stop
  {
    hide Decode;
  }

  lemma {:induction false} ReadsFrom(entries: seq<Entry>, i: nat, data: seq<byte>)
    requires WellWritten(entries) && i <= |entries|
    requires Write(entries, |entries|) <= data && AllZero(data, StartOf(entries, |entries|))
    ensures StartOf(entries, i) <= |data|
    ensures RecordsFrom(data, StartOf(entries, i), RecordsOf(entries, i)) == Ok(RecordsOf(entries, |entries|))
    decreases |entries| - i
  {
    hide *;
    WrittenFits(entries);
    var at := StartOf(entries, i);
    if i < |entries| {
      NextIsEntry(entries, i, data);
      RecordEnds(entries, i);
      ReadsFrom(entries, i + 1, data);
      RecordsPush(entries, i);
      ReadsOne(data, at, RecordsOf(entries, i), RecordOf(entries, i));
    } else {
      if at < |data| {
        NextStops(data, at, RecordsOf(entries, i));
      }
      ReadsNone(data, at, RecordsOf(entries, i));
    }
  }

  lemma RecordsPush(entries: seq<Entry>, i: nat)
    requires i < |entries| && AllEntriesFit(entries)
    ensures RecordsOf(entries, i + 1) == RecordsOf(entries, i) + [RecordOf(entries, i)]
  {
    hide RecordOf, AllEntriesFit;
  }

  lemma ReadsOne(data: seq<byte>, at: nat, records: seq<Record>, record: Record)
    requires at < |data| && NextRecord(data, at, records) == Found(record)
    ensures record.end <= |data| && RecordsFrom(data, at, records) == RecordsFrom(data, record.end, records + [record])
  {
    NextShape(data, at, records);
    hide NextRecord;
  }

  lemma ReadsNone(data: seq<byte>, at: nat, records: seq<Record>)
    requires at <= |data| && (at < |data| ==> NextRecord(data, at, records) == Stop)
    ensures RecordsFrom(data, at, records) == Ok(records)
  {
    hide NextRecord;
  }

  lemma RecordEnds(entries: seq<Entry>, i: nat)
    requires i < |entries| && AllEntriesFit(entries)
    ensures RecordOf(entries, i).end == StartOf(entries, i + 1)
  {
    hide StartOf;
  }

  /** The relocation's bytes lie in one entry, after its length word and CIE pointer. */
  ghost predicate InEntry(entries: seq<Entry>, i: nat, rela: Rela)
    requires i < |entries| && AllEntriesFit(entries)
  {
    RelocationWidth(rela.rType).Some? && StartOf(entries, i) + 8 <= rela.offset
    && rela.offset + RelocationWidth(rela.rType).value <= StartOf(entries, i + 1)
  }

  lemma WidthPositive(rType: nat)
    ensures RelocationWidth(rType).Some? ==> RelocationWidth(rType).value >= 4
  {
  }

  lemma InEntryExactly(entries: seq<Entry>, rela: Rela)
    requires AllEntriesFit(entries)
    ensures RelaFits(RecordsOf(entries, |entries|), rela) <==>
      exists i :: 0 <= i < |entries| && InEntry(entries, i, rela)
  {
    WidthPositive(rela.rType);
    var records := RecordsOf(entries, |entries|);
    assert forall i :: 0 <= i < |entries| ==>
      records[i].start == StartOf(entries, i) && records[i].end == StartOf(entries, i + 1);
    hide RecordOf, RelocationWidth, AllEntriesFit, StartOf;
    var k := RecordAt(records, rela.offset);
    if RelaFits(records, rela) {
      assert InEntry(entries, k.value, rela);
    }
    forall i | 0 <= i < |entries| && InEntry(entries, i, rela) ensures RelaFits(records, rela) {
      assert records[i].start <= rela.offset < records[i].end;
      SameEntry(entries, i, k.value, rela.offset);
    }
  }

  lemma SameEntry(entries: seq<Entry>, i: nat, k: nat, offset: nat)
    requires AllEntriesFit(entries) && i < |entries| && k < |entries|
    requires StartOf(entries, i) <= offset < StartOf(entries, i + 1)
    requires StartOf(entries, k) <= offset < StartOf(entries, k + 1)
    ensures i == k
  {
    hide Body;
    if i < k {
      StartsRise(entries, i, k);
    } else if k < i {
      StartsRise(entries, k, i);
    }
  }

  /**
   * A section that was written, with zeros after it, parses to exactly its entries, unless a relocation writes
   * outside the entries' bodies.
   */
  lemma SectionReads(entries: seq<Entry>, section: Section)
    requires WellWritten(entries) && Write(entries, |entries|) <= section.data
    requires AllZero(section.data, StartOf(entries, |entries|))
    ensures Parse(section) ==
      if forall r :: r in section.relas ==> exists i :: 0 <= i < |entries| && InEntry(entries, i, r)
      then Ok(RecordsOf(entries, |entries|)) else Err
  {
    ReadsFrom(entries, 0, section.data);
    WrittenFits(entries);
    assert RecordsOf(entries, 0) == [];
    forall r | r in section.relas
      ensures RelaFits(RecordsOf(entries, |entries|), r) <==> exists i :: 0 <= i < |entries| && InEntry(entries, i, r) {
      InEntryExactly(entries, r);
    }
    hide RelaFits, InEntry, RecordsFrom, WellWritten, AllEntriesFit, Write;
  }

  // ---- which sections parse, and to what ----------------------------------------------------------------------

  /**
   * A record as its bytes say.  After a length of at least 4 comes 0 and a CIE's body, or the distance back to an
   * earlier CIE that declares pcrel|sdata4 and at least a 4-byte initial location.
   */
  ghost predicate RecordStands(data: seq<byte>, records: seq<Record>, i: nat)
    requires i < |records|
  {
    var r := records[i];
    && r.start == (if i == 0 then 0 else records[i - 1].end)
    && r.start + 8 <= r.end <= |data| && r.end - r.start - 4 < 0xffff_ffff
    && Ru32(data, r.start) == r.end - r.start - 4
    && match r.cie
       case None =>
         && Ru32(data, r.start + 4) == 0 && r.initialLocation == None && r.fdeEncoding.Some?
         && CieFdeEncoding(data[r.start + 8..r.end]) == Ok(r.fdeEncoding.value)
       case Some(c) =>
         && c < i && records[c].cie == None && records[c].fdeEncoding == Some(0x1b)
         && r.start + 12 <= r.end && Ru32(data, r.start + 4) == r.start + 4 - records[c].start
         && r.initialLocation == Some(r.start + 8) && r.fdeEncoding == None
  }

  ghost function LastEnd(records: seq<Record>): nat {
    if records == [] then 0 else records[|records| - 1].end
  }

  /** The records are those of the bytes, and only zeros follow. */
  ghost predicate AllStand(data: seq<byte>, records: seq<Record>) {
    && (forall i :: 0 <= i < |records| ==> RecordStands(data, records, i))
    && AllZero(data, LastEnd(records))
  }

  lemma FoundStands(data: seq<byte>, records: seq<Record>, end: nat, i: nat)
    requires Parsed(data, records, end) && i < |records|
    ensures RecordStands(data, records, i)
  {
    assert FoundAt(data, records, i) && records[i].start == EndBefore(records, i);
    hide CieFdeEncoding, FindCie, Ru32, Parsed, AllZero, Decode;
    NextFound(data, records[i].start, records[..i], records[i]);
    if records[i].cie.Some? {
      assert records[..i][records[i].cie.value] == records[records[i].cie.value];
    }
  }

  /** What the parser has seen when it finds a record. */
  lemma NextFound(data: seq<byte>, at: nat, records: seq<Record>, r: Record)
    requires at < |data| && NextRecord(data, at, records) == Found(r)
    ensures r.start == at && at + 8 <= r.end <= |data| && r.end - at - 4 < 0xffff_ffff
    ensures Ru32(data, at) == r.end - at - 4
    ensures r.cie.None? ==>
      && Ru32(data, at + 4) == 0 && r.initialLocation == None && r.fdeEncoding.Some?
      && CieFdeEncoding(data[at + 8..r.end]) == Ok(r.fdeEncoding.value)
    ensures r.cie.Some? ==>
      && r.cie.value < |records| && records[r.cie.value].cie == None
      && records[r.cie.value].fdeEncoding == Some(0x1b) && at + 12 <= r.end
      && Ru32(data, at + 4) == at + 4 - records[r.cie.value].start
      && r.initialLocation == Some(at + 8) && r.fdeEncoding == None
  {
    hide CieFdeEncoding, FindCie, AllZero;
    WordBound(data, at);
    hide Ru32;
  }

  lemma WordBound(data: seq<byte>, at: nat)
    requires at < |data|
    ensures at + 4 <= |data| ==> Ru32(data, at) <= 0xffff_ffff
  {
  }

  lemma StopsAtZeros(data: seq<byte>, offset: nat, records: seq<Record>)
    requires offset < |data| && NextRecord(data, offset, records) == Stop
    ensures AllZero(data, offset)
  {
    if offset + 4 <= |data| {
      StopsWhere(data, offset, records);
      ZeroWord(data, offset);
      hide NextRecord, Ru32;
      assert forall i :: offset <= i < offset + 4 ==> data[i] == 0;
    }
  }

  lemma StopsWhere(data: seq<byte>, offset: nat, records: seq<Record>)
    requires offset + 4 <= |data| && NextRecord(data, offset, records) == Stop
    ensures Ru32(data, offset) == 0 && AllZero(data, offset + 4)
  {
    hide CieFdeEncoding, FindCie, Ru32, AllZero;
  }

  lemma ZeroWord(data: seq<byte>, at: nat)
    requires at + 4 <= |data| && Ru32(data, at) == 0
    ensures data[at] == data[at + 1] == data[at + 2] == data[at + 3] == 0
  {
  }

  lemma {:induction false} ZerosFollow(data: seq<byte>, offset: nat, records: seq<Record>)
    requires offset <= |data| && offset == LastEnd(records) && RecordsFrom(data, offset, records).Ok?
    ensures AllZero(data, LastEnd(RecordsFrom(data, offset, records).value))
    decreases |data| - offset
  {
    hide NextRecord, AllZero;
    if offset < |data| {
      match NextRecord(data, offset, records) {
        case Stop => StopsAtZeros(data, offset, records);
        case Fail =>
        case Found(record) =>
          NextShape(data, offset, records);
          ZerosFollow(data, record.end, records + [record]);
      }
    } else {
      NoMore(data);
    }
  }

  lemma NoMore(data: seq<byte>)
    ensures AllZero(data, |data|)
  {
  }

  lemma {:induction false} StandsInOrder(data: seq<byte>, records: seq<Record>, i: nat, j: nat)
    requires AllStand(data, records) && i < j < |records|
    ensures records[i].start < records[j].start
    decreases j
  {
    assert RecordStands(data, records, j) && RecordStands(data, records, j - 1);
    hide AllStand;
    if i < j - 1 {
      StandsInOrder(data, records, i, j - 1);
    }
  }

  lemma FindsThatCie(data: seq<byte>, records: seq<Record>, i: nat, c: nat)
    requires AllStand(data, records) && c < i <= |records| && records[c].cie == None
    ensures FindCie(records[..i], records[c].start) == Some(c)
  {
    var before := records[..i];
    forall a, b | 0 <= a < b < |before| ensures before[a].start < before[b].start {
      StandsInOrder(data, records, a, b);
    }
    hide AllStand;
    assert before[c] == records[c];
    FindCieAt(before, c);
  }

  lemma StandsFound(data: seq<byte>, records: seq<Record>, i: nat)
    requires AllStand(data, records) && i < |records|
    ensures records[i].start < |data| && NextRecord(data, records[i].start, records[..i]) == Found(records[i])
  {
    hide *;
    var r := records[i];
    StandsFacts(data, records, i);
    NextIs(data, r.start, data[r.start + 8..r.end], Ru32(data, r.start + 4), records[..i]);
    match r.cie {
      case None => DecodesCie(r.start, data[r.start + 8..r.end], records[..i]);
      case Some(c) =>
        FindsThatCie(data, records, i, c);
        assert records[..i][c] == records[c];
        DecodesFde(r.start, data[r.start + 8..r.end], Ru32(data, r.start + 4), records[..i]);
    }
  }

  lemma StandsFacts(data: seq<byte>, records: seq<Record>, i: nat)
    requires AllStand(data, records) && i < |records|
    ensures var r := records[i];
      && r.start + 8 <= r.end <= |data| && r.end - r.start - 4 < 0xffff_ffff
      && Ru32(data, r.start) == r.end - r.start - 4
      && (r.cie.None? ==>
            && Ru32(data, r.start + 4) == 0 && r.initialLocation == None && r.fdeEncoding.Some?
            && CieFdeEncoding(data[r.start + 8..r.end]) == Ok(r.fdeEncoding.value))
      && (r.cie.Some? ==>
            && r.cie.value < i && records[r.cie.value].cie == None
            && records[r.cie.value].fdeEncoding == Some(0x1b) && records[r.cie.value].start < r.start
            && r.start + 12 <= r.end && Ru32(data, r.start + 4) == r.start + 4 - records[r.cie.value].start
            && r.initialLocation == Some(r.start + 8) && r.fdeEncoding == None)
  {
    assert RecordStands(data, records, i);
    if records[i].cie.Some? {
      StandsInOrder(data, records, records[i].cie.value, i);
    }
    hide CieFdeEncoding, Ru32, AllStand;
  }

  lemma {:induction false} StandingReads(data: seq<byte>, records: seq<Record>, i: nat)
    requires AllStand(data, records) && i <= |records|
    ensures var at := if i == 0 then 0 else records[i - 1].end;
      at <= |data| && RecordsFrom(data, at, records[..i]) == Ok(records)
    decreases |records| - i
  {
    hide *;
    var at := if i == 0 then 0 else records[i - 1].end;
    EndInside(data, records, i);
    if i < |records| {
      StandsFound(data, records, i);
      StandsStart(data, records, i);
      StandingReads(data, records, i + 1);
      assert records[..i + 1] == records[..i] + [records[i]];
      ReadsOne(data, at, records[..i], records[i]);
    } else {
      assert records[..i] == records;
      ZerosAtEnd(data, records);
      if at < |data| {
        NextStops(data, at, records);
      }
      ReadsNone(data, at, records);
    }
  }

  lemma ZerosAtEnd(data: seq<byte>, records: seq<Record>)
    requires AllStand(data, records)
    ensures AllZero(data, if |records| == 0 then 0 else records[|records| - 1].end)
  {
    hide AllZero, RecordStands;
  }

  lemma EndInside(data: seq<byte>, records: seq<Record>, i: nat)
    requires AllStand(data, records) && i <= |records|
    ensures i > 0 ==> records[i - 1].end <= |data|
  {
    if i > 0 {
      assert RecordStands(data, records, i - 1);
    }
  }

  lemma StandsStart(data: seq<byte>, records: seq<Record>, i: nat)
    requires AllStand(data, records) && i < |records|
    ensures records[i].start == if i == 0 then 0 else records[i - 1].end
  {
    assert RecordStands(data, records, i);
  }

  /** The relocation's bytes lie in record `i`, after its length word and CIE pointer. */
  ghost predicate InRecordBody(records: seq<Record>, i: nat, rela: Rela)
    requires i < |records|
  {
    RelocationWidth(rela.rType).Some? && records[i].start + 8 <= rela.offset
    && rela.offset + RelocationWidth(rela.rType).value <= records[i].end
  }

  lemma RelaStands(data: seq<byte>, records: seq<Record>, rela: Rela)
    requires AllStand(data, records)
    ensures RelaFits(records, rela) <==> exists i :: 0 <= i < |records| && InRecordBody(records, i, rela)
  {
    WidthPositive(rela.rType);
    hide RelocationWidth, AllStand;
    var k := RecordAt(records, rela.offset);
    if RelaFits(records, rela) {
      assert InRecordBody(records, k.value, rela);
    }
    forall i | 0 <= i < |records| && InRecordBody(records, i, rela) ensures RelaFits(records, rela) {
      assert records[i].start <= rela.offset < records[i].end;
      OneRecord(data, records, i, k.value, rela.offset);
    }
  }

  lemma OneRecord(data: seq<byte>, records: seq<Record>, i: nat, k: nat, offset: nat)
    requires AllStand(data, records) && i < |records| && k < |records|
    requires records[i].start <= offset < records[i].end && records[k].start <= offset < records[k].end
    ensures i == k
  {
    hide AllStand;
    if i < k {
      StandsApart(data, records, i, k);
    } else if k < i {
      StandsApart(data, records, k, i);
    }
  }

  lemma {:induction false} StandsApart(data: seq<byte>, records: seq<Record>, i: nat, j: nat)
    requires AllStand(data, records) && i < j < |records|
    ensures records[i].end <= records[j].start
    decreases j
  {
    assert RecordStands(data, records, j) && RecordStands(data, records, j - 1);
    hide AllStand;
    if i < j - 1 {
      StandsApart(data, records, i, j - 1);
    }
  }

  /** Exactly which sections parse, and to what. */
  lemma ParseExactly(section: Section, records: seq<Record>)
    ensures Parse(section) == Ok(records) <==>
      && AllStand(section.data, records)
      && forall r :: r in section.relas ==> exists i :: 0 <= i < |records| && InRecordBody(records, i, r)
  {
    if Parse(section) == Ok(records) {
      ParsedStand(section.data, records);
    }
    if AllStand(section.data, records) {
      StandingReads(section.data, records, 0);
      assert records[..0] == [];
      forall r | r in section.relas
        ensures RelaFits(records, r) <==> exists i :: 0 <= i < |records| && InRecordBody(records, i, r) {
        RelaStands(section.data, records, r);
      }
    }
    hide AllStand, RelaFits, InRecordBody, RecordsFrom;
  }

  lemma ParsedStand(data: seq<byte>, records: seq<Record>)
    requires RecordsFrom(data, 0, []) == Ok(records)
    ensures AllStand(data, records)
  {
    var end := ParsedFrom(data, 0, []);
    ZerosFollow(data, 0, []);
    hide Parsed, RecordsFrom, AllZero;
    forall i | 0 <= i < |records| ensures RecordStands(data, records, i) {
      FoundStands(data, records, end, i);
    }
  }
}
