/** `.eh_frame` as section GC sees it: the record parser and the compactor. */
module EhFrame {
  import opened Wrappers
  import opened Leb
  import opened Elf
  import opened Bytes

  /** `DW_EH_PE_pcrel | DW_EH_PE_sdata4`. */
  const PCREL_SDATA4: byte := 0x1b

  datatype Record = Record(start: nat, end: nat, cie: Option<nat>, initialLocation: Option<nat>,
                           fdeEncoding: Option<byte>)

  // ---- the FDE encoding a CIE declares --------------------------------------

  /** The augmentation characters after `z`, read against the augmentation data. */
  function Augmentation(chars: seq<byte>, data: seq<byte>, encoding: byte): Result<byte>
    decreases |chars|
  {
    if chars == [] then Ok(encoding)
    else if chars[0] == 'S' as int then Augmentation(chars[1..], data, encoding)
    else if data == [] then Err
    else if chars[0] == 'R' as int then Augmentation(chars[1..], data[1..], data[0])
    else if chars[0] == 'L' as int then Augmentation(chars[1..], data[1..], encoding)
    else if chars[0] == 'P' as int then
      var size := match data[0] % 8 case 0 => 8 case 2 => 2 case 3 => 4 case 4 => 8 case _ => 0;
      if size == 0 || 1 + size > |data| then Err
      else Augmentation(chars[1..], data[1 + size..], encoding)
    else Err
  }

  /** `cie_fde_encoding`, on the bytes of the record that follow the CIE id. */
  function CieFdeEncoding(body: seq<byte>): Result<byte> {
    if body == [] then Err else
    var nul := FindNul(body, 1);
    if nul.None? then Err else
    var aug := body[1..nul.value];
    var codeAlign := Take(body[nul.value + 1..]);
    if codeAlign.Err? then Err else
    var dataAlign := SkipSleb(codeAlign.value.1);
    if dataAlign.Err? then Err else
    var register := if body[0] >= 3 then Take(dataAlign.value)
                    else if dataAlign.value == [] then Err else Ok((0, dataAlign.value[1..]));
    if register.Err? then Err
    else if aug == [] || aug[0] != 'z' as int then Ok(0)
    else
      var length := Take(register.value.1);
      if length.Err? || length.value.0 > |length.value.1| then Err
      else Augmentation(aug[1..], length.value.1[..length.value.0], 0)
  }

  // ---- parsing -----------------------------------------------------------------

  /** The latest CIE recorded at this offset. */
  function FindCie(records: seq<Record>, offset: nat): (k: Option<nat>)
    ensures k.Some? ==> k.value < |records| && records[k.value].start == offset && records[k.value].cie.None?
  {
    if records == [] then None else
    var n := |records| - 1;
    if records[n].start == offset && records[n].cie.None? then Some(n) else FindCie(records[..n], offset)
  }

  datatype Next = Stop | Fail | Found(record: Record)

  /** A record's meaning from its length, its CIE pointer and the bytes after them. */
  function Decode(offset: nat, length: nat, ciePointer: nat, body: seq<byte>, records: seq<Record>): Next {
    var content, end := offset + 4, offset + 4 + length;
    if ciePointer == 0 then
      var encoding := CieFdeEncoding(body);
      if encoding.Err? then Fail else Found(Record(offset, end, None, None, Some(encoding.value)))
    else if ciePointer > content then Fail
    else
      var cie := FindCie(records, content - ciePointer);
      if cie.None? || content + 8 > end then Fail
      else if records[cie.value].fdeEncoding != Some(PCREL_SDATA4) then Fail
      else Found(Record(offset, end, cie, Some(content + 4), None))
  }

  /** One turn of the parse loop at `offset`, with the records found so far. */
  function NextRecord(data: seq<byte>, offset: nat, records: seq<Record>): (next: Next)
    requires offset < |data|
    ensures next.Found? ==> next.record.start == offset && offset + 8 <= next.record.end <= |data|
    ensures next.Found? && next.record.cie.Some? ==>
      next.record.cie.value < |records| && records[next.record.cie.value].cie.None?
  {
    if offset + 4 > |data| then if AllZero(data, offset) then Stop else Fail else
    var length := Ru32(data, offset);
    if length == 0 then if AllZero(data, offset + 4) then Stop else Fail
    else if length == 0xffff_ffff then Fail
    else if offset + 4 + length > |data| || length < 4 then Fail
    else Decode(offset, length, Ru32(data, offset + 4), data[offset + 8..offset + 4 + length], records)
  }

  function RecordsFrom(data: seq<byte>, offset: nat, records: seq<Record>): Result<seq<Record>>
    requires offset <= |data|
    decreases |data| - offset
  {
    if offset == |data| then Ok(records) else
    match NextRecord(data, offset, records)
    case Stop => Ok(records)
    case Fail => Err
    case Found(record) => RecordsFrom(data, record.end, records + [record])
  }

  /** The first record whose bytes include this offset. */
  function RecordAt(records: seq<Record>, offset: nat): (k: Option<nat>)
    ensures k.Some? ==> k.value < |records| && records[k.value].start <= offset < records[k.value].end
    ensures k.None? ==> forall i :: 0 <= i < |records| ==> !(records[i].start <= offset < records[i].end)
  {
    if records == [] then None
    else if records[0].start <= offset < records[0].end then Some(0)
    else
      var k := RecordAt(records[1..], offset);
      if k.None? then
        assert forall i :: 1 <= i < |records| ==> records[i] == records[1..][i - 1];
        None
      else Some(k.value + 1)
  }

  /** Every relocation writes inside one record, past its length and CIE pointer. */
  predicate RelaFits(records: seq<Record>, rela: Rela) {
    var k := RecordAt(records, rela.offset);
    var width := RelocationWidth(rela.rType);
    && k.Some? && width.Some?
    && records[k.value].start + 8 <= rela.offset
    && rela.offset + width.value <= records[k.value].end
  }

  /** `parse_eh_frame_gc`, as a function of the section. */
  function Parse(section: Section): Result<seq<Record>> {
    var records := RecordsFrom(section.data, 0, []);
    if records.Err? then Err
    else if forall r :: r in section.relas ==> RelaFits(records.value, r) then records
    else Err
  }

  method ParseEhFrame(section: Section) returns (r: Result<seq<Record>>)
    ensures r == Parse(section)
  {
    hide NextRecord;
    var records: seq<Record>, offset := [], 0;
    ghost var whole := RecordsFrom(section.data, 0, []);
    while offset < |section.data|
      invariant offset <= |section.data|
      invariant RecordsFrom(section.data, offset, records) == whole
    {
      match NextRecord(section.data, offset, records) {
        case Stop => break;
        case Fail => return Err;
        case Found(record) =>
          records := records + [record];
          offset := record.end;
      }
    }
    assert whole == Ok(records);
    for i := 0 to |section.relas|
      invariant forall j :: 0 <= j < i ==> RelaFits(records, section.relas[j])
    {
      if !RelaFits(records, section.relas[i]) {
        return Err;
      }
    }
    r := Ok(records);
  }

  // ---- what a successful parse says -------------------------------------------------

  function EndBefore(records: seq<Record>, i: nat): nat
    requires i <= |records|
  {
    if i == 0 then 0 else records[i - 1].end
  }

  ghost predicate FoundAt(data: seq<byte>, records: seq<Record>, i: nat)
    requires i < |records|
  {
    && records[i].start < |data|
    && NextRecord(data, records[i].start, records[..i]) == Found(records[i])
  }

  /** The records tile a prefix of the data, and each is what the parser finds there. */
  ghost predicate Parsed(data: seq<byte>, records: seq<Record>, end: nat) {
    && end == EndBefore(records, |records|) && end <= |data|
    && (forall i {:trigger EndBefore(records, i)} :: 0 <= i < |records| ==> records[i].start == EndBefore(records, i))
    && (forall i :: 0 <= i < |records| ==> FoundAt(data, records, i))
  }

  lemma NextShape(data: seq<byte>, offset: nat, records: seq<Record>)
    requires offset < |data|
    ensures var next := NextRecord(data, offset, records);
      next.Found? ==> next.record.start == offset && offset + 8 <= next.record.end <= |data|
  {
  }

  lemma ParsedSnoc(data: seq<byte>, records: seq<Record>, offset: nat, record: Record)
    requires Parsed(data, records, offset) && offset < |data| && NextRecord(data, offset, records) == Found(record)
    ensures Parsed(data, records + [record], record.end)
  {
    hide NextRecord;
    NextShape(data, offset, records);
    var more := records + [record];
    forall i | 0 <= i < |more|
      ensures more[i].start == EndBefore(more, i)
      ensures FoundAt(data, more, i)
    {
      assert i < |records| ==> FoundAt(data, records, i);
      assert more[..i] == if i < |records| then records[..i] else records;
      assert more[i] == if i < |records| then records[i] else record;
      assert EndBefore(more, i) == EndBefore(records, i);
    }
  }

  lemma {:induction false} ParsedFrom(data: seq<byte>, offset: nat, records: seq<Record>) returns (end: nat)
    requires offset <= |data| && Parsed(data, records, offset)
    requires RecordsFrom(data, offset, records).Ok?
    ensures Parsed(data, RecordsFrom(data, offset, records).value, end)
    decreases |data| - offset
  {
    hide NextRecord, Parsed;
    end := offset;
    if offset < |data| && NextRecord(data, offset, records).Found? {
      var record := NextRecord(data, offset, records).record;
      ParsedSnoc(data, records, offset, record);
      end := ParsedFrom(data, record.end, records + [record]);
    }
  }

  ghost predicate Tiled(records: seq<Record>) {
    && (forall i :: 0 <= i < |records| ==> records[i].start + 8 <= records[i].end)
    && (forall i {:trigger EndBefore(records, i)} :: 0 < i < |records| ==> records[i].start == EndBefore(records, i))
  }

  lemma ParsedTiled(data: seq<byte>, records: seq<Record>, end: nat)
    requires Parsed(data, records, end)
    ensures Tiled(records)
  {
    hide NextRecord;
    forall i | 0 <= i < |records| ensures records[i].start + 8 <= records[i].end {
      assert FoundAt(data, records, i);
    }
  }

  lemma {:induction false} Increasing(records: seq<Record>, i: nat, j: nat)
    requires Tiled(records) && i < j < |records|
    ensures records[i].end <= records[j].start
    decreases j
  {
    assert records[j].start == EndBefore(records, j);
    if i + 1 < j {
      Increasing(records, i, j - 1);
    }
  }

  // ---- compaction, as functions of the records and the keep flags ------------------

  function Length(r: Record): nat { if r.start <= r.end then r.end - r.start else 0 }

  /** Where record `n` starts once the records before it are compacted. */
  function Offset(records: seq<Record>, keep: seq<bool>, n: nat): nat
    requires n <= |records| == |keep|
  {
    if n == 0 then 0
    else Offset(records, keep, n - 1) + if keep[n - 1] then Length(records[n - 1]) else 0
  }

  /** How many kept records come before record `n`. */
  function Rank(keep: seq<bool>, n: nat): nat
    requires n <= |keep|
  {
    if n == 0 then 0 else Rank(keep, n - 1) + if keep[n - 1] then 1 else 0
  }

  /** Record `i`'s bytes with its CIE pointer, if it is an FDE, aimed at the moved CIE. */
  function Rewritten(data: seq<byte>, records: seq<Record>, keep: seq<bool>, i: nat): (bytes: seq<byte>)
    requires Compactable(data, records, keep) && i < |records|
    ensures |bytes| == Length(records[i])
  {
    var raw := data[records[i].start..records[i].end];
    if records[i].cie.None? then raw else
    var pointer := Offset(records, keep, i) + 4 - Offset(records, keep, records[i].cie.value);
    raw[..4] + Le32(if pointer >= 0 then pointer else 0) + raw[8..]
  }

  ghost predicate Compactable(data: seq<byte>, records: seq<Record>, keep: seq<bool>) {
    && |keep| == |records|
    && (forall i :: 0 <= i < |records| ==> records[i].start + 8 <= records[i].end <= |data|)
    && (forall i :: 0 <= i < |records| && records[i].cie.Some? ==> records[i].cie.value < i)
  }

  function Compact(data: seq<byte>, records: seq<Record>, keep: seq<bool>, n: nat): (out: seq<byte>)
    requires Compactable(data, records, keep) && n <= |records|
    ensures |out| == Offset(records, keep, n)
  {
    if n == 0 then [] else
    var before := Compact(data, records, keep, n - 1);
    if keep[n - 1] then before + Rewritten(data, records, keep, n - 1) else before
  }

  /** Record `i` after compaction. */
  function Moved(records: seq<Record>, keep: seq<bool>, i: nat): Record
    requires i < |records| == |keep| && (records[i].cie.Some? ==> records[i].cie.value < |keep|)
  {
    var r, start := records[i], Offset(records, keep, i);
    Record(start, start + Length(r),
           if r.cie.Some? then Some(Rank(keep, r.cie.value)) else None,
           if r.cie.Some? then Some(start + 8) else None,
           r.fdeEncoding)
  }

  /** The kept records among the first `n`, in order, after compaction. */
  function Kept(data: seq<byte>, records: seq<Record>, keep: seq<bool>, n: nat): (out: seq<Record>)
    requires Compactable(data, records, keep) && n <= |records|
    ensures |out| == Rank(keep, n)
  {
    if n == 0 then [] else
    var before := Kept(data, records, keep, n - 1);
    if keep[n - 1] then before + [Moved(records, keep, n - 1)] else before
  }

  ghost predicate Closed(records: seq<Record>, keep: seq<bool>) {
    |keep| == |records| &&
    forall i :: 0 <= i < |records| && keep[i] && records[i].cie.Some? ==>
      records[i].cie.value < |keep| && keep[records[i].cie.value]
  }

  lemma ParsedCompactable(data: seq<byte>, records: seq<Record>, end: nat, keep: seq<bool>)
    requires Parsed(data, records, end) && |keep| == |records|
    ensures Compactable(data, records, keep)
  {
    hide NextRecord;
    forall i | 0 <= i < |records|
      ensures records[i].start + 8 <= records[i].end <= |data|
      ensures records[i].cie.Some? ==> records[i].cie.value < i
    {
      assert FoundAt(data, records, i);
    }
  }

  lemma {:induction false} OffsetGap(records: seq<Record>, keep: seq<bool>, i: nat, j: nat)
    requires i <= j <= |records| == |keep|
    ensures Offset(records, keep, i) <= Offset(records, keep, j) && Rank(keep, i) <= Rank(keep, j)
    ensures i < j && keep[i] ==>
      Offset(records, keep, i) + Length(records[i]) <= Offset(records, keep, j) && Rank(keep, i) < Rank(keep, j)
    decreases j
  {
    if i < j {
      OffsetGap(records, keep, i, j - 1);
    }
  }

  /** Compaction never moves two records further apart. */
  lemma {:induction false} OffsetShrinks(records: seq<Record>, keep: seq<bool>, i: nat, j: nat)
    requires Tiled(records) && |keep| == |records| && i <= j < |records|
    ensures Offset(records, keep, j) - Offset(records, keep, i) <= records[j].start - records[i].start
    decreases j
  {
    if i < j {
      assert records[j].start == EndBefore(records, j);
      OffsetShrinks(records, keep, i, j - 1);
    }
  }

  /** Record `i`'s rewritten bytes sit at its new offset. */
  lemma {:induction false} CompactSlice(data: seq<byte>, records: seq<Record>, keep: seq<bool>, i: nat, n: nat)
    requires Compactable(data, records, keep) && i < n <= |records| && keep[i]
    ensures Offset(records, keep, i) + Length(records[i]) <= Offset(records, keep, n)
    ensures Compact(data, records, keep, n)[Offset(records, keep, i)..Offset(records, keep, i) + Length(records[i])]
         == Rewritten(data, records, keep, i)
    decreases n
  {
    hide Rewritten;
    OffsetGap(records, keep, i, n);
    if i < n - 1 {
      OffsetGap(records, keep, i, n - 1);
      CompactSlice(data, records, keep, i, n - 1);
    }
  }

  lemma {:induction false} KeptAt(data: seq<byte>, records: seq<Record>, keep: seq<bool>, i: nat, n: nat)
    requires Compactable(data, records, keep) && i < n <= |records| && keep[i]
    ensures Rank(keep, i) < Rank(keep, n)
    ensures Kept(data, records, keep, n)[Rank(keep, i)] == Moved(records, keep, i)
    decreases n
  {
    OffsetGap(records, keep, i, n);
    if i < n - 1 {
      OffsetGap(records, keep, i, n - 1);
      KeptAt(data, records, keep, i, n - 1);
    }
  }

  /** Kept records before `n` all start before record `n`'s new offset. */
  lemma {:induction false} KeptBelow(data: seq<byte>, records: seq<Record>, keep: seq<bool>, n: nat)
    requires Compactable(data, records, keep) && n <= |records|
    ensures forall k :: 0 <= k < Rank(keep, n) ==> Kept(data, records, keep, n)[k].start < Offset(records, keep, n)
    ensures forall k, m :: 0 <= k < m < Rank(keep, n) ==>
      Kept(data, records, keep, n)[k].start < Kept(data, records, keep, n)[m].start
  {
    if n > 0 {
      KeptBelow(data, records, keep, n - 1);
    }
  }

  lemma {:induction false} FindCieAt(records: seq<Record>, k: nat)
    requires k < |records| && records[k].cie.None?
    requires forall i, j :: 0 <= i < j < |records| ==> records[i].start < records[j].start
    ensures FindCie(records, records[k].start) == Some(k)
  {
    if k < |records| - 1 {
      FindCieAt(records[..|records| - 1], k);
    }
  }

  /** The moved CIE of a kept FDE is the one its new pointer finds. */
  lemma FindMovedCie(data: seq<byte>, records: seq<Record>, keep: seq<bool>, c: nat, n: nat)
    requires Compactable(data, records, keep) && c < n <= |records| && keep[c] && records[c].cie.None?
    ensures FindCie(Kept(data, records, keep, n), Offset(records, keep, c)) == Some(Rank(keep, c))
  {
    KeptAt(data, records, keep, c, n);
    KeptBelow(data, records, keep, n);
    FindCieAt(Kept(data, records, keep, n), Rank(keep, c));
  }

  // ---- the compacted section parses to the kept records -------------------------------

  lemma SubSlice(a: seq<byte>, o: nat, len: nat, i: nat, j: nat)
    requires o + len <= |a| && i <= j <= len
    ensures a[o..o + len][i..j] == a[o + i..o + j]
  {
    var x, y := a[o..o + len][i..j], a[o + i..o + j];
    assert |x| == |y|;
    assert forall k :: 0 <= k < |x| ==> x[k] == y[k];
  }

  /** The same `n` bytes stand in `a` at `i` and in `b` at `j`. */
  ghost predicate SameBytes(a: seq<byte>, i: nat, b: seq<byte>, j: nat, n: nat) {
    i + n <= |a| && j + n <= |b| && a[i..i + n] == b[j..j + n]
  }

  lemma SameThrough(a: seq<byte>, i: nat, b: seq<byte>, n: nat, at: nat, c: seq<byte>, j: nat, m: nat)
    requires SameBytes(a, i, b, 0, n) && SameBytes(b, at, c, j, m) && at + m <= n
    ensures SameBytes(a, i + at, c, j, m)
  {
    SubSlice(a, i, n, at, at + m);
    SubSlice(b, 0, n, at, at + m);
  }

  lemma SameWord(a: seq<byte>, at: nat, b: seq<byte>, bt: nat)
    requires SameBytes(a, at, b, bt, 4)
    ensures at + 4 <= |a| && bt + 4 <= |b| && Ru32(a, at) == Ru32(b, bt)
  {
    var x, y := a[at..at + 4], b[bt..bt + 4];
    assert x[0] == y[0] && x[1] == y[1] && x[2] == y[2] && x[3] == y[3];
  }

  lemma SameLe32(a: seq<byte>, at: nat, x: nat)
    requires SameBytes(a, at, Le32(x), 0, 4) && x < 0x1_0000_0000
    ensures at + 4 <= |a| && Ru32(a, at) == x
  {
    hide Le32;
    assert Le32(x)[0..4] == Le32(x);
    Le32RoundTrip(x, a, at);
  }

  lemma NextFound(data: seq<byte>, start: nat, records: seq<Record>, r: Record)
    requires start < |data| && NextRecord(data, start, records) == Found(r)
    ensures r.start == start && start + 8 <= r.end <= |data|
    ensures var length := Ru32(data, start);
      && r.end == start + 4 + length && length != 0xffff_ffff
      && Decode(start, length, Ru32(data, start + 4), data[start + 8..r.end], records) == Found(r)
  {
    hide CieFdeEncoding, FindCie, Ru32, AllZero;
  }

  lemma RecordFound(data: seq<byte>, records: seq<Record>, end: nat, i: nat)
    requires Parsed(data, records, end) && i < |records|
    ensures records[i].start < |data| && NextRecord(data, records[i].start, records[..i]) == Found(records[i])
  {
    hide NextRecord;
    assert FoundAt(data, records, i);
  }

  /** What the parser saw where it found record `i`. */
  lemma ParsedAt(data: seq<byte>, records: seq<Record>, end: nat, i: nat)
    requires Parsed(data, records, end) && i < |records|
    ensures var r := records[i];
      && r.start + 8 <= r.end <= |data|
      && r.end == r.start + 4 + Ru32(data, r.start) && Ru32(data, r.start) != 0xffff_ffff
      && Decode(r.start, Ru32(data, r.start), Ru32(data, r.start + 4), data[r.start + 8..r.end], records[..i]) ==
        Found(r)
  {
    hide *;
    RecordFound(data, records, end, i);
    NextFound(data, records[i].start, records[..i], records[i]);
  }

  /** What rewriting leaves alone. */
  lemma RewrittenParts(data: seq<byte>, records: seq<Record>, keep: seq<bool>, i: nat)
    requires Compactable(data, records, keep) && i < |records|
    ensures var slice, r := Rewritten(data, records, keep, i), records[i];
      && 8 <= Length(r) && r.start + 8 <= r.end <= |data|
      && SameBytes(slice, 0, data, r.start, 4)
      && SameBytes(slice, 8, data, r.start + 8, Length(r) - 8)
      && (r.cie.None? ==> SameBytes(slice, 4, data, r.start + 4, 4))
  {
    hide Offset, Le32;
    var slice, r := Rewritten(data, records, keep, i), records[i];
    SubSlice(data, r.start, Length(r), 0, 4);
    SubSlice(data, r.start, Length(r), 4, 8);
    SubSlice(data, r.start, Length(r), 8, Length(r));
    var raw := data[r.start..r.end];
    assert slice[0..4] == raw[0..4] && slice[8..|slice|] == raw[8..|raw|] && (r.cie.None? ==> slice[4..8] == raw[4..8]);
  }

  lemma RewrittenAt(data: seq<byte>, records: seq<Record>, keep: seq<bool>, out: seq<byte>, i: nat)
    requires Compactable(data, records, keep) && i < |records| && |keep| == |records| && keep[i]
    requires out == Compact(data, records, keep, |records|)
    ensures SameBytes(out, Offset(records, keep, i), Rewritten(data, records, keep, i), 0, Length(records[i]))
    ensures Offset(records, keep, i) + Length(records[i]) <= |out|
  {
    CompactSlice(data, records, keep, i, |records|);
    hide Compact, Rewritten, Offset;
    var slice := Rewritten(data, records, keep, i);
    assert slice[0..|slice|] == slice;
  }

  /** The record header, and for a CIE the whole record, is copied unchanged. */
  lemma CopiedBytes(data: seq<byte>, records: seq<Record>, keep: seq<bool>, out: seq<byte>, i: nat)
    requires Compactable(data, records, keep) && i < |records| && |keep| == |records| && keep[i]
    requires out == Compact(data, records, keep, |records|)
    ensures var o, r := Offset(records, keep, i), records[i];
      && 8 <= Length(r) && o + Length(r) <= |out|
      && SameBytes(out, o, data, r.start, 4)
      && SameBytes(out, o + 8, data, r.start + 8, Length(r) - 8)
      && (r.cie.None? ==> SameBytes(out, o + 4, data, r.start + 4, 4))
  {
    hide *;
    RewrittenAt(data, records, keep, out, i);
    RewrittenParts(data, records, keep, i);
    var o, len, start := Offset(records, keep, i), Length(records[i]), records[i].start;
    var slice := Rewritten(data, records, keep, i);
    SameThrough(out, o, slice, len, 0, data, start, 4);
    SameThrough(out, o, slice, len, 8, data, start + 8, len - 8);
    if records[i].cie.None? {
      SameThrough(out, o, slice, len, 4, data, start + 4, 4);
    }
  }

  lemma SameCounts(data: seq<byte>, records: seq<Record>, keep: seq<bool>)
    requires Compactable(data, records, keep)
    ensures |keep| == |records|
    ensures forall i :: 0 <= i < |records| && records[i].cie.Some? ==> records[i].cie.value < i
  {
  }

  lemma PointerWord(data: seq<byte>, records: seq<Record>, keep: seq<bool>, i: nat)
    requires Compactable(data, records, keep) && i < |records| && records[i].cie.Some?
    ensures var o, c := Offset(records, keep, i), Offset(records, keep, records[i].cie.value);
      o + 4 >= c && 8 <= Length(records[i]) && SameBytes(Rewritten(data, records, keep, i), 4, Le32(o + 4 - c), 0, 4)
  {
    OffsetGap(records, keep, records[i].cie.value, i);
    hide Offset, Le32;
    var word := Le32(Offset(records, keep, i) + 4 - Offset(records, keep, records[i].cie.value));
    assert word[0..4] == word;
  }

  lemma PointerBytes(data: seq<byte>, records: seq<Record>, keep: seq<bool>, out: seq<byte>, i: nat)
    requires Compactable(data, records, keep) && i < |records| && |keep| == |records| && keep[i]
    requires records[i].cie.Some? && records[i].cie.value < i
    requires out == Compact(data, records, keep, |records|)
    ensures var o, c := Offset(records, keep, i), Offset(records, keep, records[i].cie.value);
      o + 4 >= c && SameBytes(out, o + 4, Le32(o + 4 - c), 0, 4)
  {
    hide *;
    RewrittenAt(data, records, keep, out, i);
    PointerWord(data, records, keep, i);
    var o, c := Offset(records, keep, i), Offset(records, keep, records[i].cie.value);
    SameThrough(out, o, Rewritten(data, records, keep, i), Length(records[i]), 4, Le32(o + 4 - c), 0, 4);
  }

  /** Old pointers were 32-bit, and compaction only shortens them. */
  lemma PointerFits(data: seq<byte>, records: seq<Record>, end: nat, keep: seq<bool>, i: nat)
    requires Parsed(data, records, end) && Compactable(data, records, keep)
    requires i < |records| && records[i].cie.Some?
    ensures var c := records[i].cie.value;
      && records[c].cie.None? && records[c].fdeEncoding == Some(PCREL_SDATA4)
      && Offset(records, keep, i) + 4 - Offset(records, keep, c) < 0x1_0000_0000
  {
    ParsedAt(data, records, end, i);
    ParsedTiled(data, records, end);
    var c, start := records[i].cie.value, records[i].start;
    assert records[..i][c] == records[c];
    assert start + 4 - Ru32(data, start + 4) == records[c].start;
    OffsetShrinks(records, keep, c, i);
  }

  lemma NextByParts(data: seq<byte>, offset: nat, records: seq<Record>, length: nat, pointer: nat, body: seq<byte>)
    requires 4 <= length != 0xffff_ffff && offset + 4 + length <= |data|
    requires Ru32(data, offset) == length && Ru32(data, offset + 4) == pointer
    requires data[offset + 8..offset + 4 + length] == body
    ensures NextRecord(data, offset, records) == Decode(offset, length, pointer, body, records)
  {
    hide Decode;
  }

  /** The same header words and body decode alike wherever they stand. */
  lemma NextMoved(out: seq<byte>, o: nat, kept: seq<Record>, length: nat, pointer: nat, data: seq<byte>, start: nat)
    requires 4 <= length != 0xffff_ffff && o + 4 + length <= |out| && start + 4 + length <= |data|
    requires Ru32(out, o) == length && Ru32(out, o + 4) == pointer
    requires SameBytes(out, o + 8, data, start + 8, length - 4)
    ensures NextRecord(out, o, kept) == Decode(o, length, pointer, data[start + 8..start + 4 + length], kept)
  {
    hide NextRecord, Decode, Ru32;
    NextByParts(out, o, kept, length, pointer, data[start + 8..start + 4 + length]);
  }

  /** A CIE means the same wherever it stands. */
  lemma DecodeCie(r: Record, length: nat, pointer: nat, body: seq<byte>, records: seq<Record>, o: nat,
                  kept: seq<Record>)
    requires Decode(r.start, length, pointer, body, records) == Found(r) && r.cie.None?
    ensures pointer == 0
    ensures Decode(o, length, pointer, body, kept) == Found(Record(o, o + 4 + length, None, None, r.fdeEncoding))
  {
  }

  lemma MovedCieIs(records: seq<Record>, keep: seq<bool>, i: nat, length: nat)
    requires |keep| == |records| && i < |records| && records[i].cie.None?
    requires records[i].end == records[i].start + 4 + length
    ensures var o := Offset(records, keep, i);
      Moved(records, keep, i) == Record(o, o + 4 + length, None, None, records[i].fdeEncoding)
    ensures Length(records[i]) == 4 + length
  {
    hide Offset;
  }

  lemma MovedCie(data: seq<byte>, records: seq<Record>, end: nat, keep: seq<bool>, out: seq<byte>, i: nat)
    requires Parsed(data, records, end) && Closed(records, keep) && Compactable(data, records, keep)
    requires i < |records| && keep[i] && records[i].cie.None?
    requires out == Compact(data, records, keep, |records|)
    ensures Offset(records, keep, i) < |out|
    ensures NextRecord(out, Offset(records, keep, i), Kept(data, records, keep, i)) == Found(Moved(records, keep, i))
  {
    hide *;
    SameCounts(data, records, keep);
    var r, o := records[i], Offset(records, keep, i);
    ParsedAt(data, records, end, i);
    CopiedBytes(data, records, keep, out, i);
    var length, pointer := Ru32(data, r.start), Ru32(data, r.start + 4);
    var kept := Kept(data, records, keep, i);
    MovedCieIs(records, keep, i, length);
    SameWord(out, o, data, r.start);
    SameWord(out, o + 4, data, r.start + 4);
    DecodeCie(r, length, pointer, data[r.start + 8..r.end], records[..i], o, kept);
    NextMoved(out, o, kept, length, pointer, data, r.start);
  }

  lemma DecodeFde(o: nat, length: nat, pointer: nat, body: seq<byte>, kept: seq<Record>, k: nat)
    requires 0 < pointer <= o + 4 && 8 <= length
    requires FindCie(kept, o + 4 - pointer) == Some(k) && kept[k].fdeEncoding == Some(PCREL_SDATA4)
    ensures Decode(o, length, pointer, body, kept) == Found(Record(o, o + 4 + length, Some(k), Some(o + 8), None))
  {
  }

  lemma FdeShape(r: Record, length: nat, pointer: nat, body: seq<byte>, records: seq<Record>)
    requires Decode(r.start, length, pointer, body, records) == Found(r) && r.cie.Some?
    ensures 8 <= length && r.end == r.start + 4 + length && r.fdeEncoding == None
  {
    hide FindCie, CieFdeEncoding;
  }

  /** The moved CIE, as the decoder will look for it. */
  lemma MovedPointer(data: seq<byte>, records: seq<Record>, end: nat, keep: seq<bool>, i: nat)
    requires Parsed(data, records, end) && Closed(records, keep) && Compactable(data, records, keep)
    requires i < |records| && keep[i] && records[i].cie.Some? && |keep| == |records| && records[i].cie.value < i
    ensures var c, o, kept := records[i].cie.value, Offset(records, keep, i), Kept(data, records, keep, i);
      && 0 < o + 4 - Offset(records, keep, c) <= o + 4 && o + 4 - Offset(records, keep, c) < 0x1_0000_0000
      && Rank(keep, c) < |kept|
      && FindCie(kept, Offset(records, keep, c)) == Some(Rank(keep, c))
      && kept[Rank(keep, c)].fdeEncoding == Some(PCREL_SDATA4)
  {
    var c := records[i].cie.value;
    assert keep[c];
    hide Offset, Rank, Kept, FindCie, Closed;
    PointerFits(data, records, end, keep, i);
    OffsetGap(records, keep, c, i);
    FindMovedCie(data, records, keep, c, i);
    KeptAt(data, records, keep, c, i);
  }

  lemma MovedIs(records: seq<Record>, keep: seq<bool>, i: nat, length: nat)
    requires |keep| == |records| && i < |records| && records[i].cie.Some? && records[i].cie.value < |keep|
    requires records[i].end == records[i].start + 4 + length && records[i].fdeEncoding == None
    ensures var o := Offset(records, keep, i);
      Moved(records, keep, i) == Record(o, o + 4 + length, Some(Rank(keep, records[i].cie.value)), Some(o + 8), None)
    ensures Length(records[i]) == 4 + length
  {
    hide Offset, Rank;
  }

  lemma MovedFde(data: seq<byte>, records: seq<Record>, end: nat, keep: seq<bool>, out: seq<byte>, i: nat)
    requires Parsed(data, records, end) && Closed(records, keep) && Compactable(data, records, keep)
    requires i < |records| && keep[i] && records[i].cie.Some?
    requires out == Compact(data, records, keep, |records|)
    ensures Offset(records, keep, i) < |out|
    ensures NextRecord(out, Offset(records, keep, i), Kept(data, records, keep, i)) == Found(Moved(records, keep, i))
  {
    hide *;
    SameCounts(data, records, keep);
    var r, o, c := records[i], Offset(records, keep, i), records[i].cie.value;
    ParsedAt(data, records, end, i);
    var length, body := Ru32(data, r.start), data[r.start + 8..r.end];
    FdeShape(r, length, Ru32(data, r.start + 4), body, records[..i]);
    MovedPointer(data, records, end, keep, i);
    MovedIs(records, keep, i, length);
    CopiedBytes(data, records, keep, out, i);
    PointerBytes(data, records, keep, out, i);
    var pointer, kept := o + 4 - Offset(records, keep, c), Kept(data, records, keep, i);
    SameWord(out, o, data, r.start);
    SameLe32(out, o + 4, pointer);
    DecodeFde(o, length, pointer, body, kept, Rank(keep, c));
    NextMoved(out, o, kept, length, pointer, data, r.start);
  }

  lemma RecordsStep(data: seq<byte>, offset: nat, records: seq<Record>, record: Record)
    requires offset < |data| && NextRecord(data, offset, records) == Found(record)
    ensures record.end <= |data|
    ensures RecordsFrom(data, offset, records) == RecordsFrom(data, record.end, records + [record])
  {
    hide Decode;
  }

  lemma RecordsEnd(data: seq<byte>, records: seq<Record>)
    ensures RecordsFrom(data, |data|, records) == Ok(records)
  {
  }

  lemma KeptStep(data: seq<byte>, records: seq<Record>, keep: seq<bool>, i: nat)
    requires Compactable(data, records, keep) && i < |records|
    ensures records[i].cie.Some? ==> records[i].cie.value < |keep|
    ensures var o := Offset(records, keep, i);
      && Offset(records, keep, i + 1) == (if keep[i] then Moved(records, keep, i).end else o)
      && Kept(data, records, keep, i + 1) ==
           if keep[i] then Kept(data, records, keep, i) + [Moved(records, keep, i)] else Kept(data, records, keep, i)
  {
  }

  lemma {:induction false} ReparseFrom(data: seq<byte>, records: seq<Record>, end: nat, keep: seq<bool>,
                                       out: seq<byte>, i: nat)
    requires Parsed(data, records, end) && Closed(records, keep) && Compactable(data, records, keep)
    requires i <= |records| == |keep| && out == Compact(data, records, keep, |records|)
    ensures Offset(records, keep, i) <= |out|
    ensures RecordsFrom(out, Offset(records, keep, i), Kept(data, records, keep, i))
         == Ok(Kept(data, records, keep, |records|))
    decreases |records| - i
  {
    hide *;
    OffsetGap(records, keep, i, |records|);
    if i == |records| {
      RecordsEnd(out, Kept(data, records, keep, i));
    } else {
      ReparseFrom(data, records, end, keep, out, i + 1);
      KeptStep(data, records, keep, i);
      if keep[i] {
        MovedRecord(data, records, end, keep, out, i);
        RecordsStep(out, Offset(records, keep, i), Kept(data, records, keep, i), Moved(records, keep, i));
      }
    }
  }

  lemma MovedRecord(data: seq<byte>, records: seq<Record>, end: nat, keep: seq<bool>, out: seq<byte>, i: nat)
    requires Parsed(data, records, end) && Closed(records, keep) && Compactable(data, records, keep)
    requires i < |records| && keep[i] && out == Compact(data, records, keep, |records|)
    ensures Offset(records, keep, i) < |out|
    ensures NextRecord(out, Offset(records, keep, i), Kept(data, records, keep, i)) == Found(Moved(records, keep, i))
  {
    hide Parsed, Closed, Compact, Kept, Moved, NextRecord, Offset;
    if records[i].cie.None? {
      MovedCie(data, records, end, keep, out, i);
    } else {
      MovedFde(data, records, end, keep, out, i);
    }
  }

  // ---- relocations -------------------------------------------------------------------

  function MoveRela(records: seq<Record>, keep: seq<bool>, rela: Rela): (out: Option<Rela>)
    requires |keep| == |records|
  {
    var k := RecordAt(records, rela.offset);
    if k.None? || !keep[k.value] then None
    else Some(rela.(offset := Offset(records, keep, k.value) + (rela.offset - records[k.value].start)))
  }

  /** The relocations of kept records, in order, each moved with its record. */
  function MoveRelas(records: seq<Record>, keep: seq<bool>, relas: seq<Rela>): seq<Rela>
    requires |keep| == |records|
  {
    if relas == [] then [] else
    var rest := MoveRelas(records, keep, relas[1..]);
    match MoveRela(records, keep, relas[0])
    case None => rest
    case Some(r) => [r] + rest
  }

  /** `at` lists, in order, the relocations that are moved, and `out` what they become. */
  ghost predicate Selects(records: seq<Record>, keep: seq<bool>, relas: seq<Rela>, at: seq<nat>, out: seq<Rela>)
    requires |keep| == |records|
  {
    && |at| == |out|
    && (forall j, k :: 0 <= j < k < |at| ==> at[j] < at[k])
    && (forall j :: 0 <= j < |at| ==> at[j] < |relas| && MoveRela(records, keep, relas[at[j]]) == Some(out[j]))
    && (forall i: nat :: i < |relas| && MoveRela(records, keep, relas[i]).Some? ==> i in at)
  }

  lemma SelectsNext(records: seq<Record>, keep: seq<bool>, relas: seq<Rela>, at: seq<nat>, out: seq<Rela>, q: Rela)
    requires |keep| == |records| && Selects(records, keep, relas, at, out)
    ensures match MoveRela(records, keep, q)
      case None => Selects(records, keep, relas + [q], at, out)
      case Some(r) => Selects(records, keep, relas + [q], at + [|relas|], out + [r])
  {
    hide MoveRela;
    var more := relas + [q];
    assert more[|relas|] == q && forall i :: 0 <= i < |relas| ==> more[i] == relas[i];
  }

  /** The moved relocations are those of kept records, each once and in order. */
  lemma {:induction false} MovedExactly(records: seq<Record>, keep: seq<bool>, relas: seq<Rela>) returns (at: seq<nat>)
    requires |keep| == |records|
    ensures Selects(records, keep, relas, at, MoveRelas(records, keep, relas))
  {
    at := [];
    if relas != [] {
      var n := |relas| - 1;
      hide Selects, MoveRela;
      at := MovedExactly(records, keep, relas[..n]);
      SelectsNext(records, keep, relas[..n], at, MoveRelas(records, keep, relas[..n]), relas[n]);
      MoveRelasSnoc(records, keep, relas[..n], relas[n]);
      assert relas == relas[..n] + [relas[n]];
      if MoveRela(records, keep, relas[n]).Some? {
        at := at + [n];
      }
    }
  }

  lemma {:induction false} MovedFrom(records: seq<Record>, keep: seq<bool>, relas: seq<Rela>, r: Rela) returns (q: Rela)
    requires |keep| == |records| && r in MoveRelas(records, keep, relas)
    ensures q in relas && MoveRela(records, keep, q) == Some(r)
  {
    hide MoveRela;
    if MoveRela(records, keep, relas[0]) == Some(r) {
      q := relas[0];
    } else {
      q := MovedFrom(records, keep, relas[1..], r);
    }
  }

  lemma {:induction false} MoveRelasSnoc(records: seq<Record>, keep: seq<bool>, relas: seq<Rela>, last: Rela)
    requires |keep| == |records|
    ensures MoveRelas(records, keep, relas + [last]) == MoveRelas(records, keep, relas)
      + match MoveRela(records, keep, last) case None => [] case Some(r) => [r]
  {
    hide MoveRela;
    if relas == [] {
      assert relas + [last] == [last];
    } else {
      assert (relas + [last])[1..] == relas[1..] + [last];
      MoveRelasSnoc(records, keep, relas[1..], last);
    }
  }

  lemma UniqueRecord(records: seq<Record>, i: nat, j: nat, offset: nat)
    requires Tiled(records) && i < |records| && j < |records|
    requires records[i].start <= offset < records[i].end && records[j].start <= offset < records[j].end
    ensures i == j
  {
    if i < j {
      Increasing(records, i, j);
    } else if j < i {
      Increasing(records, j, i);
    }
  }

  lemma MovedRelaFits(data: seq<byte>, records: seq<Record>, keep: seq<bool>, q: Rela, r: Rela)
    requires Compactable(data, records, keep) && Tiled(Kept(data, records, keep, |records|))
    requires RelaFits(records, q) && MoveRela(records, keep, q) == Some(r)
    ensures RelaFits(Kept(data, records, keep, |records|), r)
  {
    var kept, i := Kept(data, records, keep, |records|), RecordAt(records, q.offset).value;
    KeptAt(data, records, keep, i, |records|);
    var k := RecordAt(kept, r.offset);
    assert kept[Rank(keep, i)].start <= r.offset < kept[Rank(keep, i)].end;
    UniqueRecord(kept, Rank(keep, i), k.value, r.offset);
  }

  // ---- results ------------------------------------------------------------------------

  function Pruned(section: Section, records: seq<Record>, keep: seq<bool>): Section
    requires Compactable(section.data, records, keep)
  {
    section.(data := Compact(section.data, records, keep, |records|),
             relas := MoveRelas(records, keep, section.relas))
  }

  /** Round trip: the compacted section parses to exactly the kept records in order, each
      FDE naming the image of its CIE. */
  lemma PruneRoundTrip(section: Section, records: seq<Record>, keep: seq<bool>)
    requires Parse(section) == Ok(records) && Closed(records, keep)
    ensures Compactable(section.data, records, keep)
    ensures Parse(Pruned(section, records, keep)) == Ok(Kept(section.data, records, keep, |records|))
  {
    var end := ParsedFrom(section.data, 0, []);
    ParsedCompactable(section.data, records, end, keep);
    var out := Pruned(section, records, keep);
    ReparseFrom(section.data, records, end, keep, out.data, 0);
    var end' := ParsedFrom(out.data, 0, []);
    var kept := Kept(section.data, records, keep, |records|);
    ParsedTiled(out.data, kept, end');
    hide Parsed, NextRecord, RelaFits, Compact, Kept, Tiled;
    forall r | r in out.relas ensures RelaFits(kept, r) {
      var q := MovedFrom(records, keep, section.relas, r);
      MovedRelaFits(section.data, records, keep, q, r);
    }
  }

  // ---- the compactor ----------------------------------------------------------------------

  ghost predicate PointersFit(records: seq<Record>, keep: seq<bool>)
    requires |keep| == |records|
  {
    forall i :: 0 <= i < |records| && keep[i] && records[i].cie.Some? && records[i].cie.value < i ==>
      Offset(records, keep, i) + 4 - Offset(records, keep, records[i].cie.value) < 0x1_0000_0000
  }

  /** Record `i`'s bytes in the buffer: rewritten once the second pass has reached it. */
  ghost function Piece(data: seq<byte>, records: seq<Record>, keep: seq<bool>, i: nat, done: nat): (p: seq<byte>)
    requires Compactable(data, records, keep) && i < |records|
    ensures |p| == Length(records[i])
  {
    if i < done then Rewritten(data, records, keep, i) else data[records[i].start..records[i].end]
  }

  ghost predicate PieceAt(data: seq<byte>, records: seq<Record>, keep: seq<bool>, out: seq<byte>, i: nat, done: nat)
    requires Compactable(data, records, keep) && i < |records|
  {
    var o := Offset(records, keep, i);
    keep[i] ==> o + Length(records[i]) <= |out| &&
                out[o..o + Length(records[i])] == Piece(data, records, keep, i, done)
  }

  /** The buffer after `n` records are copied and the pointers of `done` are rewritten. */
  ghost predicate Buffer(data: seq<byte>, records: seq<Record>, keep: seq<bool>, out: seq<byte>, n: nat, done: nat)
    requires Compactable(data, records, keep) && n <= |records|
  {
    && |out| == Offset(records, keep, n)
    && forall i :: 0 <= i < n ==> PieceAt(data, records, keep, out, i, done)
  }

  lemma BufferPush(data: seq<byte>, records: seq<Record>, keep: seq<bool>, out: seq<byte>, n: nat, more: seq<byte>)
    requires Compactable(data, records, keep) && n < |records|
    requires Buffer(data, records, keep, out, n, 0)
    requires more == out + if keep[n] then data[records[n].start..records[n].end] else []
    ensures Buffer(data, records, keep, more, n + 1, 0)
  {
    var next := n + 1;
    assert Offset(records, keep, next) == Offset(records, keep, n) + if keep[n] then Length(records[n]) else 0;
    PieceAtEnd(data, records, keep, out, n, more);
    hide Offset, Compactable, PieceAt;
    forall i | 0 <= i < n ensures PieceAt(data, records, keep, more, i, 0) {
      PieceKept(data, records, keep, out, i, more);
    }
  }

  lemma PieceKept(data: seq<byte>, records: seq<Record>, keep: seq<bool>, out: seq<byte>, i: nat, more: seq<byte>)
    requires Compactable(data, records, keep) && i < |records| && PieceAt(data, records, keep, out, i, 0) && out <= more
    ensures PieceAt(data, records, keep, more, i, 0)
  {
    assert |keep| == |records|;
    hide Offset, Piece, Compactable, Length;
    var o := Offset(records, keep, i);
    if keep[i] {
      assert more[o..o + Length(records[i])] == out[o..o + Length(records[i])];
    }
  }

  lemma PieceAtEnd(data: seq<byte>, records: seq<Record>, keep: seq<bool>, out: seq<byte>, n: nat, more: seq<byte>)
    requires Compactable(data, records, keep) && n < |records| && |out| == Offset(records, keep, n)
    requires more == out + if keep[n] then data[records[n].start..records[n].end] else []
    ensures PieceAt(data, records, keep, more, n, 0)
  {
    hide Offset;
    if keep[n] {
      var piece := data[records[n].start..records[n].end];
      assert more[|out|..|out| + |piece|] == piece;
    }
  }

  function Overwrite(out: seq<byte>, at: nat, word: seq<byte>): (r: seq<byte>)
    requires at + |word| <= |out|
    ensures |r| == |out|
  {
    out[..at] + word + out[at + |word|..]
  }

  lemma OverwriteOutside(out: seq<byte>, at: nat, word: seq<byte>, a: nat, b: nat)
    requires at + |word| <= |out| && a <= b <= |out| && (b <= at || at + |word| <= a)
    ensures Overwrite(out, at, word)[a..b] == out[a..b]
  {
  }

  lemma OverwriteInside(out: seq<byte>, o: nat, len: nat, word: seq<byte>)
    requires |word| == 4 && 8 <= len && o + len <= |out|
    ensures Overwrite(out, o + 4, word)[o..o + len] == out[o..o + len][..4] + word + out[o..o + len][8..]
  {
  }

  /** Two kept records occupy separate ranges of the buffer. */
  lemma Separate(records: seq<Record>, keep: seq<bool>, i: nat, j: nat)
    requires |keep| == |records| && i < |records| && j < |records| && i != j && keep[i] && keep[j]
    ensures || Offset(records, keep, i) + Length(records[i]) <= Offset(records, keep, j)
            || Offset(records, keep, j) + Length(records[j]) <= Offset(records, keep, i)
  {
    if j < i {
      OffsetGap(records, keep, j, i);
    } else {
      OffsetGap(records, keep, i, j);
    }
  }

  lemma PieceOfOther(data: seq<byte>, records: seq<Record>, keep: seq<bool>, i: nat, j: nat)
    requires Compactable(data, records, keep) && i < |records| && j < |records| && i != j
    ensures Piece(data, records, keep, j, i + 1) == Piece(data, records, keep, j, i)
  {
    hide Rewritten;
  }

  lemma PieceElim(data: seq<byte>, records: seq<Record>, keep: seq<bool>, out: seq<byte>, i: nat, done: nat)
    requires Compactable(data, records, keep) && i < |records| && |keep| == |records|
    ensures PieceAt(data, records, keep, out, i, done) <==>
      (keep[i] ==> Offset(records, keep, i) + Length(records[i]) <= |out| &&
                   out[Offset(records, keep, i)..Offset(records, keep, i) + Length(records[i])] ==
                     Piece(data, records, keep, i, done))
  {
    hide Offset, Piece, Length;
  }

  lemma PatchOther(data: seq<byte>, records: seq<Record>, keep: seq<bool>, out: seq<byte>, i: nat, word: seq<byte>,
                   j: nat)
    requires Compactable(data, records, keep) && i < |records| && j < |records| && i != j && keep[i]
    requires |word| == 4 && Offset(records, keep, i) + Length(records[i]) <= |out|
    requires PieceAt(data, records, keep, out, j, i) && Length(records[i]) >= 8
    ensures PieceAt(data, records, keep, Overwrite(out, Offset(records, keep, i) + 4, word), j, i + 1)
  {
    hide *;
    SameCounts(data, records, keep);
    var at := Offset(records, keep, i) + 4;
    PieceElim(data, records, keep, out, j, i);
    PieceElim(data, records, keep, Overwrite(out, at, word), j, i + 1);
    if keep[j] {
      Separate(records, keep, i, j);
      PieceOfOther(data, records, keep, i, j);
      OverwriteOutside(out, at, word, Offset(records, keep, j), Offset(records, keep, j) + Length(records[j]));
    }
  }

  lemma PatchSelf(data: seq<byte>, records: seq<Record>, keep: seq<bool>, out: seq<byte>, i: nat, word: seq<byte>)
    requires Compactable(data, records, keep) && i < |records| && keep[i] && records[i].cie.Some?
    requires PieceAt(data, records, keep, out, i, i) && Length(records[i]) >= 8
    requires Offset(records, keep, i) + 4 >= Offset(records, keep, records[i].cie.value)
    requires word == Le32(Offset(records, keep, i) + 4 - Offset(records, keep, records[i].cie.value))
    ensures PieceAt(data, records, keep, Overwrite(out, Offset(records, keep, i) + 4, word), i, i + 1)
  {
    assert |keep| == |records|;
    hide Offset, Overwrite, Compactable, Le32;
    OverwriteInside(out, Offset(records, keep, i), Length(records[i]), word);
  }

  lemma PieceFits(data: seq<byte>, records: seq<Record>, keep: seq<bool>, out: seq<byte>, i: nat)
    requires Compactable(data, records, keep) && i < |records| && keep[i]
    requires Buffer(data, records, keep, out, |records|, i)
    ensures PieceAt(data, records, keep, out, i, i) && Length(records[i]) >= 8
    ensures Offset(records, keep, i) + Length(records[i]) <= |out|
  {
    hide Offset, Piece;
    assert PieceAt(data, records, keep, out, i, i);
  }

  lemma BufferPatch(data: seq<byte>, records: seq<Record>, keep: seq<bool>, out: seq<byte>, i: nat, word: seq<byte>)
    requires Compactable(data, records, keep) && i < |records| && keep[i] && records[i].cie.Some?
    requires Buffer(data, records, keep, out, |records|, i)
    requires Offset(records, keep, i) + 4 >= Offset(records, keep, records[i].cie.value)
    requires word == Le32(Offset(records, keep, i) + 4 - Offset(records, keep, records[i].cie.value))
    ensures Offset(records, keep, i) + 8 <= |out|
    ensures Buffer(data, records, keep, Overwrite(out, Offset(records, keep, i) + 4, word), |records|, i + 1)
  {
    PieceFits(data, records, keep, out, i);
    hide Overwrite, PieceAt, Offset, Compactable, Length, Le32;
    var patched, next := Overwrite(out, Offset(records, keep, i) + 4, word), i + 1;
    forall j | 0 <= j < |records| ensures PieceAt(data, records, keep, patched, j, next) {
      if i == j {
        PatchSelf(data, records, keep, out, i, word);
      } else {
        PatchOther(data, records, keep, out, i, word, j);
      }
    }
  }

  lemma SkipPiece(data: seq<byte>, records: seq<Record>, keep: seq<bool>, out: seq<byte>, i: nat, j: nat)
    requires Compactable(data, records, keep) && i < |records| && (!keep[i] || records[i].cie.None?) && j < |records|
    requires PieceAt(data, records, keep, out, j, i)
    ensures PieceAt(data, records, keep, out, j, i + 1)
  {
  }

  lemma BufferSkip(data: seq<byte>, records: seq<Record>, keep: seq<bool>, out: seq<byte>, i: nat)
    requires Compactable(data, records, keep) && i < |records| && (!keep[i] || records[i].cie.None?)
    requires Buffer(data, records, keep, out, |records|, i)
    ensures Buffer(data, records, keep, out, |records|, i + 1)
  {
    assert |keep| == |records|;
    hide Offset, Compactable, PieceAt;
    var next := i + 1;
    forall j | 0 <= j < |records| ensures PieceAt(data, records, keep, out, j, next) {
      SkipPiece(data, records, keep, out, i, j);
    }
  }

  lemma PieceInPrefix(data: seq<byte>, records: seq<Record>, keep: seq<bool>, out: seq<byte>, i: nat, n: nat)
    requires Compactable(data, records, keep) && i < n < |records| && Offset(records, keep, n) <= |out|
    requires PieceAt(data, records, keep, out, i, |records|)
    ensures PieceAt(data, records, keep, out[..Offset(records, keep, n)], i, |records|)
  {
    OffsetGap(records, keep, i, n);
    hide Offset, Piece, Length;
    var o, e := Offset(records, keep, i), Offset(records, keep, n);
    if keep[i] {
      assert out[..e][o..o + Length(records[i])] == out[o..o + Length(records[i])];
    }
  }

  /** Once every pointer is rewritten the buffer is the compacted section. */
  lemma {:induction false} BufferDone(data: seq<byte>, records: seq<Record>, keep: seq<bool>, out: seq<byte>, n: nat)
    requires Compactable(data, records, keep) && n <= |records|
    requires |out| == Offset(records, keep, n)
    requires forall i :: 0 <= i < n ==> PieceAt(data, records, keep, out, i, |records|)
    ensures out == Compact(data, records, keep, n)
    decreases n
  {
    if n > 0 {
      var o := Offset(records, keep, n - 1);
      assert PieceAt(data, records, keep, out, n - 1, |records|);
      OffsetGap(records, keep, n - 1, n);
      forall i | 0 <= i < n - 1 ensures PieceAt(data, records, keep, out[..o], i, |records|) {
        PieceInPrefix(data, records, keep, out, i, n - 1);
      }
      hide PieceAt, Compactable, Offset, Rewritten;
      BufferDone(data, records, keep, out[..o], n - 1);
      assert out == out[..o] + out[o..];
    }
  }

  /** `prune_eh_frame`: it fails exactly when a kept FDE lost its CIE, a pointer outgrows
      32 bits or a relocation lies outside every record. */
  method PruneEhFrame(section: Section, records: seq<Record>, keep: seq<bool>) returns (r: Result<Section>)
    requires Compactable(section.data, records, keep)
    ensures r.Ok? <==>
      && Closed(records, keep) && PointersFit(records, keep)
      && forall q :: q in section.relas ==> RecordAt(records, q.offset).Some?
    ensures r.Ok? ==> r.value == Pruned(section, records, keep)
  {
    var data, newOffsets := CopyKept(section.data, records, keep);
    var patched := PatchPointers(section.data, records, keep, data, newOffsets);
    if patched.Err? {
      return Err;
    }
    BufferDone(section.data, records, keep, patched.value, |records|);
    hide Buffer, Compactable, Closed, PointersFit;
    var relas := MoveAll(records, keep, newOffsets, section.relas);
    r := if relas.Err? then Err else Ok(section.(data := patched.value, relas := relas.value));
  }

  lemma NoRelas(records: seq<Record>, keep: seq<bool>)
    requires |keep| == |records|
    ensures MoveRelas(records, keep, []) == []
  {
  }

  method MoveAll(records: seq<Record>, keep: seq<bool>, newOffsets: seq<Option<nat>>, relas: seq<Rela>)
    returns (r: Result<seq<Rela>>)
    requires |keep| == |records| && NewOffsets(records, keep, newOffsets, |records|)
    ensures r.Ok? <==> forall q :: q in relas ==> RecordAt(records, q.offset).Some?
    ensures r.Ok? ==> r.value == MoveRelas(records, keep, relas)
  {
    hide Offset, MoveRelas;
    var out: seq<Rela> := [];
    NoRelas(records, keep);
    for i := 0 to |relas|
      invariant out == MoveRelas(records, keep, relas[..i])
      invariant forall j :: 0 <= j < i ==> RecordAt(records, relas[j].offset).Some?
    {
      var rela := relas[i];
      assert relas[..i + 1] == relas[..i] + [rela];
      MoveRelasSnoc(records, keep, relas[..i], rela);
      var k := RecordAt(records, rela.offset);
      if k.None? {
        return Err;
      }
      if newOffsets[k.value].Some? {
        out := out + [rela.(offset := newOffsets[k.value].value + (rela.offset - records[k.value].start))];
      }
    }
    assert relas[..|relas|] == relas;
    r := Ok(out);
  }

  ghost predicate NewOffsets(records: seq<Record>, keep: seq<bool>, newOffsets: seq<Option<nat>>, n: nat)
    requires n <= |records| == |keep|
  {
    && |newOffsets| == |records|
    && forall i :: 0 <= i < n ==> newOffsets[i] == if keep[i] then Some(Offset(records, keep, i)) else None
  }

  method CopyKept(data: seq<byte>, records: seq<Record>, keep: seq<bool>)
    returns (out: seq<byte>, newOffsets: seq<Option<nat>>)
    requires Compactable(data, records, keep)
    ensures NewOffsets(records, keep, newOffsets, |records|)
    ensures Buffer(data, records, keep, out, |records|, 0)
  {
    newOffsets := seq(|records|, _ => None);
    out := [];
    for n := 0 to |records|
      invariant NewOffsets(records, keep, newOffsets, n)
      invariant forall i :: n <= i < |records| ==> newOffsets[i].None?
      invariant Buffer(data, records, keep, out, n, 0)
    {
      ghost var more := out + if keep[n] then data[records[n].start..records[n].end] else [];
      BufferPush(data, records, keep, out, n, more);
      if keep[n] {
        newOffsets := newOffsets[n := Some(|out|)];
        out := out + data[records[n].start..records[n].end];
      }
      assert out == more;
    }
  }

  method PatchPointers(data: seq<byte>, records: seq<Record>, keep: seq<bool>, copied: seq<byte>,
                       newOffsets: seq<Option<nat>>) returns (r: Result<seq<byte>>)
    requires Compactable(data, records, keep) && NewOffsets(records, keep, newOffsets, |records|)
    requires Buffer(data, records, keep, copied, |records|, 0)
    ensures r.Ok? <==> Closed(records, keep) && PointersFit(records, keep)
    ensures r.Ok? ==> Buffer(data, records, keep, r.value, |records|, |records|)
  {
    var out := copied;
    for i := 0 to |records|
      invariant Buffer(data, records, keep, out, |records|, i)
      invariant forall j :: 0 <= j < i && keep[j] && records[j].cie.Some? ==>
        && keep[records[j].cie.value]
        && Offset(records, keep, j) + 4 - Offset(records, keep, records[j].cie.value) < 0x1_0000_0000
    {
      if records[i].cie.None? || newOffsets[i].None? {
        BufferSkip(data, records, keep, out, i);
        continue;
      }
      var newStart, cie := newOffsets[i].value, records[i].cie.value;
      if newOffsets[cie].None? {
        return Err;
      }
      OffsetGap(records, keep, cie, i);
      OffsetGap(records, keep, i, |records|);
      var pointer := newStart + 4 - newOffsets[cie].value;
      if pointer >= 0x1_0000_0000 {
        return Err;
      }
      BufferPatch(data, records, keep, out, i, Le32(pointer));
      out := Overwrite(out, newStart + 4, Le32(pointer));
    }
    r := Ok(out);
  }

  /** On a parsed section with a keep set closed under FDE-to-CIE the compactor succeeds. */
  lemma PruneSucceeds(section: Section, records: seq<Record>, keep: seq<bool>)
    requires Parse(section) == Ok(records) && Closed(records, keep)
    ensures Compactable(section.data, records, keep) && PointersFit(records, keep)
    ensures forall q :: q in section.relas ==> RecordAt(records, q.offset).Some?
  {
    var end := ParsedFrom(section.data, 0, []);
    ParsedCompactable(section.data, records, end, keep);
    forall i | 0 <= i < |records| && keep[i] && records[i].cie.Some? && records[i].cie.value < i
      ensures Offset(records, keep, i) + 4 - Offset(records, keep, records[i].cie.value) < 0x1_0000_0000
    {
      PointerFits(section.data, records, end, keep, i);
    }
    forall q | q in section.relas ensures RecordAt(records, q.offset).Some? {
      assert RelaFits(records, q);
    }
  }

  /** Each kept record's bytes are the old ones, but for an FDE's CIE pointer. */
  lemma PrunedBytes(section: Section, records: seq<Record>, keep: seq<bool>, i: nat)
    requires Parse(section) == Ok(records) && Closed(records, keep) && i < |records| && keep[i]
    ensures Compactable(section.data, records, keep)
    ensures var out, data := Pruned(section, records, keep).data, section.data;
      var r, o := records[i], Offset(records, keep, i);
      && 8 <= Length(r) && o + Length(r) <= |out|
      && SameBytes(out, o, data, r.start, 4)
      && SameBytes(out, o + 8, data, r.start + 8, Length(r) - 8)
      && (r.cie.None? ==> SameBytes(out, o + 4, data, r.start + 4, 4))
      && (r.cie.Some? ==> Ru32(out, o + 4) == o + 4 - Offset(records, keep, r.cie.value))
  {
    hide *;
    PrunedFacts(section, records, keep, i);
    var out := Pruned(section, records, keep).data;
    CopiedBytes(section.data, records, keep, out, i);
    if records[i].cie.Some? {
      var c := records[i].cie.value;
      PointerBytes(section.data, records, keep, out, i);
      SameLe32(out, Offset(records, keep, i) + 4, Offset(records, keep, i) + 4 - Offset(records, keep, c));
    }
  }

  lemma PrunedFacts(section: Section, records: seq<Record>, keep: seq<bool>, i: nat)
    requires Parse(section) == Ok(records) && Closed(records, keep) && i < |records| && keep[i]
    ensures Compactable(section.data, records, keep) && |keep| == |records|
    ensures Pruned(section, records, keep).data == Compact(section.data, records, keep, |records|)
    ensures records[i].cie.Some? ==>
      && records[i].cie.value < i
      && Offset(records, keep, i) + 4 - Offset(records, keep, records[i].cie.value) < 0x1_0000_0000
  {
    hide Parse, Offset, Compact;
    PruneSucceeds(section, records, keep);
  }

  /** In a parsed section an FDE's CIE is an earlier record that is a CIE. */
  lemma CieIsEarlier(section: Section, records: seq<Record>, i: nat)
    requires Parse(section) == Ok(records) && i < |records| && records[i].cie.Some?
    ensures records[i].cie.value < i && records[records[i].cie.value].cie.None?
    ensures records[i].initialLocation.Some?
  {
    var end := ParsedFrom(section.data, 0, []);
    assert FoundAt(section.data, records, i);
    var c := records[i].cie.value;
    assert records[..i][c] == records[c];
  }
}
