/** Static ELF link: merging input sections into output sections. */
module ElfLayout {
  import opened Wrappers
  import opened Arith
  import opened Bytes

  const SHF_WRITE: nat := 1
  const SHF_EXECINSTR: nat := 4
  const SHF_MERGE: nat := 0x10
  const BASE_VADDR: nat := 0x400000
  const PAGE: nat := 0x1000

  predicate Has(flags: nat, bit: nat)
    requires bit > 0
  {
    flags / bit % 2 == 1
  }

  /** An input section that joins the normal layout; `size` is what a NOBITS section occupies. */
  datatype Part = Part(name: string, flags: nat, entsize: nat, align: nat, nobits: bool, size: nat, data: seq<byte>)

  datatype Out = Out(name: string, flags: nat, entsize: nat, align: nat, nobits: bool, bssSize: nat, data: seq<byte>,
                     vaddr: nat, fileOff: nat)

  type Key = (string, nat, nat)

  function KeyOf(p: Part): Key { (p.name, p.flags, p.entsize) }

  function OutKey(o: Out): Key { (o.name, o.flags, o.entsize) }

  /** `next_multiple`. */
  function NextMultiple(v: nat, a: nat): (r: nat)
    ensures v <= r && OnMultiple(r, a) && r < v + AtLeastOne(a)
  {
    AlignUp(v, AtLeastOne(a))
  }

  function AtLeastOne(a: nat): (r: nat)
    ensures r > 0
  {
    if a > 1 then a else 1
  }

  predicate OnMultiple(x: nat, align: nat) { x % AtLeastOne(align) == 0 }

  // ---- merging ---------------------------------------------------------------------------------

  /** What makes a part unacceptable, given the parts before it. */
  ghost predicate Rejected(parts: seq<Part>, k: nat)
    requires k < |parts|
  {
    var p := parts[k];
    || (Has(p.flags, SHF_MERGE) && p.entsize == 0)
    || (p.name == ".eh_frame" && exists j :: 0 <= j < k && parts[j].name == ".eh_frame" && parts[j].flags != p.flags)
    || (exists j :: 0 <= j < k && KeyOf(parts[j]) == KeyOf(p) && parts[j].nobits != p.nobits)
  }

  ghost predicate Compatible(parts: seq<Part>) {
    forall k :: 0 <= k < |parts| ==> !Rejected(parts, k)
  }

  type Place = (nat, nat)   // output section and offset in it

  function Length(p: Part): nat { if p.nobits then p.size else |p.data| }

  function OutLength(o: Out): nat { if o.nobits then o.bssSize else |o.data| }

  /** The part's bytes are in its output section, at an offset aligned for it. */
  predicate Holds(o: Out, p: Part, at: nat) {
    && OutKey(o) == KeyOf(p) && o.nobits == p.nobits
    && OnMultiple(at, p.align) && o.align >= p.align
    && at + Length(p) <= OutLength(o)
    && (!p.nobits ==> o.data[at..at + |p.data|] == p.data)
  }

  ghost predicate Contained(parts: seq<Part>, outs: seq<Out>, place: seq<Place>) {
    && |place| == |parts|
    && forall i :: 0 <= i < |parts| ==> place[i].0 < |outs| && Holds(outs[place[i].0], parts[i], place[i].1)
  }

  predicate Covers(p: Part, at: nat, b: int) { !p.nobits && at <= b < at + |p.data| }

  /** A byte of output section `o` belongs to a part or is zero. */
  ghost predicate PaddedAt(parts: seq<Part>, outs: seq<Out>, place: seq<Place>, o: nat, b: nat)
    requires |place| == |parts| && o < |outs| && b < |outs[o].data|
  {
    outs[o].data[b] == 0 || exists i :: 0 <= i < |parts| && place[i].0 == o && Covers(parts[i], place[i].1, b)
  }

  ghost predicate Padded(parts: seq<Part>, outs: seq<Out>, place: seq<Place>)
    requires |place| == |parts|
  {
    forall o, b :: 0 <= o < |outs| && 0 <= b < |outs[o].data| ==> PaddedAt(parts, outs, place, o, b)
  }

  lemma AppendPadded(parts: seq<Part>, p: Part, outs: seq<Out>, place: seq<Place>, idx: nat)
    requires |place| == |parts| && Padded(parts, outs, place) && idx < |outs| && outs[idx].nobits == p.nobits
    ensures var (o, c) := Append(outs[idx], p); Padded(parts + [p], outs[idx := o], place + [(idx, c)])
  {
    hide NextMultiple;
    var (o, c) := Append(outs[idx], p);
    var after, more, places := outs[idx := o], parts + [p], place + [(idx, c)];
    assert more[|parts|] == p && places[|parts|] == (idx, c);
    forall k, b | 0 <= k < |after| && 0 <= b < |after[k].data| ensures PaddedAt(more, after, places, k, b) {
      if b < |outs[k].data| {
        assert after[k].data[b] == outs[k].data[b] && PaddedAt(parts, outs, place, k, b);
        if outs[k].data[b] != 0 {
          var i :| 0 <= i < |parts| && place[i].0 == k && Covers(parts[i], place[i].1, b);
          assert more[i] == parts[i] && places[i] == place[i];
        }
      } else if b >= c {
        assert Covers(more[|parts|], places[|parts|].1, b);
      }
    }
  }

  lemma OpenPadded(parts: seq<Part>, outs: seq<Out>, place: seq<Place>, o: Out)
    requires |place| == |parts| && Padded(parts, outs, place) && o.data == []
    ensures Padded(parts, outs + [o], place)
  {
    var more := outs + [o];
    forall k, b | 0 <= k < |more| && 0 <= b < |more[k].data| ensures PaddedAt(parts, more, place, k, b) {
      assert PaddedAt(parts, outs, place, k, b);
    }
  }

  /** Parts of one output section follow each other without overlap. */
  ghost predicate Apart(parts: seq<Part>, place: seq<Place>)
    requires |place| == |parts|
  {
    forall i, j :: 0 <= i < j < |parts| && place[i].0 == place[j].0 ==> place[i].1 + Length(parts[i]) <= place[j].1
  }

  /** Every output section belongs to a key of its own and was opened by some part. */
  ghost predicate Keyed(parts: seq<Part>, outs: seq<Out>, index: map<Key, nat>) {
    && (forall key :: key in index ==> index[key] < |outs| && OutKey(outs[index[key]]) == key)
    && (forall o :: 0 <= o < |outs| ==> OutKey(outs[o]) in index && index[OutKey(outs[o])] == o)
    && (forall o :: 0 <= o < |outs| ==> Opened(parts, outs[o]))
    && (forall i :: 0 <= i < |parts| ==> KeyOf(parts[i]) in index)
  }

  /** Adds a part at the end of an output section. */
  function Append(o: Out, p: Part): (r: (Out, nat))
    ensures r.1 == NextMultiple(OutLength(o), p.align)
  {
    var c := NextMultiple(OutLength(o), p.align);
    var wider := o.(align := Max(o.align, p.align));
    if p.nobits && o.nobits then (wider.(bssSize := c + p.size), c)
    else if o.nobits then (wider, c)
    else (wider.(data := o.data + seq(c - |o.data|, i => 0) + p.data), c)
  }

  lemma AppendHolds(o: Out, p: Part)
    requires OutKey(o) == KeyOf(p) && o.nobits == p.nobits
    ensures var (r, c) := Append(o, p);
      Holds(r, p, c) && OutLength(o) <= c && OutKey(r) == OutKey(o) && r.nobits == o.nobits
  {
    hide NextMultiple;
    var (r, c) := Append(o, p);
    if !p.nobits {
      assert r.data[c..c + |p.data|] == p.data;
    }
  }

  lemma AppendKeeps(o: Out, p: Part, q: Part, at: nat)
    requires OutKey(o) == KeyOf(p) && o.nobits == p.nobits && Holds(o, q, at)
    ensures Holds(Append(o, p).0, q, at)
  {
    hide NextMultiple;
    var r := Append(o, p).0;
    if !q.nobits {
      assert r.data[at..at + |q.data|] == o.data[at..at + |q.data|];
    }
  }

  /** Some part has this key and kind, and the alignment is 1 or that of such a part. */
  ghost predicate Opened(parts: seq<Part>, o: Out) {
    && (exists i :: 0 <= i < |parts| && KeyOf(parts[i]) == OutKey(o) && parts[i].nobits == o.nobits)
    && (o.align == 1 || exists i :: 0 <= i < |parts| && KeyOf(parts[i]) == OutKey(o) && parts[i].align == o.align)
  }

  lemma OpenedStays(parts: seq<Part>, p: Part, o: Out)
    requires Opened(parts, o)
    ensures Opened(parts + [p], o)
  {
    assert forall i :: 0 <= i < |parts| ==> (parts + [p])[i] == parts[i];
    var i :| 0 <= i < |parts| && KeyOf(parts[i]) == OutKey(o) && parts[i].nobits == o.nobits;
    assert (parts + [p])[i] == parts[i];
    if o.align != 1 {
      var k :| 0 <= k < |parts| && KeyOf(parts[k]) == OutKey(o) && parts[k].align == o.align;
      assert (parts + [p])[k] == parts[k];
    }
  }

  lemma OpenedWider(parts: seq<Part>, p: Part, o: Out)
    requires Opened(parts + [p], o) && OutKey(o) == KeyOf(p) && o.nobits == p.nobits
    ensures Opened(parts + [p], Append(o, p).0)
  {
    hide NextMultiple;
    assert (parts + [p])[|parts|] == p;
  }

  lemma KnownKey(parts: seq<Part>, p: Part, outs: seq<Out>, index: map<Key, nat>)
    requires Keyed(parts, outs, index) && KeyOf(p) in index
    ensures Keyed(parts + [p], outs, index)
  {
    hide Opened;
    forall o | 0 <= o < |outs| ensures Opened(parts + [p], outs[o]) {
      OpenedStays(parts, p, outs[o]);
    }
  }

  function Empty(p: Part): Out { Out(p.name, p.flags, p.entsize, 1, p.nobits, 0, [], 0, 0) }

  lemma NewKey(parts: seq<Part>, p: Part, outs: seq<Out>, index: map<Key, nat>)
    requires Keyed(parts, outs, index) && KeyOf(p) !in index
    ensures Keyed(parts + [p], outs + [Empty(p)], index[KeyOf(p) := |outs|])
  {
    var more := outs + [Empty(p)];
    assert Opened(parts + [p], Empty(p)) by { assert (parts + [p])[|parts|] == p; }
    hide Opened;
    forall o | 0 <= o < |more| ensures Opened(parts + [p], more[o]) {
      if o < |outs| {
        OpenedStays(parts, p, outs[o]);
      }
    }
  }

  lemma AppendKeyed(parts: seq<Part>, outs: seq<Out>, index: map<Key, nat>, idx: nat, o: Out)
    requires Keyed(parts, outs, index) && idx < |outs| && OutKey(o) == OutKey(outs[idx]) && Opened(parts, o)
    ensures Keyed(parts, outs[idx := o], index)
  {
    hide Opened;
    var after := outs[idx := o];
    forall k | 0 <= k < |after| ensures Opened(parts, after[k]) {
      assert Opened(parts, outs[k]);
    }
  }

  // ---- where exactly parts go ---------------------------------------------------------------------

  /** The length of output section `o` after the first `n` parts. */
  ghost function LengthIn(parts: seq<Part>, place: seq<Place>, n: nat, o: nat): nat
    requires n <= |parts| && n <= |place|
  {
    if n == 0 then 0
    else if place[n - 1].0 == o then place[n - 1].1 + Length(parts[n - 1])
    else LengthIn(parts, place, n - 1, o)
  }

  /** How many output sections the first `n` parts open. */
  ghost function OpenedIn(place: seq<Place>, n: nat): nat
    requires n <= |place|
  {
    if n == 0 then 0 else Max(OpenedIn(place, n - 1), place[n - 1].0 + 1)
  }

  /** A part goes to the next multiple of its alignment, in an open output section or in the next new one. */
  ghost predicate NextPlace(parts: seq<Part>, place: seq<Place>, i: nat)
    requires i < |parts| == |place|
  {
    && place[i].1 == NextMultiple(LengthIn(parts, place, i, place[i].0), parts[i].align)
    && place[i].0 <= OpenedIn(place, i)
  }

  /** Only contents or only a size, and no address yet. */
  predicate Unplaced(o: Out) {
    && o.vaddr == 0 && o.fileOff == 0 && o.align >= 1
    && if o.nobits then o.data == [] else o.bssSize == 0
  }

  ghost predicate Tight(parts: seq<Part>, outs: seq<Out>, place: seq<Place>) {
    && |place| == |parts| && |outs| == OpenedIn(place, |place|)
    && (forall i :: 0 <= i < |parts| ==> NextPlace(parts, place, i))
    && (forall o :: 0 <= o < |outs| ==> OutLength(outs[o]) == LengthIn(parts, place, |parts|, o) && Unplaced(outs[o]))
  }

  lemma {:induction false} LengthPrefix(parts: seq<Part>, place: seq<Place>, p: Part, x: Place, n: nat, o: nat)
    requires n <= |parts| == |place|
    ensures LengthIn(parts + [p], place + [x], n, o) == LengthIn(parts, place, n, o)
  {
    if n > 0 {
      LengthPrefix(parts, place, p, x, n - 1, o);
    }
  }

  lemma {:induction false} OpenedPrefix(place: seq<Place>, x: Place, n: nat)
    requires n <= |place|
    ensures OpenedIn(place + [x], n) == OpenedIn(place, n)
  {
    if n > 0 {
      OpenedPrefix(place, x, n - 1);
    }
  }

  /** Nothing has gone to an output section that is not open. */
  lemma {:induction false} ClosedIsEmpty(parts: seq<Part>, place: seq<Place>, n: nat, o: nat)
    requires n <= |parts| == |place| && OpenedIn(place, n) <= o
    ensures LengthIn(parts, place, n, o) == 0
  {
    if n > 0 {
      ClosedIsEmpty(parts, place, n - 1, o);
    }
  }

  lemma NextPlaceStays(parts: seq<Part>, place: seq<Place>, p: Part, x: Place, i: nat)
    requires i < |parts| == |place| && NextPlace(parts, place, i)
    ensures NextPlace(parts + [p], place + [x], i)
  {
    hide NextMultiple;
    LengthPrefix(parts, place, p, x, i, place[i].0);
    OpenedPrefix(place, x, i);
  }

  lemma AppendShape(o: Out, p: Part)
    requires o.nobits == p.nobits && Unplaced(o)
    ensures var (r, c) := Append(o, p); Unplaced(r) && OutLength(r) == c + Length(p)
  {
    hide NextMultiple;
  }

  /** Appending to an open output section, or to a new one, keeps the account. */
  lemma AppendTight(parts: seq<Part>, p: Part, outs: seq<Out>, ready: seq<Out>, place: seq<Place>, idx: nat)
    requires Tight(parts, outs, place) && idx < |ready| && ready[idx].nobits == p.nobits
    requires ready == outs || (ready == outs + [Empty(p)] && idx == |outs|)
    ensures var (o, c) := Append(ready[idx], p); Tight(parts + [p], ready[idx := o], place + [(idx, c)])
  {
    var (o, c) := Append(ready[idx], p);
    var more, places, after := parts + [p], place + [(idx, c)], ready[idx := o];
    var n := |parts|;
    ClosedIsEmpty(parts, place, n, |outs|);
    assert OutLength(ready[idx]) == LengthIn(parts, place, n, idx) && Unplaced(ready[idx]);
    AppendShape(ready[idx], p);
    hide Append, Unplaced, OutLength, NextMultiple;
    forall i | 0 <= i < n ensures NextPlace(more, places, i) {
      NextPlaceStays(parts, place, p, (idx, c), i);
    }
    LengthPrefix(parts, place, p, (idx, c), n, idx);
    OpenedPrefix(place, (idx, c), n);
    assert NextPlace(more, places, n);
    assert OpenedIn(places, n + 1) == Max(OpenedIn(place, n), idx + 1) == |after|;
    forall k | 0 <= k < |after|
      ensures OutLength(after[k]) == LengthIn(more, places, n + 1, k) && Unplaced(after[k])
    {
      LengthPrefix(parts, place, p, (idx, c), n, k);
    }
  }

  ghost predicate Merged(parts: seq<Part>, outs: seq<Out>, index: map<Key, nat>, place: seq<Place>) {
    && Contained(parts, outs, place) && Apart(parts, place) && Padded(parts, outs, place) && Keyed(parts, outs, index)
    && Tight(parts, outs, place)
  }

  lemma AppendContained(parts: seq<Part>, p: Part, outs: seq<Out>, place: seq<Place>, idx: nat)
    requires Contained(parts, outs, place)
    requires idx < |outs| && OutKey(outs[idx]) == KeyOf(p) && outs[idx].nobits == p.nobits
    ensures var (o, c) := Append(outs[idx], p);
      Contained(parts + [p], outs[idx := o], place + [(idx, c)])
  {
    AppendHolds(outs[idx], p);
    var (o, c) := Append(outs[idx], p);
    hide Append, Holds;
    var after, more, places := outs[idx := o], parts + [p], place + [(idx, c)];
    forall i | 0 <= i < |more| ensures places[i].0 < |after| && Holds(after[places[i].0], more[i], places[i].1) {
      if i < |parts| && place[i].0 == idx {
        AppendKeeps(outs[idx], p, parts[i], place[i].1);
      }
    }
  }

  lemma AppendApart(parts: seq<Part>, p: Part, outs: seq<Out>, place: seq<Place>, idx: nat, c: nat)
    requires Contained(parts, outs, place) && Apart(parts, place) && idx < |outs| && OutLength(outs[idx]) <= c
    ensures Apart(parts + [p], place + [(idx, c)])
  {
    forall i | 0 <= i < |parts| && place[i].0 == idx ensures place[i].1 + Length(parts[i]) <= c {
      assert Holds(outs[place[i].0], parts[i], place[i].1);
    }
  }

  lemma AppendMerged(parts: seq<Part>, p: Part, before: seq<Out>, outs: seq<Out>, index: map<Key, nat>,
                     place: seq<Place>, idx: nat)
    requires Tight(parts, before, place)
    requires outs == before || (outs == before + [Empty(p)] && idx == |before|)
    requires Contained(parts, outs, place) && Apart(parts, place) && Padded(parts, outs, place)
    requires Keyed(parts + [p], outs, index)
    requires idx < |outs| && OutKey(outs[idx]) == KeyOf(p) && outs[idx].nobits == p.nobits
    ensures var (o, c) := Append(outs[idx], p);
      Merged(parts + [p], outs[idx := o], index, place + [(idx, c)])
  {
    AppendHolds(outs[idx], p);
    var (o, c) := Append(outs[idx], p);
    assert Opened(parts + [p], outs[idx]);
    hide Append, Keyed, Contained, Apart, Holds, Opened, Padded, Tight;
    SameLength(parts, outs, place);
    AppendTight(parts, p, before, outs, place, idx);
    AppendPadded(parts, p, outs, place, idx);
    OpenedWider(parts, p, outs[idx]);
    AppendKeyed(parts + [p], outs, index, idx, o);
    AppendContained(parts, p, outs, place, idx);
    AppendApart(parts, p, outs, place, idx, c);
  }

  lemma SameLength(parts: seq<Part>, outs: seq<Out>, place: seq<Place>)
    requires Contained(parts, outs, place)
    ensures |place| == |parts|
  {
  }

  /** All frame sections accepted so far agree on their flags. */
  ghost predicate FramesAgree(parts: seq<Part>) {
    forall i, j :: 0 <= i < |parts| && 0 <= j < |parts| && parts[i].name == parts[j].name == ".eh_frame" ==>
      parts[i].flags == parts[j].flags
  }

  lemma CompatibleFrames(parts: seq<Part>)
    requires Compatible(parts)
    ensures FramesAgree(parts)
  {
    forall i, j | 0 <= i < |parts| && 0 <= j < |parts| && parts[i].name == parts[j].name == ".eh_frame"
      ensures parts[i].flags == parts[j].flags
    {
      assert !Rejected(parts, i) && !Rejected(parts, j);
    }
  }

  /** The first frame output section speaks for every frame part. */
  lemma FrameFlags(parts: seq<Part>, outs: seq<Out>, index: map<Key, nat>, o: nat)
    requires FramesAgree(parts) && Keyed(parts, outs, index) && o < |outs| && outs[o].name == ".eh_frame"
    ensures exists j :: 0 <= j < |parts| && parts[j].name == ".eh_frame" && parts[j].flags == outs[o].flags
    ensures forall j :: 0 <= j < |parts| && parts[j].name == ".eh_frame" ==> parts[j].flags == outs[o].flags
  {
    assert Opened(parts, outs[o]);
    var i :| 0 <= i < |parts| && KeyOf(parts[i]) == OutKey(outs[o]) && parts[i].nobits == outs[o].nobits;
    assert parts[i].name == ".eh_frame" && parts[i].flags == outs[o].flags;
  }

  lemma NoFrames(parts: seq<Part>, outs: seq<Out>, index: map<Key, nat>)
    requires Keyed(parts, outs, index) && forall o :: 0 <= o < |outs| ==> outs[o].name != ".eh_frame"
    ensures forall j :: 0 <= j < |parts| ==> parts[j].name != ".eh_frame"
  {
    forall j | 0 <= j < |parts| ensures parts[j].name != ".eh_frame" {
      assert OutKey(outs[index[KeyOf(parts[j])]]) == KeyOf(parts[j]);
    }
  }

  ghost predicate BadMetadata(parts: seq<Part>, p: Part) {
    || (Has(p.flags, SHF_MERGE) && p.entsize == 0)
    || (&& p.name == ".eh_frame"
        && exists j :: 0 <= j < |parts| && parts[j].name == ".eh_frame" && parts[j].flags != p.flags)
  }

  /** `validate_output_section_metadata`. */
  method Validate(outs: seq<Out>, p: Part, ghost parts: seq<Part>, ghost index: map<Key, nat>) returns (ok: bool)
    requires FramesAgree(parts) && Keyed(parts, outs, index)
    ensures !ok <==> BadMetadata(parts, p)
  {
    if Has(p.flags, SHF_MERGE) && p.entsize == 0 {
      return false;
    }
    if p.name != ".eh_frame" {
      return true;
    }
    hide Keyed, FramesAgree;
    for o := 0 to |outs|
      invariant forall q :: 0 <= q < o ==> outs[q].name != ".eh_frame"
    {
      if outs[o].name == p.name {
        FrameFlags(parts, outs, index, o);
        return outs[o].flags == p.flags;
      }
    }
    NoFrames(parts, outs, index);
    return true;
  }

  ghost predicate Clash(parts: seq<Part>, p: Part) {
    exists j :: 0 <= j < |parts| && KeyOf(parts[j]) == KeyOf(p) && parts[j].nobits != p.nobits
  }

  /** A clash between NOBITS and contents, seen from the part's output section. */
  lemma ClashExactly(parts: seq<Part>, p: Part, outs: seq<Out>, index: map<Key, nat>, place: seq<Place>)
    requires Contained(parts, outs, place) && Keyed(parts, outs, index) && KeyOf(p) in index
    ensures outs[index[KeyOf(p)]].nobits != p.nobits <==> Clash(parts, p)
  {
    var o := index[KeyOf(p)];
    assert Opened(parts, outs[o]);
    forall j | 0 <= j < |parts| && KeyOf(parts[j]) == KeyOf(p) ensures parts[j].nobits == outs[o].nobits {
      assert Holds(outs[place[j].0], parts[j], place[j].1);
      assert OutKey(outs[place[j].0]) in index;
    }
  }

  /** The next part is rejected for its metadata or for such a clash. */
  lemma RejectedExactly(parts: seq<Part>, k: nat)
    requires k < |parts|
    ensures Rejected(parts, k) <==> (BadMetadata(parts[..k], parts[k]) || Clash(parts[..k], parts[k]))
  {
    assert forall j :: 0 <= j < k ==> parts[..k][j] == parts[j];
  }

  /** No two output sections share a key, and each has a part and a part's alignment. */
  ghost predicate OnePerKey(parts: seq<Part>, outs: seq<Out>) {
    && (forall a, b :: 0 <= a < b < |outs| ==> OutKey(outs[a]) != OutKey(outs[b]))
    && (forall a :: 0 <= a < |outs| ==> Opened(parts, outs[a]))
  }

  lemma KeyedOnce(parts: seq<Part>, outs: seq<Out>, index: map<Key, nat>)
    requires Keyed(parts, outs, index)
    ensures OnePerKey(parts, outs)
  {
    hide Opened;
  }

  lemma MergedResult(parts: seq<Part>, outs: seq<Out>, index: map<Key, nat>, place: seq<Place>)
    requires Merged(parts, outs, index, place)
    ensures Contained(parts, outs, place) && Apart(parts, place) && Padded(parts, outs, place) && OnePerKey(parts, outs)
    ensures Tight(parts, outs, place)
  {
    hide Contained, Apart, Padded, Tight;
    KeyedOnce(parts, outs, index);
  }

  ghost predicate PowerOfTwo(a: nat) { exists n: nat :: Pow2(n) == a }

  lemma PowersDivide(a: nat, b: nat)
    requires PowerOfTwo(a) && PowerOfTwo(b) && a <= b
    ensures b % a == 0
  {
    var m: nat :| Pow2(m) == a;
    var n: nat :| Pow2(n) == b;
    if m <= n {
      Pow2Divides(m, n);
    } else {
      Pow2Divides(n, m);
    }
  }

  lemma OutAlignment(parts: seq<Part>, o: Out)
    requires Opened(parts, o) && forall k :: 0 <= k < |parts| ==> PowerOfTwo(AtLeastOne(parts[k].align))
    ensures PowerOfTwo(AtLeastOne(o.align))
  {
    assert Pow2(0) == 1;
    assert PowerOfTwo(1);
    hide PowerOfTwo;
    if o.align != 1 {
      var i :| 0 <= i < |parts| && KeyOf(parts[i]) == OutKey(o) && parts[i].align == o.align;
    }
  }

  lemma SumOnMultiple(vaddr: nat, at: nat, a: nat, b: nat)
    requires PowerOfTwo(AtLeastOne(a)) && PowerOfTwo(AtLeastOne(b)) && a <= b
    requires OnMultiple(vaddr, b) && OnMultiple(at, a)
    ensures OnMultiple(vaddr + at, a)
  {
    var x, y := AtLeastOne(a), AtLeastOne(b);
    hide PowerOfTwo;
    PowersDivide(x, y);
    DividesTransitive(x, y, vaddr);
    SumDivides(vaddr, at, x);
  }

  lemma HeldBy(parts: seq<Part>, outs: seq<Out>, place: seq<Place>, i: nat)
    requires Contained(parts, outs, place) && OnePerKey(parts, outs) && i < |parts|
    ensures i < |place| && place[i].0 < |outs| && Opened(parts, outs[place[i].0])
    ensures OnMultiple(place[i].1, parts[i].align) && outs[place[i].0].align >= parts[i].align
  {
    hide Opened, OnMultiple;
    assert Holds(outs[place[i].0], parts[i], place[i].1);
  }

  /** With power-of-two alignments a part lands on an address aligned for it. */
  lemma PartAddressAligned(parts: seq<Part>, outs: seq<Out>, place: seq<Place>, i: nat, vaddr: nat)
    requires Contained(parts, outs, place) && OnePerKey(parts, outs) && i < |parts|
    requires forall k :: 0 <= k < |parts| ==> PowerOfTwo(AtLeastOne(parts[k].align))
    requires OnMultiple(vaddr, outs[place[i].0].align)
    ensures OnMultiple(vaddr + place[i].1, parts[i].align)
  {
    hide *;
    HeldBy(parts, outs, place, i);
    var o := outs[place[i].0];
    OutAlignment(parts, o);
    SumOnMultiple(vaddr, place[i].1, parts[i].align, o.align);
  }

  /** The loop body. */
  method MergeOne(p: Part, outs: seq<Out>, index: map<Key, nat>, place: seq<Place>, ghost parts: seq<Part>)
    returns (ok: bool, outs': seq<Out>, index': map<Key, nat>, place': seq<Place>)
    requires Merged(parts, outs, index, place) && FramesAgree(parts)
    ensures !ok <==> (BadMetadata(parts, p) || Clash(parts, p))
    ensures ok ==> Merged(parts + [p], outs', index', place')
  {
    outs', index', place' := outs, index, place;
    hide FramesAgree, Keyed, Contained, Apart, Padded, Tight, BadMetadata, Clash, Append, Holds;
    ok := Validate(outs, p, parts, index);
    if !ok {
      return;
    }
    if KeyOf(p) in index {
      IndexedOut(parts, outs, index, KeyOf(p));
      ClashExactly(parts, p, outs, index, place);
      if outs[index[KeyOf(p)]].nobits != p.nobits {
        ok := false;
        return;
      }
      KnownKey(parts, p, outs, index);
    } else {
      NoClash(parts, p, outs, index);
      NewKey(parts, p, outs, index);
      OpenContained(parts, outs, place, Empty(p));
      SameLength(parts, outs, place);
      OpenPadded(parts, outs, place, Empty(p));
      outs', index' := outs + [Empty(p)], index[KeyOf(p) := |outs|];
    }
    var idx := index'[KeyOf(p)];
    IndexedOut(parts + [p], outs', index', KeyOf(p));
    if KeyOf(p) !in index {
      NewIndex(index, KeyOf(p), |outs|);
    }
    AppendMerged(parts, p, outs, outs', index', place, idx);
    var (o, c) := Append(outs'[idx], p);
    outs', place' := outs'[idx := o], place + [(idx, c)];
  }

  /** Everything the merge loop promises about its result. */
  ghost predicate MergeOf(parts: seq<Part>, outs: seq<Out>, place: seq<Place>) {
    && Contained(parts, outs, place) && Apart(parts, place) && Padded(parts, outs, place)
    && OnePerKey(parts, outs) && Tight(parts, outs, place)
  }

  lemma MergeOfAll(parts: seq<Part>, outs: seq<Out>, place: seq<Place>)
    requires Contained(parts, outs, place) && Apart(parts, place) && Padded(parts, outs, place)
    requires OnePerKey(parts, outs) && Tight(parts, outs, place)
    ensures MergeOf(parts, outs, place)
  {
  }

  /** The merge loop: it fails exactly on incompatible parts, and otherwise keeps every part's bytes. */
  method Merge(parts: seq<Part>) returns (r: Result<(seq<Out>, seq<Place>)>)
    ensures r.Ok? <==> Compatible(parts)
    ensures r.Ok? ==> MergeOf(parts, r.value.0, r.value.1)
  {
    var outs: seq<Out>, index: map<Key, nat>, place: seq<Place> := [], map[], [];
    MergedNothing();
    hide *;
    for k := 0 to |parts|
      invariant Merged(parts[..k], outs, index, place)
      invariant forall j :: 0 <= j < k ==> !Rejected(parts, j)
    {
      ghost var before := parts[..k];
      assert parts[..k + 1] == before + [parts[k]];
      PrefixCompatible(parts, k);
      CompatibleFrames(before);
      RejectedExactly(parts, k);
      var ok;
      ok, outs, index, place := MergeOne(parts[k], outs, index, place, before);
      if !ok {
        IncompatibleAt(parts, k);
        return Err;
      }
    }
    assert parts[..|parts|] == parts;
    PrefixCompatible(parts, |parts|);
    MergedResult(parts, outs, index, place);
    MergeOfAll(parts, outs, place);
    r := Ok((outs, place));
  }

  lemma NewIndex(index: map<Key, nat>, key: Key, o: nat)
    ensures index[key := o][key] == o
  {
  }

  lemma MergedNothing()
    ensures Merged([], [], map[], [])
  {
  }

  lemma PrefixCompatible(parts: seq<Part>, k: nat)
    requires k <= |parts| && forall j :: 0 <= j < k ==> !Rejected(parts, j)
    ensures Compatible(parts[..k])
  {
    forall j | 0 <= j < k ensures !Rejected(parts[..k], j) {
      assert !Rejected(parts, j);
      assert forall i :: 0 <= i <= j ==> parts[..k][i] == parts[i];
    }
  }

  lemma IncompatibleAt(parts: seq<Part>, k: nat)
    requires k < |parts| && Rejected(parts, k)
    ensures !Compatible(parts)
  {
  }

  lemma IndexedOut(parts: seq<Part>, outs: seq<Out>, index: map<Key, nat>, key: Key)
    requires Keyed(parts, outs, index) && key in index
    ensures index[key] < |outs| && OutKey(outs[index[key]]) == key
  {
  }

  lemma NoClash(parts: seq<Part>, p: Part, outs: seq<Out>, index: map<Key, nat>)
    requires Keyed(parts, outs, index) && KeyOf(p) !in index
    ensures !Clash(parts, p)
  {
  }

  lemma OpenContained(parts: seq<Part>, outs: seq<Out>, place: seq<Place>, o: Out)
    requires Contained(parts, outs, place)
    ensures Contained(parts, outs + [o], place)
  {
  }

  // ---- the merge is determined by its parts -------------------------------------------------------------

  /** Every open output section holds a part. */
  lemma {:induction false} OpenHasPart(parts: seq<Part>, outs: seq<Out>, place: seq<Place>, n: nat, o: nat)
    returns (j: nat)
    requires Tight(parts, outs, place) && n <= |parts| && o < OpenedIn(place, n)
    ensures j < n && place[j].0 == o
    decreases n
  {
    assert NextPlace(parts, place, n - 1);
    if place[n - 1].0 == o {
      j := n - 1;
    } else {
      j := OpenHasPart(parts, outs, place, n - 1, o);
    }
  }

  lemma SameOutput(parts: seq<Part>, outs: seq<Out>, place: seq<Place>, i: nat, j: nat)
    requires Contained(parts, outs, place) && OnePerKey(parts, outs) && i < |parts| && j < |parts|
    ensures place[i].0 == place[j].0 <==> KeyOf(parts[i]) == KeyOf(parts[j])
  {
    assert Holds(outs[place[i].0], parts[i], place[i].1) && Holds(outs[place[j].0], parts[j], place[j].1);
  }

  /** A part of a new key opens the next output section. */
  lemma NewKeyOpens(parts: seq<Part>, outs: seq<Out>, place: seq<Place>, i: nat)
    requires Contained(parts, outs, place) && OnePerKey(parts, outs) && Tight(parts, outs, place) && i < |parts|
    requires forall j :: 0 <= j < i ==> KeyOf(parts[j]) != KeyOf(parts[i])
    ensures place[i].0 == OpenedIn(place, i)
  {
    assert NextPlace(parts, place, i);
    if place[i].0 < OpenedIn(place, i) {
      var j := OpenHasPart(parts, outs, place, i, place[i].0);
      SameOutput(parts, outs, place, i, j);
    }
  }

  lemma {:induction false} SameLengths(parts: seq<Part>, a: seq<Place>, b: seq<Place>, n: nat, o: nat)
    requires n <= |parts| && n <= |a| && n <= |b| && forall i :: 0 <= i < n ==> a[i] == b[i]
    ensures LengthIn(parts, a, n, o) == LengthIn(parts, b, n, o) && OpenedIn(a, n) == OpenedIn(b, n)
  {
    if n > 0 {
      SameLengths(parts, a, b, n - 1, o);
    }
  }

  predicate Agree(a: seq<Place>, b: seq<Place>, n: nat) {
    n <= |a| && n <= |b| && a[..n] == b[..n]
  }

  lemma NextPlaceSame(parts: seq<Part>, x: seq<Out>, a: seq<Place>, y: seq<Out>, b: seq<Place>, n: nat)
    requires MergeOf(parts, x, a) && MergeOf(parts, y, b) && n < |parts|
    requires Agree(a, b, n)
    ensures Agree(a, b, n + 1)
  {
    hide Contained, OnePerKey, Padded, Apart;
    assert NextPlace(parts, a, n) && NextPlace(parts, b, n);
    hide Tight;
    assert forall i :: 0 <= i < n ==> a[i] == a[..n][i] == b[..n][i] == b[i];
    SameLengths(parts, a, b, n, a[n].0);
    if exists j :: 0 <= j < n && KeyOf(parts[j]) == KeyOf(parts[n]) {
      var j :| 0 <= j < n && KeyOf(parts[j]) == KeyOf(parts[n]);
      SameOutput(parts, x, a, n, j);
      SameOutput(parts, y, b, n, j);
    } else {
      NewKeyOpens(parts, x, a, n);
      NewKeyOpens(parts, y, b, n);
    }
    assert a[n] == b[n];
    assert a[..n + 1] == a[..n] + [a[n]] && b[..n + 1] == b[..n] + [b[n]];
  }

  lemma {:induction false} PlacesSame(parts: seq<Part>, x: seq<Out>, a: seq<Place>, y: seq<Out>, b: seq<Place>, n: nat)
    requires MergeOf(parts, x, a) && MergeOf(parts, y, b) && n <= |parts|
    ensures Agree(a, b, n)
  {
    hide MergeOf;
    if n > 0 {
      PlacesSame(parts, x, a, y, b, n - 1);
      NextPlaceSame(parts, x, a, y, b, n - 1);
    }
  }

  /** The bytes of an output section are its parts' bytes and zeros. */
  lemma BytesSame(parts: seq<Part>, x: seq<Out>, y: seq<Out>, place: seq<Place>, o: nat)
    requires Contained(parts, x, place) && Contained(parts, y, place)
    requires Padded(parts, x, place) && Padded(parts, y, place)
    requires o < |x| && o < |y| && |x[o].data| == |y[o].data|
    ensures x[o].data == y[o].data
  {
    forall b | 0 <= b < |x[o].data| ensures x[o].data[b] == y[o].data[b] {
      assert PaddedAt(parts, x, place, o, b) && PaddedAt(parts, y, place, o, b);
      hide Padded;
      if x[o].data[b] != 0 || y[o].data[b] != 0 {
        var i :| 0 <= i < |parts| && place[i].0 == o && Covers(parts[i], place[i].1, b);
        ByteOfPart(parts, x, place, i, b);
        ByteOfPart(parts, y, place, i, b);
      }
    }
  }

  lemma ByteOfPart(parts: seq<Part>, outs: seq<Out>, place: seq<Place>, i: nat, b: nat)
    requires Contained(parts, outs, place) && i < |parts| && Covers(parts[i], place[i].1, b)
    ensures place[i].0 < |outs| && b < |outs[place[i].0].data|
    ensures outs[place[i].0].data[b] == parts[i].data[b - place[i].1]
  {
    assert Holds(outs[place[i].0], parts[i], place[i].1);
    var at := place[i].1;
    assert outs[place[i].0].data[at..at + |parts[i].data|][b - at] == outs[place[i].0].data[b];
  }

  /** An output section's alignment is the greatest of its parts', and at least 1. */
  lemma AlignBelow(parts: seq<Part>, x: seq<Out>, y: seq<Out>, place: seq<Place>, o: nat)
    requires Contained(parts, x, place) && Contained(parts, y, place) && OnePerKey(parts, x) && OnePerKey(parts, y)
    requires o < |x| && o < |y| && OutKey(x[o]) == OutKey(y[o]) && y[o].align >= 1
    ensures x[o].align <= y[o].align
  {
    assert Opened(parts, x[o]);
    if x[o].align != 1 {
      var i :| 0 <= i < |parts| && KeyOf(parts[i]) == OutKey(x[o]) && parts[i].align == x[o].align;
      assert Holds(y[place[i].0], parts[i], place[i].1);
      assert place[i].0 == o;
    }
  }

  lemma OutSame(parts: seq<Part>, x: seq<Out>, y: seq<Out>, place: seq<Place>, o: nat)
    requires MergeOf(parts, x, place) && MergeOf(parts, y, place) && o < |x| && o < |y|
    ensures x[o] == y[o]
  {
    var j := OpenHasPart(parts, x, place, |parts|, o);
    assert Holds(x[o], parts[j], place[j].1) && Holds(y[o], parts[j], place[j].1);
    assert OutLength(x[o]) == LengthIn(parts, place, |parts|, o) && Unplaced(x[o]);
    assert OutLength(y[o]) == LengthIn(parts, place, |parts|, o) && Unplaced(y[o]);
    hide Contained, Padded, OnePerKey, Tight, Apart;
    AlignBelow(parts, x, y, place, o);
    AlignBelow(parts, y, x, place, o);
    BytesSame(parts, x, y, place, o);
  }

  /** The merged sections and the places of the parts depend on the parts alone. */
  lemma MergeDetermined(parts: seq<Part>, x: seq<Out>, a: seq<Place>, y: seq<Out>, b: seq<Place>)
    requires MergeOf(parts, x, a) && MergeOf(parts, y, b)
    ensures x == y && a == b
  {
    PlacesSame(parts, x, a, y, b, |parts|);
    assert |a| == |parts| == |b| && |x| == OpenedIn(a, |a|) && |y| == OpenedIn(b, |b|);
    assert a == a[..|parts|] && b == b[..|parts|];
    hide MergeOf;
    forall o | 0 <= o < |x| ensures x[o] == y[o] {
      OutSame(parts, x, y, a, o);
    }
  }
}
