/** A static ELF link end to end: merge, place, relocate. */
module ElfLink {
  import opened Wrappers
  import opened ElfLayout
  import opened ElfPlacement
  import opened ElfFields
  import opened Bytes

  /** What a relocation refers to: a place in an input section, or an absolute value. */
  datatype Target = InPart(part: nat, value: nat) | Fixed(address: nat)

  datatype Reloc = Reloc(kind: Kind, offset: nat, target: Target, addend: int)

  /** A relocation of part `p` writes inside its contents and refers to an existing section. */
  predicate ValidReloc(parts: seq<Part>, p: Part, r: Reloc) {
    && !p.nobits && r.offset + Width(r.kind) <= |p.data|
    && (r.target.InPart? ==> r.target.part < |parts|)
  }

  predicate ValidRelocs(parts: seq<Part>, relocs: seq<seq<Reloc>>) {
    && |relocs| == |parts|
    && forall i :: 0 <= i < |parts| ==> forall k :: 0 <= k < |relocs[i]| ==> ValidReloc(parts, parts[i], relocs[i][k])
  }

  // ---- S and P -----------------------------------------------------------------------------------

  ghost predicate Placing(parts: seq<Part>, outs: seq<Out>, place: seq<Place>) {
    |place| == |parts| && forall i :: 0 <= i < |place| ==> place[i].0 < |outs|
  }

  /** The address at which byte `b` of part `i` stands. */
  function AddressIn(outs: seq<Out>, place: seq<Place>, i: nat, b: nat): nat
    requires i < |place| && place[i].0 < |outs|
  {
    outs[place[i].0].vaddr + place[i].1 + b
  }

  /** S: the address of the target. */
  function TargetAddress(parts: seq<Part>, outs: seq<Out>, place: seq<Place>, t: Target): int
    requires Placing(parts, outs, place) && (t.InPart? ==> t.part < |parts|)
  {
    match t
    case InPart(part, value) => AddressIn(outs, place, part, value)
    case Fixed(address) => address
  }

  /** The relocation with S, A and P filled in. */
  function PatchOf(parts: seq<Part>, outs: seq<Out>, place: seq<Place>, i: nat, r: Reloc): Patch
    requires Placing(parts, outs, place) && i < |parts| && ValidReloc(parts, parts[i], r)
  {
    Patch(r.kind, place[i].1 + r.offset, TargetAddress(parts, outs, place, r.target), r.addend,
          AddressIn(outs, place, i, r.offset))
  }

  function Patches(parts: seq<Part>, outs: seq<Out>, place: seq<Place>, i: nat, rs: seq<Reloc>): (r: seq<Patch>)
    requires Placing(parts, outs, place) && i < |parts|
    requires forall k :: 0 <= k < |rs| ==> ValidReloc(parts, parts[i], rs[k])
    ensures |r| == |rs| && forall k :: 0 <= k < |rs| ==> r[k] == PatchOf(parts, outs, place, i, rs[k])
  {
    seq(|rs|, k requires 0 <= k < |rs| => PatchOf(parts, outs, place, i, rs[k]))
  }

  // ---- what the image holds ----------------------------------------------------------------------------

  predicate RelocCovers(r: Reloc, b: int) { r.offset <= b < r.offset + Width(r.kind) }

  ghost predicate Untouched(rs: seq<Reloc>, b: int) {
    forall k :: 0 <= k < |rs| ==> !RelocCovers(rs[k], b)
  }

  ghost predicate DisjointRelocs(rs: seq<Reloc>) {
    forall j, k :: 0 <= j < k < |rs| ==>
      rs[j].offset + Width(rs[j].kind) <= rs[k].offset || rs[k].offset + Width(rs[k].kind) <= rs[j].offset
  }

  /** Addresses, kinds and lengths stay; only bytes differ. */
  ghost predicate SamePlaces(placed: seq<Out>, image: seq<Out>) {
    |placed| == |image| && forall o :: 0 <= o < |placed| ==> SamePlace(placed[o], image[o])
  }

  predicate SamePlace(a: Out, b: Out) { b == a.(data := b.data) && |a.data| == |b.data| }

  /** Byte `b` of part `i` stands unchanged at its place. */
  predicate ByteStands(parts: seq<Part>, image: seq<Out>, place: seq<Place>, i: nat, b: nat)
    requires i < |parts| && i < |place| && place[i].0 < |image| && b < |parts[i].data|
  {
    && place[i].1 + b < |image[place[i].0].data|
    && image[place[i].0].data[place[i].1 + b] == parts[i].data[b]
  }

  /** Every byte of part `i` outside its fields stands. */
  ghost predicate PartStands(parts: seq<Part>, image: seq<Out>, place: seq<Place>, i: nat, rs: seq<Reloc>)
    requires i < |parts| && i < |place| && place[i].0 < |image|
  {
    !parts[i].nobits ==>
      forall b: nat :: b < |parts[i].data| && Untouched(rs, b) ==> ByteStands(parts, image, place, i, b)
  }

  /** Every field of part `i` holds its relocation's encoding. */
  ghost predicate FieldsDone(parts: seq<Part>, placed: seq<Out>, image: seq<Out>, place: seq<Place>, i: nat,
                             rs: seq<Reloc>)
    requires Placing(parts, placed, place) && i < |parts| && place[i].0 < |image|
    requires forall k :: 0 <= k < |rs| ==> ValidReloc(parts, parts[i], rs[k])
  {
    forall k :: 0 <= k < |rs| ==> Done(image[place[i].0].data, PatchOf(parts, placed, place, i, rs[k]))
  }

  // ---- one part --------------------------------------------------------------------------------------------

  lemma PatchesInside(parts: seq<Part>, outs: seq<Out>, place: seq<Place>, i: nat, rs: seq<Reloc>)
    requires Contained(parts, outs, place) && Placing(parts, outs, place) && i < |parts|
    requires forall k :: 0 <= k < |rs| ==> ValidReloc(parts, parts[i], rs[k])
    ensures InSection(Patches(parts, outs, place, i, rs), |outs[place[i].0].data|)
    ensures DisjointRelocs(rs) ==> AllDisjoint(Patches(parts, outs, place, i, rs))
  {
    assert Holds(outs[place[i].0], parts[i], place[i].1);
    hide Contained;
    var ps := Patches(parts, outs, place, i, rs);
    forall k | 0 <= k < |ps| ensures ps[k].spot + Width(ps[k].kind) <= |outs[place[i].0].data| {
      assert ValidReloc(parts, parts[i], rs[k]);
    }
    if DisjointRelocs(rs) {
      forall j, k | 0 <= j < k < |ps| ensures Disjoint(ps[j], ps[k]) {
        assert rs[j].offset + Width(rs[j].kind) <= rs[k].offset || rs[k].offset + Width(rs[k].kind) <= rs[j].offset;
      }
    }
  }

  /** A write confined to part `i`: nothing outside its fields changed. */
  ghost predicate WroteOnly(was: seq<byte>, now: seq<byte>, ps: seq<Patch>) {
    |was| == |now| && forall b :: 0 <= b < |was| && (forall k :: 0 <= k < |ps| ==> !ElfFields.Covers(ps[k], b)) ==>
      now[b] == was[b]
  }

  lemma OutsideFields(parts: seq<Part>, outs: seq<Out>, place: seq<Place>, i: nat, rs: seq<Reloc>, b: nat)
    requires Placing(parts, outs, place) && i < |parts| && b < |parts[i].data| && Untouched(rs, b)
    requires forall k :: 0 <= k < |rs| ==> ValidReloc(parts, parts[i], rs[k])
    ensures forall k :: 0 <= k < |rs| ==> !ElfFields.Covers(Patches(parts, outs, place, i, rs)[k], place[i].1 + b)
  {
    forall k | 0 <= k < |rs| ensures !ElfFields.Covers(Patches(parts, outs, place, i, rs)[k], place[i].1 + b) {
      assert !RelocCovers(rs[k], b);
    }
  }

  lemma OutsidePart(parts: seq<Part>, outs: seq<Out>, place: seq<Place>, i: nat, rs: seq<Reloc>, at: nat)
    requires Placing(parts, outs, place) && i < |parts|
    requires forall k :: 0 <= k < |rs| ==> ValidReloc(parts, parts[i], rs[k])
    requires at < place[i].1 || place[i].1 + Length(parts[i]) <= at
    ensures forall k :: 0 <= k < |rs| ==> !ElfFields.Covers(Patches(parts, outs, place, i, rs)[k], at)
  {
    forall k | 0 <= k < |rs| ensures !ElfFields.Covers(Patches(parts, outs, place, i, rs)[k], at) {
      assert ValidReloc(parts, parts[i], rs[k]);
    }
  }

  /** What relocating part `i` does to a part `j`: nothing outside `i`'s own fields. */
  lemma StandsOn(parts: seq<Part>, placed: seq<Out>, image: seq<Out>, next: seq<Out>, place: seq<Place>,
                 i: nat, rs: seq<Reloc>, j: nat, qs: seq<Reloc>)
    requires Contained(parts, placed, place) && Apart(parts, place) && Placing(parts, placed, place)
    requires SamePlaces(placed, image) && i < |parts| && j < |parts|
    requires forall k :: 0 <= k < |rs| ==> ValidReloc(parts, parts[i], rs[k])
    requires |next| == |image| && next == image[place[i].0 := next[place[i].0]]
    requires WroteOnly(image[place[i].0].data, next[place[i].0].data, Patches(parts, placed, place, i, rs))
    requires PartStands(parts, image, place, j, qs) && (j == i ==> qs == rs)
    ensures PartStands(parts, next, place, j, qs)
  {
    if !parts[j].nobits {
      assert Holds(placed[place[j].0], parts[j], place[j].1) && SamePlace(placed[place[j].0], image[place[j].0]);
      hide Holds, SamePlaces, Contained;
      forall b: nat | b < |parts[j].data| && Untouched(qs, b) ensures ByteStands(parts, next, place, j, b) {
        assert ByteStands(parts, image, place, j, b);
        if place[j].0 == place[i].0 {
          if j == i {
            OutsideFields(parts, placed, place, i, rs, b);
          } else {
            PartsApart(parts, place, i, j);
            OutsidePart(parts, placed, place, i, rs, place[j].1 + b);
          }
        }
      }
    }
  }

  lemma PartsApart(parts: seq<Part>, place: seq<Place>, i: nat, j: nat)
    requires |place| == |parts| && Apart(parts, place) && i < |parts| && j < |parts| && i != j
    requires place[i].0 == place[j].0
    ensures place[i].1 + Length(parts[i]) <= place[j].1 || place[j].1 + Length(parts[j]) <= place[i].1
  {
  }

  /** Fields of another part survive. */
  lemma FieldsStay(parts: seq<Part>, placed: seq<Out>, image: seq<Out>, next: seq<Out>, place: seq<Place>,
                   i: nat, rs: seq<Reloc>, j: nat, qs: seq<Reloc>)
    requires Contained(parts, placed, place) && Apart(parts, place) && Placing(parts, placed, place)
    requires SamePlaces(placed, image) && i < |parts| && j < |parts| && i != j
    requires forall k :: 0 <= k < |rs| ==> ValidReloc(parts, parts[i], rs[k])
    requires forall k :: 0 <= k < |qs| ==> ValidReloc(parts, parts[j], qs[k])
    requires |next| == |image| && next == image[place[i].0 := next[place[i].0]]
    requires WroteOnly(image[place[i].0].data, next[place[i].0].data, Patches(parts, placed, place, i, rs))
    requires FieldsDone(parts, placed, image, place, j, qs)
    ensures FieldsDone(parts, placed, next, place, j, qs)
  {
    if place[j].0 == place[i].0 {
      PartsApart(parts, place, i, j);
      var was, now := image[place[i].0].data, next[place[i].0].data;
      forall at: nat | at < |was| && !(place[i].1 <= at < place[i].1 + Length(parts[i])) ensures was[at] == now[at] {
        OutsidePart(parts, placed, place, i, rs, at);
      }
      hide Contained, Apart, SamePlaces, WroteOnly, Done;
      forall k | 0 <= k < |qs| ensures Done(now, PatchOf(parts, placed, place, j, qs[k])) {
        assert ValidReloc(parts, parts[j], qs[k]);
        DoneStays(was, now, PatchOf(parts, placed, place, j, qs[k]), place[i].1, Length(parts[i]));
      }
    }
  }

  /** The state after the first `n` parts are relocated. */
  ghost predicate Relocated(parts: seq<Part>, relocs: seq<seq<Reloc>>, placed: seq<Out>, image: seq<Out>,
                            place: seq<Place>, n: nat)
    requires Placing(parts, placed, place) && ValidRelocs(parts, relocs) && n <= |parts|
  {
    && SamePlaces(placed, image)
    && (forall i :: 0 <= i < |parts| ==> PartStands(parts, image, place, i, relocs[i]))
    && (forall i :: 0 <= i < n && DisjointRelocs(relocs[i]) ==> FieldsDone(parts, placed, image, place, i, relocs[i]))
  }

  lemma RelocateNext(parts: seq<Part>, relocs: seq<seq<Reloc>>, placed: seq<Out>, image: seq<Out>, next: seq<Out>,
                     place: seq<Place>, i: nat)
    requires Contained(parts, placed, place) && Apart(parts, place) && Placing(parts, placed, place)
    requires ValidRelocs(parts, relocs) && i < |parts| && Relocated(parts, relocs, placed, image, place, i)
    requires |next| == |image| && next == image[place[i].0 := image[place[i].0].(data := next[place[i].0].data)]
    requires WroteOnly(image[place[i].0].data, next[place[i].0].data, Patches(parts, placed, place, i, relocs[i]))
    requires DisjointRelocs(relocs[i]) ==> FieldsDone(parts, placed, next, place, i, relocs[i])
    ensures Relocated(parts, relocs, placed, next, place, i + 1)
  {
    hide PartStands, FieldsDone, DisjointRelocs, Contained, Apart, Untouched;
    var o := place[i].0;
    assert SamePlace(placed[o], image[o]);
    assert SamePlaces(placed, next);
    forall j | 0 <= j < |parts| ensures PartStands(parts, next, place, j, relocs[j]) {
      StandsOn(parts, placed, image, next, place, i, relocs[i], j, relocs[j]);
    }
    forall j | 0 <= j < i && DisjointRelocs(relocs[j]) ensures FieldsDone(parts, placed, next, place, j, relocs[j]) {
      FieldsStay(parts, placed, image, next, place, i, relocs[i], j, relocs[j]);
    }
  }

  lemma RelocateStart(parts: seq<Part>, relocs: seq<seq<Reloc>>, placed: seq<Out>, place: seq<Place>)
    requires Contained(parts, placed, place) && Placing(parts, placed, place) && ValidRelocs(parts, relocs)
    ensures Relocated(parts, relocs, placed, placed, place, 0)
  {
    forall i | 0 <= i < |parts| ensures PartStands(parts, placed, place, i, relocs[i]) {
      assert Holds(placed[place[i].0], parts[i], place[i].1);
      if !parts[i].nobits {
        var at, slice := place[i].1, placed[place[i].0].data[place[i].1..place[i].1 + |parts[i].data|];
        forall b: nat | b < |parts[i].data| ensures ByteStands(parts, placed, place, i, b) {
          assert slice[b] == parts[i].data[b];
        }
      }
    }
  }

  ghost predicate AllAccepted(parts: seq<Part>, relocs: seq<seq<Reloc>>, outs: seq<Out>, place: seq<Place>, n: nat)
    requires Placing(parts, outs, place) && ValidRelocs(parts, relocs) && n <= |parts|
  {
    forall i, k :: 0 <= i < n && 0 <= k < |relocs[i]| ==> Accepted(PatchOf(parts, outs, place, i, relocs[i][k]))
  }

  /** The bytes of a sequence in a fresh array. */
  method ToArray(data: seq<byte>) returns (a: array<byte>)
    ensures fresh(a) && a[..] == data
  {
    a := new byte[|data|](i requires 0 <= i < |data| => data[i]);
  }

  /** Applies one part's relocations to the bytes of its output section. */
  method RelocatePart(parts: seq<Part>, ghost relocs: seq<seq<Reloc>>, placed: seq<Out>, image: seq<Out>,
                      place: seq<Place>, i: nat, rs: seq<Reloc>) returns (ok: bool, next: seq<Out>)
    requires Contained(parts, placed, place) && Apart(parts, place) && Placing(parts, placed, place)
    requires ValidRelocs(parts, relocs) && i < |parts| && rs == relocs[i]
    requires Relocated(parts, relocs, placed, image, place, i)
    ensures ok <==> forall k :: 0 <= k < |rs| ==> Accepted(PatchOf(parts, placed, place, i, rs[k]))
    ensures ok ==> Relocated(parts, relocs, placed, next, place, i + 1)
  {
    hide Contained, Apart, PartStands, FieldsDone, Accepted, Done;
    PatchesInside(parts, placed, place, i, rs);
    var o := place[i].0;
    assert SamePlace(placed[o], image[o]);
    var ps := Patches(parts, placed, place, i, rs);
    var data := ToArray(image[o].data);
    ok := Apply(data, ps);
    next := image[o := image[o].(data := data[..])];
    assert ok <==> forall k :: 0 <= k < |rs| ==> Accepted(PatchOf(parts, placed, place, i, rs[k])) by {
      assert forall k :: 0 <= k < |rs| ==> ps[k] == PatchOf(parts, placed, place, i, rs[k]);
    }
    if ok {
      assert WroteOnly(image[o].data, next[o].data, ps);
      if DisjointRelocs(rs) {
        DoneFields(parts, placed, next, place, i, rs);
      }
      hide Relocated, WroteOnly, DisjointRelocs;
      RelocateNext(parts, relocs, placed, image, next, place, i);
    }
  }

  lemma DoneFields(parts: seq<Part>, placed: seq<Out>, next: seq<Out>, place: seq<Place>, i: nat, rs: seq<Reloc>)
    requires Placing(parts, placed, place) && i < |parts| && place[i].0 < |next|
    requires forall k :: 0 <= k < |rs| ==> ValidReloc(parts, parts[i], rs[k])
    requires forall k :: 0 <= k < |rs| ==> Done(next[place[i].0].data, Patches(parts, placed, place, i, rs)[k])
    ensures FieldsDone(parts, placed, next, place, i, rs)
  {
    hide Done;
    forall k | 0 <= k < |rs| ensures Done(next[place[i].0].data, PatchOf(parts, placed, place, i, rs[k])) {
      assert Patches(parts, placed, place, i, rs)[k] == PatchOf(parts, placed, place, i, rs[k]);
    }
  }

  /** The relocation loop over all parts. */
  method RelocateAll(parts: seq<Part>, relocs: seq<seq<Reloc>>, placed: seq<Out>, place: seq<Place>)
    returns (ok: bool, image: seq<Out>)
    requires Contained(parts, placed, place) && Apart(parts, place) && Placing(parts, placed, place)
    requires ValidRelocs(parts, relocs)
    ensures ok <==> AllAccepted(parts, relocs, placed, place, |parts|)
    ensures ok ==> Relocated(parts, relocs, placed, image, place, |parts|)
  {
    image := placed;
    RelocateStart(parts, relocs, placed, place);
    hide Contained, Apart, Accepted, Relocated;
    for i := 0 to |parts|
      invariant AllAccepted(parts, relocs, placed, place, i)
      invariant Relocated(parts, relocs, placed, image, place, i)
    {
      ok, image := RelocatePart(parts, relocs, placed, image, place, i, relocs[i]);
      if !ok {
        return;
      }
    }
    ok := true;
  }

  // ---- the whole link -----------------------------------------------------------------------------------------

  /** Each field of a part with disjoint fields reads S + A, or S + A - P, with S and P where things stand. */
  ghost predicate FieldsRead(parts: seq<Part>, relocs: seq<seq<Reloc>>, image: seq<Out>, place: seq<Place>)
    requires Placing(parts, image, place) && ValidRelocs(parts, relocs)
  {
    forall i, k :: 0 <= i < |parts| && DisjointRelocs(relocs[i]) && 0 <= k < |relocs[i]| ==>
      FieldReads(parts, image, place, i, relocs[i][k])
  }

  ghost predicate FieldReads(parts: seq<Part>, image: seq<Out>, place: seq<Place>, i: nat, r: Reloc)
    requires Placing(parts, image, place) && i < |parts| && ValidReloc(parts, parts[i], r)
  {
    var s, p := TargetAddress(parts, image, place, r.target), AddressIn(image, place, i, r.offset);
    var at, data := place[i].1 + r.offset, image[place[i].0].data;
    && at + Width(r.kind) <= |data|
    && match r.kind
       case Abs64 => ReadField(Abs64, data, at) == (s + r.addend) % 0x1_0000_0000_0000_0000
       case Abs32 => ReadField(Abs32, data, at) == s + r.addend
       case Abs32S => ReadField(Abs32S, data, at) == s + r.addend
       case Pc32 => ReadField(Pc32, data, at) == s + r.addend - p
  }

  /** Every input byte outside the fields stands unchanged at its final place. */
  ghost predicate BytesStand(parts: seq<Part>, relocs: seq<seq<Reloc>>, image: seq<Out>, place: seq<Place>)
    requires Placing(parts, image, place) && |relocs| == |parts|
  {
    forall i :: 0 <= i < |parts| ==> PartStands(parts, image, place, i, relocs[i])
  }

  lemma SameAddresses(parts: seq<Part>, placed: seq<Out>, image: seq<Out>, place: seq<Place>, i: nat, r: Reloc)
    requires Placing(parts, placed, place) && SamePlaces(placed, image) && i < |parts| && ValidReloc(parts, parts[i], r)
    ensures Placing(parts, image, place)
    ensures PatchOf(parts, image, place, i, r) == PatchOf(parts, placed, place, i, r)
  {
    assert forall k :: 0 <= k < |place| ==> SamePlace(placed[place[k].0], image[place[k].0]);
  }

  lemma RelocatedReads(parts: seq<Part>, relocs: seq<seq<Reloc>>, placed: seq<Out>, image: seq<Out>, place: seq<Place>)
    requires Placing(parts, placed, place) && ValidRelocs(parts, relocs)
    requires Relocated(parts, relocs, placed, image, place, |parts|)
    ensures Placing(parts, image, place) && FieldsRead(parts, relocs, image, place)
    ensures BytesStand(parts, relocs, image, place)
  {
    hide PartStands, DisjointRelocs, Done;
    forall i, k | 0 <= i < |parts| && DisjointRelocs(relocs[i]) && 0 <= k < |relocs[i]|
      ensures Placing(parts, image, place) && FieldReads(parts, image, place, i, relocs[i][k])
    {
      var r := relocs[i][k];
      assert ValidReloc(parts, parts[i], r);
      assert FieldsDone(parts, placed, image, place, i, relocs[i]);
      SameAddresses(parts, placed, image, place, i, r);
      DoneReads(parts, image, place, i, r);
    }
  }

  lemma DoneReads(parts: seq<Part>, image: seq<Out>, place: seq<Place>, i: nat, r: Reloc)
    requires Placing(parts, image, place) && i < |parts| && ValidReloc(parts, parts[i], r)
    requires Done(image[place[i].0].data, PatchOf(parts, image, place, i, r))
    ensures FieldReads(parts, image, place, i, r)
  {
    FieldReadsBack(PatchOf(parts, image, place, i, r), image[place[i].0].data);
    hide Encode, ReadField, Done;
  }

  /** Placing output sections leaves the parts where merging put them. */
  lemma PlacedContains(parts: seq<Part>, merged: seq<Out>, placed: seq<Out>, place: seq<Place>)
    requires Contained(parts, merged, place) && SameOuts(placed, merged)
    ensures Contained(parts, placed, place) && Placing(parts, placed, place) && Placing(parts, merged, place)
  {
    forall i | 0 <= i < |parts| ensures place[i].0 < |placed| && Holds(placed[place[i].0], parts[i], place[i].1) {
      assert SameContent(placed[place[i].0], merged[place[i].0]);
    }
  }

  lemma RelocatedInStep(placed: seq<Out>, image: seq<Out>)
    requires SamePlaces(placed, image)
    ensures MappedInStep(image) <==> MappedInStep(placed)
  {
    assert forall o :: 0 <= o < |placed| ==> SamePlace(placed[o], image[o]);
  }

  /** What merging and placing make of the parts: output sections, places in them, their order and addresses. */
  datatype Plan = Plan(merged: seq<Out>, place: seq<Place>, order: seq<nat>, placed: seq<Out>, end: Cursor)

  /** The plan is the merge of the parts and the layout loop's placement of the merge. */
  ghost predicate Planned(parts: seq<Part>, phnum: nat, plan: Plan) {
    && MergeOf(parts, plan.merged, plan.place)
    && Ordered(plan.merged, plan.order) && Indexes(plan.merged, plan.order) && Indexes(plan.placed, plan.order)
    && SameOuts(plan.placed, plan.merged)
    && Follows(plan.merged, plan.placed, plan.order, HeaderEnd(phnum), |plan.order|)
    && plan.end == RunAt(plan.merged, plan.order, HeaderEnd(phnum), |plan.order|).c
  }

  /** The parts and the number of program headers determine the plan. */
  lemma PlanDetermined(parts: seq<Part>, phnum: nat, a: Plan, b: Plan)
    requires Planned(parts, phnum, a) && Planned(parts, phnum, b)
    ensures a == b
  {
    hide MergeOf, Ordered, SameOuts, Follows, RunAt, Indexes;
    MergeDetermined(parts, a.merged, a.place, b.merged, b.place);
    PlacementDetermined(a.merged, a.placed, a.order, b.placed, b.order, HeaderEnd(phnum));
  }

  /** Aligned and disjoint in memory and in the file, past the headers. */
  ghost predicate WellPlaced(plan: Plan, phnum: nat) {
    && Laid(plan.placed, plan.order, |plan.order|, plan.end)
    && Indexes(plan.placed, plan.order)
    && Clear(plan.placed, plan.order, |plan.order|, HeaderEnd(phnum), plan.end)
  }

  /** The bytes and fields of the image, at the plan's places. */
  ghost predicate Linked(parts: seq<Part>, relocs: seq<seq<Reloc>>, plan: Plan, image: seq<Out>, phnum: nat)
    requires Indexes(plan.merged, plan.order)
  {
    && SamePlaces(plan.placed, image)
    && Placing(parts, image, plan.place) && ValidRelocs(parts, relocs)
    && BytesStand(parts, relocs, image, plan.place) && FieldsRead(parts, relocs, image, plan.place)
    && (NobitsBehind(plan.merged) ==> (MappedInStep(image) <==> ContentsDivide(plan.merged)))
    && (MappedInStep(image) <==>
        (ContentsDivide(plan.merged) && GapsFit(plan.merged, plan.order, HeaderEnd(phnum))))
  }

  /**
   * A static link of section contributions.  It succeeds exactly when the relocations are well formed, the
   * contributions are compatible and every value is in range at the addresses of the one plan the
   * contributions have.  Its output sections are aligned and disjoint; input bytes outside fields stand at
   * their final places, and fields read S + A or S + A - P.
   */
  method Link(parts: seq<Part>, relocs: seq<seq<Reloc>>, phnum: nat)
    returns (r: Result<(seq<Out>, seq<Place>)>, ghost plan: Plan)
    ensures r.Ok? ==> ValidRelocs(parts, relocs) && Compatible(parts)
    ensures ValidRelocs(parts, relocs) && Compatible(parts) ==>
      && Planned(parts, phnum, plan) && WellPlaced(plan, phnum) && Placing(parts, plan.placed, plan.place)
      && (r.Ok? <==> AllAccepted(parts, relocs, plan.placed, plan.place, |parts|))
    ensures r.Ok? ==> r.value.1 == plan.place && Linked(parts, relocs, plan, r.value.0, phnum)
  {
    plan := Plan([], [], [], [], Cursor(0, 0));
    if !ValidRelocs(parts, relocs) {
      return Err, plan;
    }
    var m := Merge(parts);
    if m.Err? {
      return Err, plan;
    }
    var (outs, at) := m.value;
    var done, order, rw, edge, end := PlaceOutputs(outs, phnum);
    plan := Plan(outs, at, order, done, end);
    PlannedAll(parts, phnum, plan);
    hide Compatible, ValidRelocs, MergeOf, Contained, Apart, SameOuts, Laid, Divided, Clear, Follows, Ordered;
    hide MappedInStep, ContentsDivide, NobitsBehind, AllAccepted, Relocated, FieldsRead, BytesStand, SamePlaces;
    hide Planned, GapsFit;
    MergeContains(parts, outs, at);
    PlacedContains(parts, outs, done, at);
    var ok, image := RelocateAll(parts, relocs, done, at);
    if !ok {
      return Err, plan;
    }
    RelocatedReads(parts, relocs, done, image, at);
    RelocatedPlaces(parts, relocs, done, image, at);
    RelocatedInStep(done, image);
    return Ok((image, at)), plan;
  }

  lemma PlannedAll(parts: seq<Part>, phnum: nat, plan: Plan)
    requires MergeOf(parts, plan.merged, plan.place)
    requires Ordered(plan.merged, plan.order) && Indexes(plan.merged, plan.order) && Indexes(plan.placed, plan.order)
    requires SameOuts(plan.placed, plan.merged)
    requires Follows(plan.merged, plan.placed, plan.order, HeaderEnd(phnum), |plan.order|)
    requires plan.end == RunAt(plan.merged, plan.order, HeaderEnd(phnum), |plan.order|).c
    ensures Planned(parts, phnum, plan)
  {
  }

  lemma MergeContains(parts: seq<Part>, outs: seq<Out>, place: seq<Place>)
    requires MergeOf(parts, outs, place)
    ensures Contained(parts, outs, place) && |place| == |parts| && Apart(parts, place)
  {
  }

  lemma RelocatedPlaces(parts: seq<Part>, relocs: seq<seq<Reloc>>, placed: seq<Out>, image: seq<Out>, place: seq<Place>)
    requires Placing(parts, placed, place) && ValidRelocs(parts, relocs)
    requires Relocated(parts, relocs, placed, image, place, |parts|)
    ensures SamePlaces(placed, image)
  {
  }
}
