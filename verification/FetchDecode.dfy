/**
 What any FETCH response means once decoded, whoever wrote it (section 11.4.1): where each object is, what it
 carries, and what the three End of Range markers say.
 */
module FetchDecode {
  import opened Uint64
  import opened Locations
  import opened Varint
  import opened FetchMeaning
  import opened FetchAnswer
  import opened FetchWire

  predicate Bit(raw: FetchObject, bit: u64)
    requires bit > 0
  {
    raw.flags / bit % 2 == 1
  }

  predicate IsMarker(raw: FetchObject) {
    raw.flags == 0x8C || raw.flags == 0x10C || raw.flags == 0x20C
  }

  /** An Object of a Subgroup, rather than a datagram or a marker. */
  predicate InSubgroup(raw: FetchObject) {
    !IsMarker(raw) && !Bit(raw, 0x40)
  }

  /** The Location of raw, from that of the element before it if there is one. */
  ghost predicate IsAt(raw: FetchObject, before: Option<Location>, order: GroupOrder, l: Location) {
    if IsMarker(raw) then l == Location(raw.groupDelta, raw.objectDelta)
    else match before
      case None => Bit(raw, 0x08) && Bit(raw, 0x04) && l == Location(raw.groupDelta, raw.objectDelta)
      case Some(b) =>
        && (if !Bit(raw, 0x08) then l.group == b.group
            else if order.Descending? then l.group + raw.groupDelta + 1 == b.group
            else l.group == b.group + raw.groupDelta + 1)
        && (if !Bit(raw, 0x04) then l.obj == b.obj + 1
            else if Bit(raw, 0x08) then l.obj == raw.objectDelta
            else l.obj == b.obj + raw.objectDelta)
  }

  /** The last of ds, decoded from raws, that is an Object. */
  ghost predicate IsLastObject(raws: seq<FetchObject>, i: int) {
    0 <= i < |raws| && !IsMarker(raws[i]) && forall j :: i < j < |raws| ==> IsMarker(raws[j])
  }

  /** The last of raws that is in a Subgroup. */
  ghost predicate IsLastInSubgroup(raws: seq<FetchObject>, i: int) {
    0 <= i < |raws| && InSubgroup(raws[i]) && forall j :: i < j < |raws| ==> !InSubgroup(raws[j])
  }

  /** v is the Subgroup of the last Object in one, 0 if there is none. */
  ghost predicate PriorSubgroup(raws: seq<FetchObject>, ds: seq<DecodedObject>, v: u64)
    requires |ds| == |raws|
  {
    || (exists i :: IsLastInSubgroup(raws, i) && v == ds[i].subgroup)
    || (v == 0 && forall i :: !IsLastInSubgroup(raws, i))
  }

  /** d is in the Subgroup raw says: none for a datagram, else 0, the prior one, one more, or its own. */
  ghost predicate SubgroupIs(raw: FetchObject, prior: u64, v: u64) {
    if Bit(raw, 0x40) || raw.flags % 4 == 0 then v == 0
    else if raw.flags % 4 == 1 then v == prior
    else if raw.flags % 4 == 2 then v == if prior == MAX_U64 then 0 else prior + 1
    else v == raw.subgroup
  }

  /** d is what raw, after the elements raws decoded to ds, stands for. */
  ghost predicate StandsFor(raws: seq<FetchObject>, ds: seq<DecodedObject>, raw: FetchObject, d: DecodedObject,
                            order: GroupOrder)
    requires |ds| == |raws|
  {
    && IsAt(raw, if ds == [] then None else Some(ds[|ds| - 1].Loc()), order, d.Loc())
    && (d.endOfNonExistentRange <==> raw.flags == 0x8C)
    && (d.endOfUnknownRange <==> raw.flags == 0x10C)
    && (d.endOfTimedOutRange <==> raw.flags == 0x20C)
    && (if IsMarker(raw) then
          d.subgroup == 0 && d.priority == 0 && d.properties == [] && d.payload == [] && !d.datagram
        else
          && d.properties == raw.properties && d.payload == raw.payload && d.datagram == Bit(raw, 0x40)
          && (exists prior :: PriorSubgroup(raws, ds, prior) && SubgroupIs(raw, prior, d.subgroup))
          && (if Bit(raw, 0x10) then d.priority == raw.priority
              else exists i :: IsLastObject(raws, i) && d.priority == ds[i].priority))
  }

  /** Flags that lean on an Object before have one. */
  ghost predicate Leans(raws: seq<FetchObject>, raw: FetchObject) {
    !IsMarker(raw) && (!Bit(raw, 0x10) || (!Bit(raw, 0x40) && (raw.flags % 4 == 1 || raw.flags % 4 == 2))) ==>
      exists i :: IsLastObject(raws, i)
  }

  ghost predicate Fits(d: DecodedObject, propsOK: (seq<byte>, Location) -> bool) {
    d.properties != [] ==> propsOK(d.properties, d.Loc())
  }

  /** ds is what raws stand for, each of them well formed. */
  ghost predicate Resolved(
    raws: seq<FetchObject>, ds: seq<DecodedObject>, order: GroupOrder, propsOK: (seq<byte>, Location) -> bool)
  {
    && |ds| == |raws|
    && forall n :: 0 <= n < |raws| ==>
         && StandsFor(raws[..n], ds[..n], raws[n], ds[n], order)
         && Leans(raws[..n], raws[n]) && Fits(ds[n], propsOK)
  }

  /** The decoder's state after raws, decoded to ds. */
  ghost predicate StateIs(st: DecState, raws: seq<FetchObject>, ds: seq<DecodedObject>)
    requires |ds| == |raws|
  {
    && (st.havePrev <==> ds != []) && (ds != [] ==> Location(st.prevGroup, st.prevObject) == ds[|ds| - 1].Loc())
    && (st.haveActual <==> exists i :: IsLastObject(raws, i))
    && (forall i :: IsLastObject(raws, i) ==> st.prevPriority == ds[i].priority)
    && PriorSubgroup(raws, ds, st.prevSubgroup)
  }

  lemma {:induction false} OneLastObject(raws: seq<FetchObject>, i: int, j: int)
    requires IsLastObject(raws, i) && IsLastObject(raws, j)
    ensures i == j
  {
  }

  lemma {:induction false} OnePrior(raws: seq<FetchObject>, ds: seq<DecodedObject>, v: u64, w: u64)
    requires |ds| == |raws| && PriorSubgroup(raws, ds, v) && PriorSubgroup(raws, ds, w)
    ensures v == w
  {
  }

  /** Where raw is told to be. */
  lemma {:induction false} AtExact(
    st: DecState, raw: FetchObject, before: Option<Location>, order: GroupOrder, l: Location)
    requires !IsMarker(raw) && st.havePrev == before.Some?
    requires before.Some? ==> before.value == Location(st.prevGroup, st.prevObject)
    ensures IsAt(raw, before, order, l) <==> ResolveLocation(st, raw, order) == Some(l)
  {
  }

  lemma {:induction false} SubgroupExact(st: DecState, raw: FetchObject, v: u64)
    ensures SubgroupIs(raw, st.prevSubgroup, v) <==> v == ResolveSubgroup(st, raw)
  {
  }

  lemma {:induction false} LeansExact(st: DecState, raws: seq<FetchObject>, ds: seq<DecodedObject>, raw: FetchObject)
    requires |ds| == |raws| && StateIs(st, raws, ds) && !IsMarker(raw)
    ensures Leans(raws, raw) <==> st.haveActual || !RefersToPrior(raw)
  {
    hide IsLastObject, PriorSubgroup;
  }

  /** One object decodes to d exactly if d is what it stands for. */
  lemma {:induction false} OneExact(
    st: DecState, raws: seq<FetchObject>, ds: seq<DecodedObject>, raw: FetchObject, d: DecodedObject,
    order: GroupOrder, propsOK: (seq<byte>, Location) -> bool)
    requires |ds| == |raws| && StateIs(st, raws, ds)
    ensures DecodeOne(st, raw, order, propsOK).Decoded? && DecodeOne(st, raw, order, propsOK).ds == [d]
       <==> StandsFor(raws, ds, raw, d, order) && Leans(raws, raw) && Fits(d, propsOK)
  {
    hide IsLastObject, PriorSubgroup, SubgroupIs, ResolveSubgroup, ResolveLocation, RefersToPrior;
    if IsMarker(raw) {
      assert IsEndOfRange(raw.flags) && Leans(raws, raw);
    } else {
      AtExact(st, raw, if ds == [] then None else Some(ds[|ds| - 1].Loc()), order, d.Loc());
      SubgroupExact(st, raw, d.subgroup);
      LeansExact(st, raws, ds, raw);
      hide IsAt, Leans;
      if prior :| PriorSubgroup(raws, ds, prior) && SubgroupIs(raw, prior, d.subgroup) {
        OnePrior(raws, ds, prior, st.prevSubgroup);
      }
      forall i
        ensures IsLastObject(raws, i) ==> 0 <= i < |raws| && st.prevPriority == ds[i].priority
      {
        InBounds(raws, i);
      }
    }
  }

  lemma {:induction false} LastObjectMore(raws: seq<FetchObject>, raw: FetchObject, i: int)
    ensures IsLastObject(raws + [raw], i) <==> if IsMarker(raw) then IsLastObject(raws, i) else i == |raws|
    ensures IsLastInSubgroup(raws + [raw], i) <==> if InSubgroup(raw) then i == |raws| else IsLastInSubgroup(raws, i)
  {
    var all := raws + [raw];
    assert all[|raws|] == raw && forall k :: 0 <= k < |raws| ==> all[k] == raws[k];
  }

  lemma {:induction false} PriorMore(
    raws: seq<FetchObject>, ds: seq<DecodedObject>, raw: FetchObject, d: DecodedObject, v: u64)
    requires |ds| == |raws|
    ensures PriorSubgroup(raws + [raw], ds + [d], v) <==>
            if InSubgroup(raw) then v == d.subgroup else PriorSubgroup(raws, ds, v)
  {
    hide IsLastObject, IsLastInSubgroup, InSubgroup;
    forall i
      ensures IsLastInSubgroup(raws + [raw], i) <==> if InSubgroup(raw) then i == |raws| else IsLastInSubgroup(raws, i)
      ensures IsLastInSubgroup(raws, i) ==> 0 <= i < |raws| && (ds + [d])[i] == ds[i]
    {
      LastObjectMore(raws, raw, i);
      InBounds(raws, i);
    }
    assert (ds + [d])[|raws|] == d;
  }

  lemma {:induction false} InBounds(raws: seq<FetchObject>, i: int)
    ensures IsLastInSubgroup(raws, i) || IsLastObject(raws, i) ==> 0 <= i < |raws|
  {
  }

  lemma {:induction false} StateMore(
    st: DecState, raws: seq<FetchObject>, ds: seq<DecodedObject>, raw: FetchObject,
    order: GroupOrder, propsOK: (seq<byte>, Location) -> bool)
    requires |ds| == |raws| && StateIs(st, raws, ds) && DecodeOne(st, raw, order, propsOK).Decoded?
    ensures var r := DecodeOne(st, raw, order, propsOK);
      |r.ds| == 1 && StateIs(r.st, raws + [raw], ds + r.ds)
  {
    hide IsLastObject, PriorSubgroup, ResolveSubgroup, ResolveLocation, RefersToPrior;
    var r := DecodeOne(st, raw, order, propsOK);
    var d := r.ds[0];
    forall i
      ensures IsLastObject(raws + [raw], i) <==> if IsMarker(raw) then IsLastObject(raws, i) else i == |raws|
      ensures IsLastObject(raws, i) ==> 0 <= i < |raws| && (ds + [d])[i] == ds[i]
    {
      LastObjectMore(raws, raw, i);
      InBounds(raws, i);
    }
    PriorMore(raws, ds, raw, d, r.st.prevSubgroup);
  }

  lemma {:induction false} ResolvedMore(
    raws: seq<FetchObject>, ds: seq<DecodedObject>, raw: FetchObject, d: DecodedObject,
    order: GroupOrder, propsOK: (seq<byte>, Location) -> bool)
    requires |ds| == |raws|
    ensures Resolved(raws + [raw], ds + [d], order, propsOK) <==>
            Resolved(raws, ds, order, propsOK)
            && StandsFor(raws, ds, raw, d, order) && Leans(raws, raw) && Fits(d, propsOK)
  {
    hide StandsFor, Leans, Fits;
    var all, es, n := raws + [raw], ds + [d], |raws|;
    assert all[..n] == raws && es[..n] == ds && all[n] == raw && es[n] == d;
    forall k | 0 <= k < n
      ensures all[..k] == raws[..k] && es[..k] == ds[..k] && all[k] == raws[k] && es[k] == ds[k]
    {
    }
  }

  /** Whatever decodes resolves. */
  lemma {:induction false} DecodedResolves(
    raws: seq<FetchObject>, order: GroupOrder, propsOK: (seq<byte>, Location) -> bool)
    ensures var r := DecodeAll(raws, order, propsOK);
      r.Decoded? ==> |r.ds| == |raws| && StateIs(r.st, raws, r.ds) && Resolved(raws, r.ds, order, propsOK)
    decreases |raws|
  {
    if raws == [] || !DecodeAll(raws, order, propsOK).Decoded? {
      return;
    }
    hide StandsFor, Leans, Fits, StateIs, DecodeOne, Resolved;
    var n := |raws| - 1;
    var before, last := DecodeAll(raws[..n], order, propsOK), raws[n];
    assert raws == raws[..n] + [last];
    DecodedResolves(raws[..n], order, propsOK);
    var one := DecodeOne(before.st, last, order, propsOK);
    StateMore(before.st, raws[..n], before.ds, last, order, propsOK);
    assert one.ds == [one.ds[0]];
    OneExact(before.st, raws[..n], before.ds, last, one.ds[0], order, propsOK);
    ResolvedMore(raws[..n], before.ds, last, one.ds[0], order, propsOK);
  }

  /** Whatever resolves decodes to just that. */
  lemma {:induction false} ResolvedDecodes(
    raws: seq<FetchObject>, ds: seq<DecodedObject>, order: GroupOrder, propsOK: (seq<byte>, Location) -> bool)
    requires Resolved(raws, ds, order, propsOK)
    ensures var r := DecodeAll(raws, order, propsOK); r.Decoded? && r.ds == ds
    decreases |raws|
  {
    if raws == [] {
      return;
    }
    var n := |raws| - 1;
    assert |ds| == |raws|;
    hide StandsFor, Leans, Fits, StateIs, DecodeOne, Resolved;
    var before, last := DecodeAll(raws[..n], order, propsOK), raws[n];
    assert raws == raws[..n] + [last] && ds == ds[..n] + [ds[n]];
    ResolvedMore(raws[..n], ds[..n], last, ds[n], order, propsOK);
    ResolvedDecodes(raws[..n], ds[..n], order, propsOK);
    DecodedResolves(raws[..n], order, propsOK);
    OneExact(before.st, raws[..n], ds[..n], last, ds[n], order, propsOK);
  }

  /** A response decodes to ds exactly if ds is what its objects stand for. */
  lemma {:induction false} DecodeExact(
    raws: seq<FetchObject>, ds: seq<DecodedObject>, order: GroupOrder, propsOK: (seq<byte>, Location) -> bool)
    ensures var r := DecodeAll(raws, order, propsOK);
      r.Decoded? && r.ds == ds <==> Resolved(raws, ds, order, propsOK)
  {
    hide Resolved, StateIs;
    DecodedResolves(raws, order, propsOK);
    if Resolved(raws, ds, order, propsOK) {
      ResolvedDecodes(raws, ds, order, propsOK);
    }
  }

  /** raw, after raws that resolve to ds, stands for an Object whose Properties are malformed. */
  ghost predicate Spoils(
    raws: seq<FetchObject>, ds: seq<DecodedObject>, raw: FetchObject, d: DecodedObject, order: GroupOrder,
    propsOK: (seq<byte>, Location) -> bool)
  {
    && Resolved(raws, ds, order, propsOK)
    && StandsFor(raws, ds, raw, d, order) && Leans(raws, raw) && !Fits(d, propsOK)
  }

  lemma {:induction false} OneSpoils(
    st: DecState, raws: seq<FetchObject>, ds: seq<DecodedObject>, raw: FetchObject,
    order: GroupOrder, propsOK: (seq<byte>, Location) -> bool)
    requires |ds| == |raws| && StateIs(st, raws, ds)
    ensures DecodeOne(st, raw, order, propsOK).Malformed?
       <==> exists d :: StandsFor(raws, ds, raw, d, order) && Leans(raws, raw) && !Fits(d, propsOK)
  {
    var any := (b: seq<byte>, l: Location) => true;
    hide StandsFor, Leans, StateIs, ResolveSubgroup, ResolveLocation, RefersToPrior;
    var r := DecodeOne(st, raw, order, any);
    if r.Decoded? {
      StateMore(st, raws, ds, raw, order, any);
      assert r.ds == [r.ds[0]];
      OneExact(st, raws, ds, raw, r.ds[0], order, any);
    }
    forall d | StandsFor(raws, ds, raw, d, order) && Leans(raws, raw)
      ensures r.Decoded? && r.ds == [d]
    {
      OneExact(st, raws, ds, raw, d, order, any);
    }
  }

  /** The first of raws that does not resolve has malformed Properties. */
  ghost predicate SomeSpoils(raws: seq<FetchObject>, order: GroupOrder, propsOK: (seq<byte>, Location) -> bool) {
    exists n, ds, d :: 0 <= n < |raws| && Spoils(raws[..n], ds, raws[n], d, order, propsOK)
  }

  lemma {:induction false} SpoilsMore(
    raws: seq<FetchObject>, raw: FetchObject, order: GroupOrder, propsOK: (seq<byte>, Location) -> bool)
    ensures SomeSpoils(raws + [raw], order, propsOK) <==>
            SomeSpoils(raws, order, propsOK) || exists ds, d :: Spoils(raws, ds, raw, d, order, propsOK)
  {
    hide Spoils;
    var all := raws + [raw];
    assert all[..|raws|] == raws && all[|raws|] == raw;
    if n, ds, d :| 0 <= n < |raws| && Spoils(raws[..n], ds, raws[n], d, order, propsOK) {
      assert all[..n] == raws[..n] && all[n] == raws[n];
      assert Spoils(all[..n], ds, all[n], d, order, propsOK);
    }
    if ds, d :| Spoils(raws, ds, raw, d, order, propsOK) {
      assert Spoils(all[..|raws|], ds, all[|raws|], d, order, propsOK);
    }
    if n, ds, d :| 0 <= n < |all| && Spoils(all[..n], ds, all[n], d, order, propsOK) {
      if n < |raws| {
        assert all[..n] == raws[..n] && all[n] == raws[n];
        assert Spoils(raws[..n], ds, raws[n], d, order, propsOK);
      }
    }
  }

  lemma {:induction false} LastSpoils(
    raws: seq<FetchObject>, raw: FetchObject, order: GroupOrder, propsOK: (seq<byte>, Location) -> bool)
    ensures var before := DecodeAll(raws, order, propsOK);
      (exists ds, d :: Spoils(raws, ds, raw, d, order, propsOK)) <==>
      before.Decoded? && DecodeOne(before.st, raw, order, propsOK).Malformed?
  {
    hide StandsFor, Leans, Fits, StateIs, DecodeOne, Resolved, DecodeAll;
    var before := DecodeAll(raws, order, propsOK);
    DecodedResolves(raws, order, propsOK);
    if ds, d :| Spoils(raws, ds, raw, d, order, propsOK) {
      ResolvedDecodes(raws, ds, order, propsOK);
      OneSpoils(before.st, raws, ds, raw, order, propsOK);
    }
    if before.Decoded? {
      OneSpoils(before.st, raws, before.ds, raw, order, propsOK);
      if d :| StandsFor(raws, before.ds, raw, d, order) && Leans(raws, raw) && !Fits(d, propsOK) {
        assert Spoils(raws, before.ds, raw, d, order, propsOK);
      }
    }
  }

  /** A response is malformed exactly if its first object that does not resolve has malformed Properties. */
  lemma {:induction false} MalformedExact(
    raws: seq<FetchObject>, order: GroupOrder, propsOK: (seq<byte>, Location) -> bool)
    ensures DecodeAll(raws, order, propsOK).Malformed? <==> SomeSpoils(raws, order, propsOK)
    decreases |raws|
  {
    if raws != [] {
      hide SomeSpoils, Spoils, DecodeOne;
      var n := |raws| - 1;
      assert raws == raws[..n] + [raws[n]];
      MalformedExact(raws[..n], order, propsOK);
      SpoilsMore(raws[..n], raws[n], order, propsOK);
      LastSpoils(raws[..n], raws[n], order, propsOK);
    }
  }

  // ---------------------------------------------------------------------------
  // Bytes
  // ---------------------------------------------------------------------------

  /** b starts with the number v, if there is one to read, and goes on with rest. */
  ghost predicate Number(present: bool, b: seq<byte>, v: u64, rest: seq<byte>) {
    if present then ReadVarint(b) == Ok(v, rest) else v == 0 && rest == b
  }

  ghost predicate Blob(present: bool, b: seq<byte>, v: seq<byte>, rest: seq<byte>) {
    if present then ReadBytes(b) == Ok(v, rest) else v == [] && rest == b
  }

  ghost predicate OneByte(present: bool, b: seq<byte>, v: byte, rest: seq<byte>) {
    if present then b != [] && v == b[0] && rest == b[1..] else v == 0 && rest == b
  }

  /** The fields of o lie between b and rest, cut where g, s, n, p and q start. */
  ghost predicate FieldsAt(
    b: seq<byte>, o: FetchObject, rest: seq<byte>, g: seq<byte>, s: seq<byte>, n: seq<byte>, p: seq<byte>, q: seq<byte>)
  {
    && Number(Bit(o, 0x08), b, o.groupDelta, g)
    && Number(o.flags % 4 == 3 && !Bit(o, 0x40), g, o.subgroup, s)
    && Number(Bit(o, 0x04), s, o.objectDelta, n)
    && OneByte(Bit(o, 0x10), n, o.priority, p)
    && Blob(Bit(o, 0x20), p, o.properties, q)
    && Blob(true, q, o.payload, rest)
  }

  /** b starts with the fields of o after its flags, as the flags of section 11.4.1.1 say. */
  ghost predicate HasFields(b: seq<byte>, o: FetchObject, rest: seq<byte>) {
    if IsMarker(o) then
      o.subgroup == 0 && o.priority == 0 && o.properties == [] && o.payload == []
      && exists g :: Number(true, b, o.groupDelta, g) && Number(true, g, o.objectDelta, rest)
    else
      exists g, s, n, p, q :: FieldsAt(b, o, rest, g, s, n, p, q)
  }

  /** An object is read from b exactly if its flags are in use and the fields they name follow. */
  lemma {:induction false} ParseExact(b: seq<byte>, o: FetchObject, rest: seq<byte>)
    ensures ParseFetchObject(b) == Ok(o, rest) <==>
            && (o.flags < 0x80 || IsMarker(o))
            && exists fields :: ReadVarint(b) == Ok(o.flags, fields) && HasFields(fields, o, rest)
  {
    hide ReadVarint, ReadBytes, ParseFields, HasFields;
    var f := ReadVarint(b);
    if f.Ok? && f.value == o.flags {
      if IsMarker(o) {
        MarkerFields(f.rest, o, rest);
      } else {
        FieldsExact(f.rest, o, rest);
        FlagsStay(f.value, f.rest);
      }
    } else if f.Ok? {
      FlagsStay(f.value, f.rest);
    }
  }

  lemma {:induction false} FlagsStay(flags: u64, b: seq<byte>)
    ensures ParseFields(flags, b).Ok? ==> ParseFields(flags, b).value.flags == flags
  {
    hide OptionalVarint, OptionalByte, OptionalBytes, ReadBytes;
  }

  lemma {:induction false} MarkerFields(b: seq<byte>, o: FetchObject, rest: seq<byte>)
    requires IsMarker(o)
    ensures HasFields(b, o, rest) <==>
      var g := Inside(ReadVarint(b));
      g.Ok? && Inside(ReadVarint(g.rest)) == Ok(o.objectDelta, rest)
      && o == FetchObject(o.flags, g.value, 0, o.objectDelta, 0, [], [])
  {
    hide ReadVarint;
    var g := ReadVarint(b);
    if g.Ok? && ReadVarint(g.rest) == Ok(o.objectDelta, rest) && g.value == o.groupDelta {
      assert Number(true, b, o.groupDelta, g.rest) && Number(true, g.rest, o.objectDelta, rest);
    }
  }

  lemma {:induction false} NumberExact(present: bool, b: seq<byte>, v: u64, rest: seq<byte>)
    ensures Number(present, b, v, rest) <==> OptionalVarint(present, b) == Ok(v, rest)
  {
    hide ReadVarint;
  }

  lemma {:induction false} OneByteExact(present: bool, b: seq<byte>, v: byte, rest: seq<byte>)
    ensures OneByte(present, b, v, rest) <==> OptionalByte(present, b) == Ok(v, rest)
  {
  }

  lemma {:induction false} BlobExact(present: bool, b: seq<byte>, v: seq<byte>, rest: seq<byte>)
    ensures Blob(present, b, v, rest) <==> OptionalBytes(present, b) == Ok(v, rest)
    ensures OptionalBytes(true, b) == Inside(ReadBytes(b))
  {
    hide ReadBytes;
  }

  lemma {:induction false} CutsExact(
    b: seq<byte>, o: FetchObject, rest: seq<byte>, g: seq<byte>, s: seq<byte>, n: seq<byte>, p: seq<byte>, q: seq<byte>)
    ensures FieldsAt(b, o, rest, g, s, n, p, q) <==>
      && OptionalVarint(Has(o.flags, FLAG_GROUP_DELTA), b) == Ok(o.groupDelta, g)
      && OptionalVarint(HasSubgroupField(o.flags), g) == Ok(o.subgroup, s)
      && OptionalVarint(Has(o.flags, FLAG_OBJECT_DELTA), s) == Ok(o.objectDelta, n)
      && OptionalByte(Has(o.flags, FLAG_PRIORITY), n) == Ok(o.priority, p)
      && OptionalBytes(Has(o.flags, FLAG_PROPERTIES), p) == Ok(o.properties, q)
      && Inside(ReadBytes(q)) == Ok(o.payload, rest)
  {
    hide Number, OneByte, Blob, OptionalVarint, OptionalByte, OptionalBytes, ReadBytes, Inside;
    NumberExact(Bit(o, 0x08), b, o.groupDelta, g);
    NumberExact(o.flags % 4 == 3 && !Bit(o, 0x40), g, o.subgroup, s);
    NumberExact(Bit(o, 0x04), s, o.objectDelta, n);
    OneByteExact(Bit(o, 0x10), n, o.priority, p);
    BlobExact(Bit(o, 0x20), p, o.properties, q);
    BlobExact(true, q, o.payload, rest);
  }

  lemma {:induction false} FieldsExact(b: seq<byte>, o: FetchObject, rest: seq<byte>)
    requires !IsMarker(o)
    ensures HasFields(b, o, rest) <==> ParseFields(o.flags, b) == Ok(o, rest)
  {
    hide FieldsAt, OptionalVarint, OptionalByte, OptionalBytes, ReadBytes, Has, HasSubgroupField, Inside;
    var flags := o.flags;
    if g, s, n, p, q :| FieldsAt(b, o, rest, g, s, n, p, q) {
      CutsExact(b, o, rest, g, s, n, p, q);
    }
    if ParseFields(flags, b) == Ok(o, rest) {
      var g := OptionalVarint(Has(flags, FLAG_GROUP_DELTA), b).rest;
      var s := OptionalVarint(HasSubgroupField(flags), g).rest;
      var n := OptionalVarint(Has(flags, FLAG_OBJECT_DELTA), s).rest;
      var p := OptionalByte(Has(flags, FLAG_PRIORITY), n).rest;
      var q := OptionalBytes(Has(flags, FLAG_PROPERTIES), p).rest;
      CutsExact(b, o, rest, g, s, n, p, q);
      assert FieldsAt(b, o, rest, g, s, n, p, q);
    }
  }

  // ---------------------------------------------------------------------------
  // Meaning
  // ---------------------------------------------------------------------------

  /** What a marker's own code says of every Location it covers. */
  function Says(raw: FetchObject): Status {
    if raw.flags == 0x10C then Unknown else if raw.flags == 0x20C then TimedOut else Absent
  }

  /**
   An ordered response says an Object is at l exactly if an object of it that is no marker is there, and of the
   Locations after the element before a marker and up to it what the marker's code says.
   */
  lemma {:induction false} DecodedMeans(
    raws: seq<FetchObject>, ds: seq<DecodedObject>, order: GroupOrder, propsOK: (seq<byte>, Location) -> bool,
    l: Location)
    requires Resolved(raws, ds, order, propsOK) && InStreamOrder(DecodedView(ds), order)
    ensures Meaning(DecodedView(ds), l, order) == Present
       <==> exists n :: 0 <= n < |raws| && !IsMarker(raws[n]) && ds[n].Loc() == l
    ensures forall n :: 0 <= n < |raws| && IsMarker(raws[n]) && !Before(ds[n].Loc(), l, order)
                        && (n > 0 ==> Before(ds[n - 1].Loc(), l, order)) ==>
              Meaning(DecodedView(ds), l, order) == Says(raws[n])
  {
    DecodedPresent(raws, ds, order, propsOK, l);
    forall n | 0 <= n < |raws| && IsMarker(raws[n]) && !Before(ds[n].Loc(), l, order)
               && (n > 0 ==> Before(ds[n - 1].Loc(), l, order))
      ensures Meaning(DecodedView(ds), l, order) == Says(raws[n])
    {
      DecodedMarker(raws, ds, order, propsOK, l, n);
    }
  }

  /** Each object of a response is the element of its own kind, at its own Location. */
  lemma {:induction false} DecodedElemIs(
    raws: seq<FetchObject>, ds: seq<DecodedObject>, order: GroupOrder, propsOK: (seq<byte>, Location) -> bool,
    l: Location, n: nat)
    requires Resolved(raws, ds, order, propsOK) && n < |raws|
    ensures |DecodedView(ds)| == |ds| == |raws| && DecodedView(ds)[n].at == ds[n].Loc()
    ensures DecodedView(ds)[n].kind == ObjectElem <==> !IsMarker(raws[n])
    ensures IsMarker(raws[n]) ==> Verdict(DecodedView(ds)[n], l) == Says(raws[n])
  {
    hide IsAt, Leans, Fits, PriorSubgroup, IsLastObject;
    assert StandsFor(raws[..n], ds[..n], raws[n], ds[n], order);
  }

  lemma {:induction false} DecodedPresent(
    raws: seq<FetchObject>, ds: seq<DecodedObject>, order: GroupOrder, propsOK: (seq<byte>, Location) -> bool,
    l: Location)
    requires Resolved(raws, ds, order, propsOK) && InStreamOrder(DecodedView(ds), order)
    ensures Meaning(DecodedView(ds), l, order) == Present
       <==> exists n :: 0 <= n < |raws| && !IsMarker(raws[n]) && ds[n].Loc() == l
  {
    var es := DecodedView(ds);
    PresentIffElement(es, l, order);
    assert |ds| == |raws|;
    hide Resolved, DecodedView, InStreamOrder, Meaning, IsMarker;
    if Elem(l, ObjectElem) in es {
      var n :| 0 <= n < |es| && es[n] == Elem(l, ObjectElem);
      DecodedElemIs(raws, ds, order, propsOK, l, n);
      assert !IsMarker(raws[n]) && ds[n].Loc() == l;
    }
    if n :| 0 <= n < |raws| && !IsMarker(raws[n]) && ds[n].Loc() == l {
      DecodedElemIs(raws, ds, order, propsOK, l, n);
      assert es[n] == Elem(l, ObjectElem);
    }
  }

  lemma {:induction false} DecodedMarker(
    raws: seq<FetchObject>, ds: seq<DecodedObject>, order: GroupOrder, propsOK: (seq<byte>, Location) -> bool,
    l: Location, n: nat)
    requires Resolved(raws, ds, order, propsOK) && InStreamOrder(DecodedView(ds), order)
    requires n < |raws| && IsMarker(raws[n]) && !Before(ds[n].Loc(), l, order)
    requires n > 0 ==> Before(ds[n - 1].Loc(), l, order)
    ensures Meaning(DecodedView(ds), l, order) == Says(raws[n])
  {
    var es := DecodedView(ds);
    hide Resolved, DecodedView, Meaning, Before, IsMarker, Says, Verdict;
    DecodedElemIs(raws, ds, order, propsOK, l, n);
    if n > 0 {
      DecodedElemIs(raws, ds, order, propsOK, l, n - 1);
    }
    EarlierBefore(es, n, l, order);
    FirstDecides(es, n, l, order);
  }

  lemma {:induction false} EarlierBefore(es: seq<Elem>, n: nat, l: Location, order: GroupOrder)
    requires InStreamOrder(es, order) && n <= |es| && (n > 0 ==> Before(es[n - 1].at, l, order))
    ensures forall j :: 0 <= j < n ==> Before(es[j].at, l, order)
  {
    forall j | 0 <= j < n
      ensures Before(es[j].at, l, order)
    {
      assert j < n - 1 ==> Before(es[j].at, es[n - 1].at, order);
    }
  }
}
