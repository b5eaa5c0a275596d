/** FETCH response objects on the wire: their fields, flags and delta encoding (section 11.4.1). */
module FetchWire {
  import opened Uint64
  import opened Locations
  import opened Varint
  import opened FetchMeaning
  import opened FetchRanges
  import opened FE = FetchElements
  import opened FetchAnswer
  import opened FetchHop

  datatype FetchObject = FetchObject(
    flags: u64,
    groupDelta: u64,
    subgroup: u64,
    objectDelta: u64,
    priority: byte,
    properties: seq<byte>,
    payload: seq<byte>
  )

  // Serialization flag bits (section 11.4.1.1).
  const FLAG_OBJECT_DELTA: u64 := 0x04
  const FLAG_GROUP_DELTA: u64 := 0x08
  const FLAG_PRIORITY: u64 := 0x10
  const FLAG_PROPERTIES: u64 := 0x20
  const FLAG_DATAGRAM: u64 := 0x40

  // Subgroup ID modes, the two low bits.
  const SUBGROUP_ZERO: u64 := 0
  const SUBGROUP_PRIOR: u64 := 1
  const SUBGROUP_PRIOR_PLUS_ONE: u64 := 2
  const SUBGROUP_EXPLICIT: u64 := 3

  // End of Range markers (section 11.4.1.2).
  const END_OF_NON_EXISTENT_RANGE: u64 := 0x8C
  const END_OF_UNKNOWN_RANGE: u64 := 0x10C
  const END_OF_TIMED_OUT_RANGE: u64 := 0x20C

  predicate Has(flags: u64, bit: u64)
    requires bit > 0
  {
    flags / bit % 2 == 1
  }

  function SubgroupMode(flags: u64): u64 {
    flags % 4
  }

  predicate IsEndOfRange(flags: u64) {
    flags == END_OF_NON_EXISTENT_RANGE || flags == END_OF_UNKNOWN_RANGE || flags == END_OF_TIMED_OUT_RANGE
  }

  predicate ValidFlags(flags: u64) {
    flags < 128 || IsEndOfRange(flags)
  }

  predicate HasSubgroupField(flags: u64) {
    SubgroupMode(flags) == SUBGROUP_EXPLICIT && !Has(flags, FLAG_DATAGRAM)
  }

  function Optional(present: bool, b: seq<byte>): seq<byte> {
    if present then b else []
  }

  function AppendFetchObject(o: FetchObject): seq<byte>
    requires |o.properties| <= MAX_U64 && |o.payload| <= MAX_U64
  {
    // A Datagram's subgroup mode bits are zeroed on the wire.
    var flags := if Has(o.flags, FLAG_DATAGRAM) && o.flags < 128 then o.flags - SubgroupMode(o.flags) else o.flags;
    if IsEndOfRange(o.flags) then
      AppendVarint(flags) + (AppendVarint(o.groupDelta) + AppendVarint(o.objectDelta))
    else
      AppendVarint(flags) + AppendFields(o)
  }

  function AppendFields(o: FetchObject): seq<byte>
    requires |o.properties| <= MAX_U64 && |o.payload| <= MAX_U64
  {
    Optional(Has(o.flags, FLAG_GROUP_DELTA), AppendVarint(o.groupDelta))
    + (Optional(HasSubgroupField(o.flags), AppendVarint(o.subgroup))
       + (Optional(Has(o.flags, FLAG_OBJECT_DELTA), AppendVarint(o.objectDelta))
          + (Optional(Has(o.flags, FLAG_PRIORITY), [o.priority])
             + (Optional(Has(o.flags, FLAG_PROPERTIES), AppendBytes(o.properties))
                + AppendBytes(o.payload)))))
  }

  /** Past the flags, running out of bytes is a break in the Object, not the end of the stream. */
  function Inside<T>(r: Read<T>): (r': Read<T>)
    ensures !r'.Eof? && (r.Ok? ==> r' == r)
  {
    if r.Eof? then Truncated else r
  }

  function OptionalVarint(present: bool, b: seq<byte>): (r: Read<u64>)
    ensures r.Ok? ==> |r.rest| <= |b|
  {
    if present then Inside(ReadVarint(b)) else Ok(0, b)
  }

  function OptionalByte(present: bool, b: seq<byte>): (r: Read<byte>)
    ensures r.Ok? ==> |r.rest| <= |b|
  {
    if present then Inside(ReadByte(b)) else Ok(0, b)
  }

  function OptionalBytes(present: bool, b: seq<byte>): (r: Read<seq<byte>>)
    ensures r.Ok? ==> |r.rest| <= |b|
  {
    if present then Inside(ReadBytes(b)) else Ok([], b)
  }

  function Fail<T, U>(r: Read<T>): Read<U>
    requires !r.Ok?
  {
    match r
    case Eof => Eof
    case Truncated => Truncated
    case Invalid => Invalid
  }

  /** Reads one object. Eof is a clean end of the stream: no byte of an object was read. */
  function ParseFetchObject(b: seq<byte>): (r: Read<FetchObject>)
    ensures r.Eof? <==> b == []
    ensures r.Ok? ==> |r.rest| < |b|
  {
    var f := ReadVarint(b);
    if !f.Ok? then Fail(f)
    else if !ValidFlags(f.value) then Invalid
    else if IsEndOfRange(f.value) then
      var g := Inside(ReadVarint(f.rest));
      if !g.Ok? then Fail(g) else
      var o := Inside(ReadVarint(g.rest));
      if !o.Ok? then Fail(o) else
      Ok(FetchObject(f.value, g.value, 0, o.value, 0, [], []), o.rest)
    else
      ParseFields(f.value, f.rest)
  }

  function ParseFields(flags: u64, b: seq<byte>): (r: Read<FetchObject>)
    ensures !r.Eof?
    ensures r.Ok? ==> |r.rest| <= |b|
  {
    var g := OptionalVarint(Has(flags, FLAG_GROUP_DELTA), b);
    if !g.Ok? then Fail(g) else
    var s := OptionalVarint(HasSubgroupField(flags), g.rest);
    if !s.Ok? then Fail(s) else
    var o := OptionalVarint(Has(flags, FLAG_OBJECT_DELTA), s.rest);
    if !o.Ok? then Fail(o) else
    var p := OptionalByte(Has(flags, FLAG_PRIORITY), o.rest);
    if !p.Ok? then Fail(p) else
    var ps := OptionalBytes(Has(flags, FLAG_PROPERTIES), p.rest);
    if !ps.Ok? then Fail(ps) else
    var pl := Inside(ReadBytes(ps.rest));
    if !pl.Ok? then Fail(pl) else
    Ok(FetchObject(flags, g.value, s.value, o.value, p.value, ps.value, pl.value), pl.rest)
  }

  /** Flags are in use, absent fields are zero, a Datagram has no subgroup mode, fields fit a stream read. */
  predicate Canonical(o: FetchObject) {
    && ValidFlags(o.flags)
    && |o.properties| <= MAX_FIELD && |o.payload| <= MAX_FIELD
    && (if IsEndOfRange(o.flags) then
          o.subgroup == 0 && o.priority == 0 && o.properties == [] && o.payload == []
        else
          && (Has(o.flags, FLAG_DATAGRAM) ==> SubgroupMode(o.flags) == 0)
          && (!Has(o.flags, FLAG_GROUP_DELTA) ==> o.groupDelta == 0)
          && (!HasSubgroupField(o.flags) ==> o.subgroup == 0)
          && (!Has(o.flags, FLAG_OBJECT_DELTA) ==> o.objectDelta == 0)
          && (!Has(o.flags, FLAG_PRIORITY) ==> o.priority == 0)
          && (!Has(o.flags, FLAG_PROPERTIES) ==> o.properties == []))
  }

  lemma {:induction false} OptionalVarintTrip(present: bool, v: u64, rest: seq<byte>)
    requires !present ==> v == 0
    ensures OptionalVarint(present, Optional(present, AppendVarint(v)) + rest) == Ok(v, rest)
  {
    VarintRoundTrip(v, rest);
    assert [] + rest == rest;
  }

  lemma {:induction false} OptionalByteTrip(present: bool, v: byte, rest: seq<byte>)
    requires !present ==> v == 0
    ensures OptionalByte(present, Optional(present, [v]) + rest) == Ok(v, rest)
  {
    assert ([v] + rest)[1..] == rest;
    assert [] + rest == rest;
  }

  lemma {:induction false} OptionalBytesTrip(present: bool, p: seq<byte>, rest: seq<byte>)
    requires |p| <= MAX_FIELD && (!present ==> p == [])
    ensures OptionalBytes(present, Optional(present, AppendBytes(p)) + rest) == Ok(p, rest)
  {
    BytesRoundTrip(p, rest);
    assert [] + rest == rest;
  }

  lemma {:induction false} Associate(a: seq<byte>, b: seq<byte>, c: seq<byte>)
    ensures (a + b) + c == a + (b + c)
  {
  }

  lemma {:induction false} FieldsRoundTrip(o: FetchObject, rest: seq<byte>)
    requires Canonical(o) && !IsEndOfRange(o.flags)
    ensures ParseFields(o.flags, AppendFields(o) + rest) == Ok(o, rest)
  {
    hide AppendVarint, AppendBytes, OptionalVarint, OptionalByte, OptionalBytes, ReadBytes, Has, HasSubgroupField,
         Optional;
    var b5 := AppendBytes(o.payload);
    var f4 := Optional(Has(o.flags, FLAG_PROPERTIES), AppendBytes(o.properties));
    var f3 := Optional(Has(o.flags, FLAG_PRIORITY), [o.priority]);
    var f2 := Optional(Has(o.flags, FLAG_OBJECT_DELTA), AppendVarint(o.objectDelta));
    var f1 := Optional(HasSubgroupField(o.flags), AppendVarint(o.subgroup));
    var f0 := Optional(Has(o.flags, FLAG_GROUP_DELTA), AppendVarint(o.groupDelta));
    var b4 := f4 + b5;
    var b3 := f3 + b4;
    var b2 := f2 + b3;
    var b1 := f1 + b2;
    Associate(f0, b1, rest);
    Associate(f1, b2, rest);
    Associate(f2, b3, rest);
    Associate(f3, b4, rest);
    Associate(f4, b5, rest);
    OptionalVarintTrip(Has(o.flags, FLAG_GROUP_DELTA), o.groupDelta, b1 + rest);
    OptionalVarintTrip(HasSubgroupField(o.flags), o.subgroup, b2 + rest);
    OptionalVarintTrip(Has(o.flags, FLAG_OBJECT_DELTA), o.objectDelta, b3 + rest);
    OptionalByteTrip(Has(o.flags, FLAG_PRIORITY), o.priority, b4 + rest);
    OptionalBytesTrip(Has(o.flags, FLAG_PROPERTIES), o.properties, b5 + rest);
    BytesRoundTrip(o.payload, rest);
  }

  /** Reading an appended object gives it back, whatever follows. */
  lemma {:induction false} FetchObjectRoundTrip(o: FetchObject, rest: seq<byte>)
    requires Canonical(o)
    ensures ParseFetchObject(AppendFetchObject(o) + rest) == Ok(o, rest)
  {
    hide AppendVarint, ReadVarint, AppendFields, ParseFields;
    if IsEndOfRange(o.flags) {
      Associate(AppendVarint(o.flags), AppendVarint(o.groupDelta) + AppendVarint(o.objectDelta), rest);
      Associate(AppendVarint(o.groupDelta), AppendVarint(o.objectDelta), rest);
      VarintRoundTrip(o.flags, AppendVarint(o.groupDelta) + (AppendVarint(o.objectDelta) + rest));
      VarintRoundTrip(o.groupDelta, AppendVarint(o.objectDelta) + rest);
      VarintRoundTrip(o.objectDelta, rest);
    } else {
      Associate(AppendVarint(o.flags), AppendFields(o), rest);
      VarintRoundTrip(o.flags, AppendFields(o) + rest);
      FieldsRoundTrip(o, rest);
    }
  }

  // ---------------------------------------------------------------------------
  // Decoding deltas
  // ---------------------------------------------------------------------------

  /** What the decoder carries from one object to the next. */
  datatype DecState = DecState(
    prevGroup: u64,
    prevObject: u64,
    prevSubgroup: u64,
    prevPriority: byte,
    havePrev: bool,
    haveActual: bool
  )

  const FRESH := DecState(0, 0, 0, 0, false, false)

  datatype Decoding = Decoded(st: DecState, ds: seq<DecodedObject>) | Violation | Malformed

  /** The Location an object's deltas resolve to; None where an ID leaves the 64-bit range. */
  function ResolveLocation(st: DecState, raw: FetchObject, order: GroupOrder): Option<Location> {
    var newGroup := Has(raw.flags, FLAG_GROUP_DELTA);
    var newObject := Has(raw.flags, FLAG_OBJECT_DELTA);
    if !st.havePrev then
      if newGroup && newObject then Some(Location(raw.groupDelta, raw.objectDelta)) else None
    else
      var g := if !newGroup then st.prevGroup
               else if order.Descending? then st.prevGroup - raw.groupDelta - 1
               else st.prevGroup + raw.groupDelta + 1;
      var o := if !newObject then st.prevObject + 1
               else if newGroup then raw.objectDelta
               else st.prevObject + raw.objectDelta;
      if 0 <= g <= MAX_U64 && o <= MAX_U64 then Some(Location(g, o)) else None
  }

  /** Flags that refer to a prior Object need one. */
  predicate RefersToPrior(raw: FetchObject) {
    || (!Has(raw.flags, FLAG_DATAGRAM)
        && SubgroupMode(raw.flags) in {SUBGROUP_PRIOR, SUBGROUP_PRIOR_PLUS_ONE})
    || !Has(raw.flags, FLAG_PRIORITY)
  }

  function ResolveSubgroup(st: DecState, raw: FetchObject): u64 {
    var m := SubgroupMode(raw.flags);
    if Has(raw.flags, FLAG_DATAGRAM) || m == SUBGROUP_ZERO then 0
    else if m == SUBGROUP_PRIOR then st.prevSubgroup
    else if m == SUBGROUP_PRIOR_PLUS_ONE then Wrap(st.prevSubgroup + 1)
    else raw.subgroup
  }

  function DecodeOne(st: DecState, raw: FetchObject, order: GroupOrder, propsOK: (seq<byte>, Location) -> bool)
    : Decoding
  {
    if IsEndOfRange(raw.flags) then
      Decoded(st.(prevGroup := raw.groupDelta, prevObject := raw.objectDelta, havePrev := true),
              [DecodedObject(raw.groupDelta, raw.objectDelta, 0, 0, [], [], false,
                             raw.flags == END_OF_NON_EXISTENT_RANGE,
                             raw.flags == END_OF_UNKNOWN_RANGE,
                             raw.flags == END_OF_TIMED_OUT_RANGE)])
    else if !st.haveActual && RefersToPrior(raw) then Violation
    else
      var at := ResolveLocation(st, raw, order);
      if at.None? then Violation
      else
        var datagram := Has(raw.flags, FLAG_DATAGRAM);
        var subgroup := ResolveSubgroup(st, raw);
        var priority := if Has(raw.flags, FLAG_PRIORITY) then raw.priority else st.prevPriority;
        if raw.properties != [] && !propsOK(raw.properties, at.value) then Malformed
        else
          Decoded(DecState(at.value.group, at.value.obj, if datagram then st.prevSubgroup else subgroup, priority,
                           true, true),
                  [DecodedObject(at.value.group, at.value.obj, subgroup, priority, raw.properties, raw.payload,
                                 datagram, false, false, false)])
  }

  function DecodeAll(raws: seq<FetchObject>, order: GroupOrder, propsOK: (seq<byte>, Location) -> bool): Decoding {
    if raws == [] then Decoded(FRESH, [])
    else
      var before := DecodeAll(raws[..|raws| - 1], order, propsOK);
      if !before.Decoded? then before
      else
        var last := DecodeOne(before.st, raws[|raws| - 1], order, propsOK);
        if !last.Decoded? then last else Decoded(last.st, before.ds + last.ds)
  }

  // ---------------------------------------------------------------------------
  // Encoding a response
  // ---------------------------------------------------------------------------

  /** The flags of an Object from what it carries; its subgroup, if any, is always spelled out. */
  function MakeFlags(newGroup: bool, newObject: bool, datagram: bool, priority: bool, properties: bool): u64 {
    (if newGroup then FLAG_GROUP_DELTA else 0) + (if newObject then FLAG_OBJECT_DELTA else 0)
    + (if datagram then FLAG_DATAGRAM else SUBGROUP_EXPLICIT)
    + (if priority then FLAG_PRIORITY else 0) + (if properties then FLAG_PROPERTIES else 0)
  }

  lemma {:induction false} FlagsMade(newGroup: bool, newObject: bool, datagram: bool, priority: bool, properties: bool)
    ensures var f := MakeFlags(newGroup, newObject, datagram, priority, properties);
            && f < 128
            && Has(f, FLAG_GROUP_DELTA) == newGroup && Has(f, FLAG_OBJECT_DELTA) == newObject
            && Has(f, FLAG_DATAGRAM) == datagram && Has(f, FLAG_PRIORITY) == priority
            && Has(f, FLAG_PROPERTIES) == properties
            && SubgroupMode(f) == (if datagram then SUBGROUP_ZERO else SUBGROUP_EXPLICIT)
  {
  }

  /** What the encoder carries from one element to the next. */
  datatype EncState = EncState(prevGroup: u64, prevObject: u64, prevPriority: byte, havePrev: bool, haveActual: bool)

  /** The encoder and the decoder of what it wrote agree on what came before. */
  ghost predicate InStep(enc: EncState, dec: DecState) {
    && enc.havePrev == dec.havePrev && enc.haveActual == dec.haveActual
    && (enc.havePrev ==> enc.prevGroup == dec.prevGroup && enc.prevObject == dec.prevObject)
    && (enc.haveActual ==> enc.prevPriority == dec.prevPriority)
  }

  function MarkerObject(o: CachedObject): FetchObject {
    FetchObject(if o.endOfTimedOutRange then END_OF_TIMED_OUT_RANGE else END_OF_UNKNOWN_RANGE,
                o.group, 0, o.obj, 0, [], [])
  }

  /** An Object after enc's prior one, which it must follow within its Group. */
  function EncodeObject(o: CachedObject, enc: EncState): FetchObject
    requires enc.havePrev && o.group == enc.prevGroup ==> enc.prevObject < o.obj
  {
    var newGroup := !enc.havePrev || o.group != enc.prevGroup;
    var newObject := newGroup || o.obj != enc.prevObject + 1;
    var priority := !enc.haveActual || o.priority != enc.prevPriority;
    FetchObject(
      MakeFlags(newGroup, newObject, o.datagram, priority, |o.properties| > 0),
      if !enc.havePrev then o.group
      else if o.group == enc.prevGroup then 0
      else if o.group < enc.prevGroup then enc.prevGroup - o.group - 1
      else o.group - enc.prevGroup - 1,
      if o.datagram then 0 else o.subgroup,
      if newGroup then o.obj else if newObject then o.obj - enc.prevObject else 0,
      if priority then o.priority else 0,
      o.properties,
      o.payload)
  }

  lemma {:induction false} MarkerTrip(
    o: CachedObject, enc: EncState, dec: DecState, order: GroupOrder, propsOK: (seq<byte>, Location) -> bool)
    requires InStep(enc, dec) && o.IsRangeMarker()
    ensures var r := DecodeOne(dec, MarkerObject(o), order, propsOK);
            && r.Decoded? && r.ds == [Received(o)]
            && InStep(EncState(o.group, o.obj, enc.prevPriority, true, enc.haveActual), r.st)
  {
  }

  lemma {:induction false} ObjectTrip(
    o: CachedObject, enc: EncState, dec: DecState, order: GroupOrder, propsOK: (seq<byte>, Location) -> bool)
    requires InStep(enc, dec) && !o.IsRangeMarker()
    requires enc.havePrev ==> Before(Location(enc.prevGroup, enc.prevObject), o.Loc(), order)
    requires o.properties != [] ==> propsOK(o.properties, o.Loc())
    ensures var r := DecodeOne(dec, EncodeObject(o, enc), order, propsOK);
            && r.Decoded? && r.ds == [Received(o)]
            && InStep(EncState(o.group, o.obj, o.priority, true, true), r.st)
  {
    hide Has, SubgroupMode, MakeFlags;
    var newGroup := !enc.havePrev || o.group != enc.prevGroup;
    var newObject := newGroup || o.obj != enc.prevObject + 1;
    var priority := !enc.haveActual || o.priority != enc.prevPriority;
    FlagsMade(newGroup, newObject, o.datagram, priority, |o.properties| > 0);
  }

  /** How many elements of s are Objects. */
  function ObjectCount(s: seq<CachedObject>): nat {
    if s == [] then 0 else ObjectCount(s[..|s| - 1]) + (if s[|s| - 1].IsRangeMarker() then 0 else 1)
  }

  lemma {:induction false} CountOneMore(objs: seq<CachedObject>, i: nat, expired: CachedObject -> bool)
    requires i < |objs|
    ensures ObjectCount(Outgoing(objs[..i + 1], expired)) == ObjectCount(Outgoing(objs[..i], expired))
            + (var more := OutgoingOne(objs[i], expired); if more != [] && !more[0].IsRangeMarker() then 1 else 0)
  {
    assert objs[..i + 1][..i] == objs[..i];
    var sent, more := Outgoing(objs[..i], expired), OutgoingOne(objs[i], expired);
    if more == [] {
      assert sent + more == sent;
    } else {
      assert (sent + more)[..|sent|] == sent;
    }
  }

  /** The Properties of every Object pass the check the decoder makes. */
  ghost predicate PropsFit(objs: seq<CachedObject>, propsOK: (seq<byte>, Location) -> bool) {
    forall o :: o in objs && o.properties != [] ==> propsOK(o.properties, o.Loc())
  }

  /** No field is longer than a stream read accepts. */
  ghost predicate FieldsFit(objs: seq<CachedObject>) {
    forall o :: o in objs ==> |o.properties| <= MAX_FIELD && |o.payload| <= MAX_FIELD
  }

  lemma {:induction false} ReceivedAppend(a: seq<CachedObject>, o: CachedObject)
    ensures ReceivedAll(a + [o]) == ReceivedAll(a) + [Received(o)]
  {
  }

  /** One more object written. */
  lemma {:induction false} DecodeAppend(
    out: seq<FetchObject>, fo: FetchObject, order: GroupOrder, propsOK: (seq<byte>, Location) -> bool,
    sent: seq<CachedObject>, o: CachedObject)
    requires var r := DecodeAll(out, order, propsOK);
             && r.Decoded? && r.ds == ReceivedAll(sent)
             && DecodeOne(r.st, fo, order, propsOK).Decoded?
             && DecodeOne(r.st, fo, order, propsOK).ds == [Received(o)]
    ensures var r := DecodeAll(out, order, propsOK);
            DecodeAll(out + [fo], order, propsOK)
            == Decoded(DecodeOne(r.st, fo, order, propsOK).st, ReceivedAll(sent + [o]))
  {
    assert (out + [fo])[..|out|] == out;
    ReceivedAppend(sent, o);
  }

  /** The loop below before element i, for a list in stream order. */
  ghost predicate EncodedSoFar(
    objs: seq<CachedObject>, i: nat, expired: CachedObject -> bool, out: seq<FetchObject>, enc: EncState,
    order: GroupOrder, propsOK: (seq<byte>, Location) -> bool)
    requires i <= |objs|
  {
    var r := DecodeAll(out, order, propsOK);
    && r.Decoded? && r.ds == ReceivedAll(Outgoing(objs[..i], expired))
    && InStep(enc, r.st)
    && (enc.havePrev ==> exists j :: 0 <= j < i && objs[j].Loc() == Location(enc.prevGroup, enc.prevObject))
  }

  /** An ordered list never meets the order check, and what is written decodes to what was meant. */
  lemma {:induction false} EncodeStep(
    objs: seq<CachedObject>, i: nat, expired: CachedObject -> bool, out: seq<FetchObject>, enc: EncState,
    order: GroupOrder, propsOK: (seq<byte>, Location) -> bool)
    requires i < |objs| && InStreamOrder(View(objs), order) && PropsFit(objs, propsOK)
    requires EncodedSoFar(objs, i, expired, out, enc, order, propsOK)
    ensures enc.havePrev ==> Before(Location(enc.prevGroup, enc.prevObject), objs[i].Loc(), order)
    ensures var more := OutgoingOne(objs[i], expired);
            if more == [] then EncodedSoFar(objs, i + 1, expired, out, enc, order, propsOK)
            else if more[0].IsRangeMarker() then
              EncodedSoFar(objs, i + 1, expired, out + [MarkerObject(more[0])],
                           EncState(more[0].group, more[0].obj, enc.prevPriority, true, enc.haveActual), order, propsOK)
            else
              EncodedSoFar(objs, i + 1, expired, out + [EncodeObject(more[0], enc)],
                           EncState(more[0].group, more[0].obj, more[0].priority, true, true), order, propsOK)
  {
    hide DecodeAll, DecodeOne, EncodeObject, MarkerObject, InStep, Received;
    assert objs[..i + 1][..i] == objs[..i];
    var more := OutgoingOne(objs[i], expired);
    var sent := Outgoing(objs[..i], expired);
    assert Outgoing(objs[..i + 1], expired) == sent + more;
    var r := DecodeAll(out, order, propsOK);
    if enc.havePrev {
      var j :| 0 <= j < i && objs[j].Loc() == Location(enc.prevGroup, enc.prevObject);
      assert Before(View(objs)[j].at, View(objs)[i].at, order);
    }
    if more == [] {
      assert sent + more == sent;
    } else if more[0].IsRangeMarker() {
      MarkerTrip(more[0], enc, r.st, order, propsOK);
      DecodeAppend(out, MarkerObject(more[0]), order, propsOK, sent, more[0]);
    } else {
      ObjectTrip(more[0], enc, r.st, order, propsOK);
      DecodeAppend(out, EncodeObject(more[0], enc), order, propsOK, sent, more[0]);
    }
  }

  /** Writes objs as a FETCH response; failed reports an order the encoding cannot express. */
  method StreamFetchObjects(
    objs: seq<CachedObject>, expired: CachedObject -> bool,
    ghost order: GroupOrder, ghost propsOK: (seq<byte>, Location) -> bool)
    returns (out: seq<FetchObject>, written: nat, failed: bool)
    ensures InStreamOrder(View(objs), order) && PropsFit(objs, propsOK) ==>
              && !failed
              && DecodeAll(out, order, propsOK).Decoded?
              && DecodeAll(out, order, propsOK).ds == ReceivedAll(Outgoing(objs, expired))
    ensures !failed ==> written == ObjectCount(Outgoing(objs, expired))
    ensures FieldsFit(objs) ==> forall i :: 0 <= i < |out| ==> Canonical(out[i])
  {
    hide DecodeAll, InStep, Outgoing, Canonical, View, Before, ObjectCount, EncodedSoFar, PropsFit;
    ghost var fits := InStreamOrder(View(objs), order) && PropsFit(objs, propsOK);
    var prevGroup: u64, prevObject: u64, prevPriority: byte := 0, 0, 0;
    var havePrev, haveActual, descending := false, false, false;
    out, written := [], 0;
    StartEncoding(objs, expired, order, propsOK);
    for i := 0 to |objs|
      invariant fits ==>
          EncodedSoFar(objs, i, expired, out, EncState(prevGroup, prevObject, prevPriority, havePrev, haveActual),
                       order, propsOK)
      invariant written == ObjectCount(Outgoing(objs[..i], expired))
      invariant FieldsFit(objs) ==> forall i :: 0 <= i < |out| ==> Canonical(out[i])
    {
      var o := objs[i];
      CountOneMore(objs, i, expired);
      ghost var enc := EncState(prevGroup, prevObject, prevPriority, havePrev, haveActual);
      if fits {
        EncodeStep(objs, i, expired, out, enc, order, propsOK);
      }
      if !o.IsRangeMarker() && !o.IsStatusMarker() && expired(o) {
        o := UnknownRangeMarker(o.Loc());
      }
      if o.IsRangeMarker() {
        var flags := END_OF_UNKNOWN_RANGE;
        if o.endOfTimedOutRange {
          flags := END_OF_TIMED_OUT_RANGE;
        }
        var fo := FetchObject(flags, o.group, 0, o.obj, 0, [], []);
        MarkerCanonical(o);
        out := out + [fo];
        prevGroup, prevObject, havePrev := o.group, o.obj, true;
        continue;
      }
      if o.IsStatusMarker() {
        continue;
      }
      var flags: u64, groupDelta: u64, objectDelta: u64 := 0, 0, 0;
      if !havePrev {
        flags := flags + FLAG_GROUP_DELTA + FLAG_OBJECT_DELTA;
        groupDelta, objectDelta := o.group, o.obj;
      } else if o.group != prevGroup {
        if !descending && o.group < prevGroup {
          descending := true;
        } else if descending && o.group > prevGroup {
          descending := false;
        }
        flags := flags + FLAG_GROUP_DELTA + FLAG_OBJECT_DELTA;
        groupDelta := if descending then prevGroup - o.group - 1 else o.group - prevGroup - 1;
        objectDelta := o.obj;
      } else {
        if o.obj <= prevObject {
          NeverBefore(o, prevGroup, prevObject, order);
          return out, written, true;
        }
        if o.obj != prevObject + 1 {
          flags := flags + FLAG_OBJECT_DELTA;
          objectDelta := o.obj - prevObject;
        }
      }
      var subgroup: u64 := 0;
      if o.datagram {
        flags := flags + FLAG_DATAGRAM;
      } else {
        flags := flags + SUBGROUP_EXPLICIT;
        subgroup := o.subgroup;
      }
      var priority: byte := 0;
      if !haveActual || o.priority != prevPriority {
        flags := flags + FLAG_PRIORITY;
        priority := o.priority;
      }
      if |o.properties| > 0 {
        flags := flags + FLAG_PROPERTIES;
      }
      var fo := FetchObject(flags, groupDelta, subgroup, objectDelta, priority, o.properties, o.payload);
      assert fo == EncodeObject(o, enc);
      ObjectCanonical(o, enc);
      out := out + [fo];
      written := written + 1;
      prevGroup, prevObject, prevPriority, havePrev, haveActual := o.group, o.obj, o.priority, true, true;
    }
    failed := false;
    assert objs[..|objs|] == objs;
    if fits {
      FinishEncoding(objs, expired, out, EncState(prevGroup, prevObject, prevPriority, havePrev, haveActual), order,
                     propsOK);
    }
  }

  lemma {:induction false} FinishEncoding(
    objs: seq<CachedObject>, expired: CachedObject -> bool, out: seq<FetchObject>, enc: EncState,
    order: GroupOrder, propsOK: (seq<byte>, Location) -> bool)
    requires EncodedSoFar(objs, |objs|, expired, out, enc, order, propsOK)
    ensures DecodeAll(out, order, propsOK).Decoded?
    ensures DecodeAll(out, order, propsOK).ds == ReceivedAll(Outgoing(objs, expired))
  {
    assert objs[..|objs|] == objs;
  }

  lemma {:induction false} StartEncoding(
    objs: seq<CachedObject>, expired: CachedObject -> bool, order: GroupOrder, propsOK: (seq<byte>, Location) -> bool)
    ensures EncodedSoFar(objs, 0, expired, [], EncState(0, 0, 0, false, false), order, propsOK)
    ensures ObjectCount(Outgoing(objs[..0], expired)) == 0
  {
  }

  lemma {:induction false} NeverBefore(o: CachedObject, prevGroup: u64, prevObject: u64, order: GroupOrder)
    requires o.group == prevGroup && o.obj <= prevObject
    ensures !Before(Location(prevGroup, prevObject), o.Loc(), order)
  {
  }

  lemma {:induction false} MarkerCanonical(o: CachedObject)
    ensures Canonical(MarkerObject(o))
  {
  }

  lemma {:induction false} ObjectCanonical(o: CachedObject, enc: EncState)
    requires enc.havePrev && o.group == enc.prevGroup ==> enc.prevObject < o.obj
    ensures |o.properties| <= MAX_FIELD && |o.payload| <= MAX_FIELD ==> Canonical(EncodeObject(o, enc))
  {
    hide Has, SubgroupMode, MakeFlags;
    var newGroup := !enc.havePrev || o.group != enc.prevGroup;
    var newObject := newGroup || o.obj != enc.prevObject + 1;
    var priority := !enc.haveActual || o.priority != enc.prevPriority;
    FlagsMade(newGroup, newObject, o.datagram, priority, |o.properties| > 0);
  }

  // ---------------------------------------------------------------------------
  // Bytes, and a whole hop
  // ---------------------------------------------------------------------------

  function AppendAll(fos: seq<FetchObject>): seq<byte>
    requires forall i :: 0 <= i < |fos| ==> Canonical(fos[i])
  {
    if fos == [] then []
    else
      assert Canonical(fos[0]);
      AppendFetchObject(fos[0]) + AppendAll(fos[1..])
  }

  /** The objects of a stream up to its end, and whether it ended between objects. */
  function ParseAll(b: seq<byte>): (seq<FetchObject>, bool)
    decreases |b|
  {
    hide ParseFetchObject;
    match ParseFetchObject(b)
    case Eof => ([], true)
    case Ok(fo, rest) =>
      var (fos, clean) := ParseAll(rest);
      ([fo] + fos, clean)
    case _ => ([], false)
  }

  lemma {:induction false} ParseAllAppended(fos: seq<FetchObject>)
    requires forall i :: 0 <= i < |fos| ==> Canonical(fos[i])
    ensures ParseAll(AppendAll(fos)) == (fos, true)
  {
    hide ParseFetchObject, Canonical, AppendFetchObject;
    if fos != [] {
      FetchObjectRoundTrip(fos[0], AppendAll(fos[1..]));
      ParseAllAppended(fos[1..]);
      assert fos == [fos[0]] + fos[1..];
    }
  }
}
