/** Location Filters (section 9.20.9), which delimit themselves: the type tells how many numbers follow. */
module LocationFilters {
  import opened Uint64
  import opened Varint
  import opened Locations

  const FILTER_NONE: u64 := 0
  const FILTER_RELATIVE_START: u64 := 1
  const FILTER_ABSOLUTE_START: u64 := 2
  const FILTER_GROUP_END: u64 := 3
  const FILTER_RANGE: u64 := 4
  const FILTER_NEXT_OBJECT: u64 := 5

  datatype LocationFilter = LocationFilter(
    typ: u64, startGroup: u64, startObject: u64, endGroupDelta: u64, endObject: u64
  )

  /** How many fields follow a type, if it is defined. */
  function FieldCount(t: u64): Option<nat> {
    if t == FILTER_NONE || t == FILTER_NEXT_OBJECT then Some(0)
    else if t == FILTER_RELATIVE_START then Some(1)
    else if t == FILTER_ABSOLUTE_START then Some(2)
    else if t == FILTER_GROUP_END then Some(3)
    else if t == FILTER_RANGE then Some(4)
    else None
  }

  function Fields(f: LocationFilter): (r: seq<u64>)
    ensures |r| == 4
  {
    [f.startGroup, f.startObject, f.endGroupDelta, f.endObject]
  }

  function AppendFields(vs: seq<u64>): seq<byte> {
    if vs == [] then [] else AppendVarint(vs[0]) + AppendFields(vs[1..])
  }

  function AppendFilter(f: LocationFilter): seq<byte> {
    var n := FieldCount(f.typ);
    AppendVarint(f.typ) + AppendFields(if n.None? || n.value > 4 then [] else Fields(f)[..n.value])
  }

  function ParseFields(b: seq<byte>, n: nat): (r: Read<seq<u64>>)
    ensures r.Ok? ==> |r.value| == n
    decreases n
  {
    if n == 0 then Ok([], b)
    else
      match ReadVarint(b)
      case Ok(v, rest) =>
        (match ParseFields(rest, n - 1)
         case Ok(vs, end) => Ok([v] + vs, end)
         case _ => Truncated)
      case _ => Truncated
  }

  function FromFields(t: u64, vs: seq<u64>): LocationFilter {
    var at := (i: nat) => if i < |vs| then vs[i] else 0;
    LocationFilter(t, at(0), at(1), at(2), at(3))
  }

  function ParseFilter(b: seq<byte>): Read<LocationFilter> {
    match ReadVarint(b)
    case Ok(t, rest) =>
      var n := FieldCount(t);
      if n.None? then Invalid
      else
        (match ParseFields(rest, n.value)
         case Ok(vs, end) => Ok(FromFields(t, vs), end)
         case _ => Truncated)
    case _ => Truncated
  }

  /** A defined type, and zero in the fields it does not carry. */
  predicate CanonicalFilter(f: LocationFilter) {
    FieldCount(f.typ).Some? && forall i :: FieldCount(f.typ).value <= i < 4 ==> Fields(f)[i] == 0
  }

  lemma {:induction false} FieldsRoundTrip(vs: seq<u64>, rest: seq<byte>)
    ensures ParseFields(AppendFields(vs) + rest, |vs|) == Ok(vs, rest)
    decreases |vs|
  {
    hide AppendVarint, ReadVarint;
    if vs == [] {
      assert AppendFields(vs) + rest == rest;
    } else {
      var tail := AppendFields(vs[1..]) + rest;
      assert AppendFields(vs) + rest == AppendVarint(vs[0]) + tail;
      VarintRoundTrip(vs[0], tail);
      FieldsRoundTrip(vs[1..], rest);
      assert [vs[0]] + vs[1..] == vs;
    }
  }

  /** A filter parses back, leaving what follows it, exactly if it is canonical. */
  lemma {:induction false} FilterRoundTrip(f: LocationFilter, rest: seq<byte>)
    ensures ParseFilter(AppendFilter(f) + rest) == Ok(f, rest) <==> CanonicalFilter(f)
  {
    hide AppendVarint, ReadVarint, AppendFields, ParseFields;
    var n := FieldCount(f.typ);
    var vs := if n.None? then [] else Fields(f)[..n.value];
    assert AppendFilter(f) + rest == AppendVarint(f.typ) + (AppendFields(vs) + rest);
    VarintRoundTrip(f.typ, AppendFields(vs) + rest);
    FieldsRoundTrip(vs, rest);
    if n.Some? {
      var g := FromFields(f.typ, vs);
      assert ParseFilter(AppendFilter(f) + rest) == Ok(g, rest);
      assert forall i :: 0 <= i < n.value ==> Fields(g)[i] == Fields(f)[i];
      assert forall i :: n.value <= i < 4 ==> Fields(g)[i] == 0;
      if CanonicalFilter(f) {
        assert Fields(g) == Fields(f);
        assert Fields(f)[0] == f.startGroup && Fields(f)[1] == f.startObject;
        assert Fields(f)[2] == f.endGroupDelta && Fields(f)[3] == f.endObject;
      }
    }
  }

  /** The numbers a filter has on the wire after its type, if the type is defined. */
  function WireFields(f: LocationFilter): Option<seq<u64>> {
    match f.typ
    case 0 => Some([])
    case 1 => Some([f.startGroup])
    case 2 => Some([f.startGroup, f.startObject])
    case 3 => Some([f.startGroup, f.startObject, f.endGroupDelta])
    case 4 => Some([f.startGroup, f.startObject, f.endGroupDelta, f.endObject])
    case 5 => Some([])
    case _ => None
  }

  /** What each of the six types of filter carries on the wire, and that no other type is one. */
  lemma {:induction false} FilterExact(f: LocationFilter, rest: seq<byte>)
    ensures WireFields(f).Some? ==> AppendFilter(f) == AppendVarint(f.typ) + AppendFields(WireFields(f).value)
    ensures WireFields(f).None? <==> ParseFilter(AppendVarint(f.typ) + rest).Invalid?
    ensures CanonicalFilter(f) <==>
      && f.typ <= 5
      && (f.typ in {0, 5} ==> f.startGroup == 0)
      && (f.typ in {0, 1, 5} ==> f.startObject == 0)
      && (f.typ in {0, 1, 2, 5} ==> f.endGroupDelta == 0)
      && (f.typ != 4 ==> f.endObject == 0)
  {
    hide AppendVarint, ReadVarint, AppendFields, ParseFields;
    VarintRoundTrip(f.typ, rest);
    if WireFields(f).Some? {
      assert WireFields(f).value == Fields(f)[..FieldCount(f.typ).value];
    }
    if CanonicalFilter(f) {
      assert FieldCount(f.typ).value <= 0 ==> Fields(f)[0] == 0;
      assert FieldCount(f.typ).value <= 1 ==> Fields(f)[1] == 0;
      assert FieldCount(f.typ).value <= 2 ==> Fields(f)[2] == 0;
      assert FieldCount(f.typ).value <= 3 ==> Fields(f)[3] == 0;
    }
  }
}
