/** Message Parameters (section 9.20): a count, then entries sorted by type, each a type delta and a value. */
module Params {
  import opened Uint64
  import opened Varint
  import opened Sorting
  import opened LocationFilters

  datatype Kind = VarintKind | ByteKind | BytesKind | LocationKind | FilterKind

  datatype Value =
    | VarintValue(number: u64)
    | ByteValue(octet: byte)
    | BytesValue(bytes: seq<byte>)
    | LocationValue(group: u64, obj: u64)
    | FilterValue(encoded: seq<byte>)

  datatype Parameter = Parameter(typ: u64, value: Value)

  /** The registered encoding of a parameter type. */
  function KindOf(t: u64): Option<Kind> {
    if t in {0x02, 0x04, 0x06, 0x08, 0x0A, 0x32} then Some(VarintKind)
    else if t in {0x10, 0x20, 0x22, 0x35} then Some(ByteKind)
    else if t in {0x03, 0x23, 0x25, 0x26, 0x27, 0x28, 0x29, 0x34} then Some(BytesKind)
    else if t == 0x09 then Some(LocationKind)
    else if t == 0x21 then Some(FilterKind)
    else None
  }

  /** A length and that many bytes, bounded only by what the message holds. */
  function ReadField(b: seq<byte>): Read<seq<byte>> {
    match ReadVarint(b)
    case Ok(n, rest) => if n > |rest| then Truncated else Ok(rest[..n], rest[n..])
    case _ => Truncated
  }

  lemma {:induction false} FieldRoundTrip(p: seq<byte>, rest: seq<byte>)
    requires |p| <= MAX_U64
    ensures ReadField(AppendBytes(p) + rest) == Ok(p, rest)
  {
    hide AppendVarint, ReadVarint;
    assert AppendBytes(p) + rest == AppendVarint(|p|) + (p + rest);
    VarintRoundTrip(|p|, p + rest);
    assert (p + rest)[..|p|] == p && (p + rest)[|p|..] == rest;
  }

  function AppendValue(v: Value): seq<byte>
    requires v.BytesValue? ==> |v.bytes| <= MAX_U64
  {
    match v
    case VarintValue(n) => AppendVarint(n)
    case ByteValue(b) => [b]
    case BytesValue(b) => AppendBytes(b)
    case LocationValue(g, o) => AppendVarint(g) + AppendVarint(o)
    case FilterValue(b) => b
  }

  function ParseValue(t: u64, b: seq<byte>): Read<Value>
  {
    var kind := KindOf(t);
    if kind.None? then Invalid
    else match kind.value
      case VarintKind =>
        (match ReadVarint(b)
         case Ok(n, rest) => Ok(VarintValue(n), rest)
         case _ => Truncated)
      case ByteKind =>
        (match ReadByte(b)
         case Ok(x, rest) => Ok(ByteValue(x), rest)
         case _ => Truncated)
      case BytesKind =>
        (match ReadField(b)
         case Ok(x, rest) => Ok(BytesValue(x), rest)
         case _ => Truncated)
      case LocationKind =>
        (match ReadVarint(b)
         case Ok(g, rest) =>
           (match ReadVarint(rest)
            case Ok(o, rest') => Ok(LocationValue(g, o), rest')
            case _ => Truncated)
         case _ => Truncated)
      case FilterKind =>
        (match ParseFilter(b)
         case Ok(f, rest) => Ok(FilterValue(AppendFilter(f)), rest)
         case Invalid => Invalid
         case _ => Truncated)
  }

  /** A parameter as the constructors and the parser build it. */
  ghost predicate Encodable(p: Parameter) {
    match p.value
    case VarintValue(_) => KindOf(p.typ) == Some(VarintKind)
    case ByteValue(_) => KindOf(p.typ) == Some(ByteKind)
    case BytesValue(b) => KindOf(p.typ) == Some(BytesKind) && |b| <= MAX_U64
    case LocationValue(_, _) => KindOf(p.typ) == Some(LocationKind)
    case FilterValue(b) => KindOf(p.typ) == Some(FilterKind) && exists f :: CanonicalFilter(f) && b == AppendFilter(f)
  }

  lemma {:induction false} ValueRoundTrip(p: Parameter, rest: seq<byte>)
    requires Encodable(p)
    ensures ParseValue(p.typ, AppendValue(p.value) + rest) == Ok(p.value, rest)
  {
    hide AppendVarint, ReadVarint, KindOf, ReadField, AppendBytes, ParseFilter, AppendFilter;
    match p.value
    case VarintValue(n) => VarintRoundTrip(n, rest);
    case ByteValue(b) =>
    case BytesValue(b) => FieldRoundTrip(b, rest);
    case LocationValue(g, o) =>
      VarintRoundTrip(g, AppendVarint(o) + rest);
      VarintRoundTrip(o, rest);
      assert AppendVarint(g) + AppendVarint(o) + rest == AppendVarint(g) + (AppendVarint(o) + rest);
    case FilterValue(b) =>
      var f :| CanonicalFilter(f) && b == AppendFilter(f);
      FilterRoundTrip(f, rest);
  }

  // ---------------------------------------------------------------------------
  // Lists
  // ---------------------------------------------------------------------------

  ghost predicate AllEncodable(ps: seq<Parameter>) {
    forall i :: 0 <= i < |ps| ==> Encodable(ps[i])
  }

  /** Entries in ascending order of type, after an entry of type prev. */
  function AppendEntries(ps: seq<Parameter>, prev: u64): seq<byte>
    requires AllEncodable(ps)
  {
    if ps == [] then []
    else
      assert Encodable(ps[0]);
      AppendVarint(Wrap(ps[0].typ - prev)) + AppendValue(ps[0].value) + AppendEntries(ps[1..], ps[0].typ)
  }

  function ParseEntries(b: seq<byte>, count: nat, prev: u64): Read<seq<Parameter>>
    decreases count
  {
    if count == 0 then Ok([], b)
    else
      match ReadVarint(b)
      case Ok(delta, rest) =>
        if delta > MAX_U64 - prev then Invalid
        else
          (match ParseValue(prev + delta, rest)
           case Ok(v, rest') =>
             (match ParseEntries(rest', count - 1, prev + delta)
              case Ok(ps, end) => Ok([Parameter(prev + delta, v)] + ps, end)
              case Eof => Eof
              case Truncated => Truncated
              case Invalid => Invalid)
           case Invalid => Invalid
           case _ => Truncated)
      case _ => Truncated
  }

  function TypeOf(p: Parameter): int {
    p.typ
  }

  function AppendParams(ps: seq<Parameter>): seq<byte>
    requires |ps| <= MAX_U64 && AllEncodable(ps)
  {
    StableSortSpec(ps, TypeOf);
    SortedEncodable(ps);
    AppendVarint(|ps|) + AppendEntries(StableSort(ps, TypeOf), 0)
  }

  function ParseParams(b: seq<byte>): Read<seq<Parameter>> {
    match ReadVarint(b)
    case Ok(count, rest) => ParseEntries(rest, count, 0)
    case _ => Truncated
  }

  lemma {:induction false} SortedEncodable(ps: seq<Parameter>)
    requires AllEncodable(ps)
    ensures AllEncodable(StableSort(ps, TypeOf))
  {
    StableSortSpec(ps, TypeOf);
    var s := StableSort(ps, TypeOf);
    forall i | 0 <= i < |s|
      ensures Encodable(s[i])
    {
      assert s[i] in multiset(s);
      assert s[i] in multiset(ps);
    }
  }

  ghost predicate AscendsFrom(ps: seq<Parameter>, prev: u64) {
    && (ps != [] ==> prev <= ps[0].typ)
    && SortedBy(ps, TypeOf)
  }

  lemma {:induction false} EntriesRoundTrip(ps: seq<Parameter>, prev: u64, rest: seq<byte>)
    requires AllEncodable(ps)
    requires AscendsFrom(ps, prev)
    ensures ParseEntries(AppendEntries(ps, prev) + rest, |ps|, prev) == Ok(ps, rest)
    decreases |ps|
  {
    hide AppendVarint, ReadVarint, ParseValue, AppendValue, KindOf;
    if ps == [] {
      assert AppendEntries(ps, prev) + rest == rest;
    } else {
      var p, more := ps[0], ps[1..];
      var tail := AppendEntries(more, p.typ) + rest;
      assert AppendEntries(ps, prev) + rest
          == AppendVarint(p.typ - prev) + (AppendValue(p.value) + tail);
      VarintRoundTrip(p.typ - prev, AppendValue(p.value) + tail);
      ValueRoundTrip(p, tail);
      EntriesRoundTrip(more, p.typ, rest);
      assert [Parameter(p.typ, p.value)] + more == ps;
    }
  }

  /** Parsing an appended list returns its stable sort by type, whatever follows it. */
  lemma {:induction false} ParamsRoundTrip(ps: seq<Parameter>, rest: seq<byte>)
    requires |ps| <= MAX_U64 && AllEncodable(ps)
    ensures ParseParams(AppendParams(ps) + rest) == Ok(StableSort(ps, TypeOf), rest)
  {
    StableSortSpec(ps, TypeOf);
    SortedEncodable(ps);
    var s := StableSort(ps, TypeOf);
    assert |s| == |ps| by {
      assert |multiset(s)| == |multiset(ps)|;
    }
    assert AppendParams(ps) + rest == AppendVarint(|ps|) + (AppendEntries(s, 0) + rest);
    VarintRoundTrip(|ps|, AppendEntries(s, 0) + rest);
    EntriesRoundTrip(s, 0, rest);
  }

  // ---------------------------------------------------------------------------
  // The loops that write and read a list
  // ---------------------------------------------------------------------------

  /** The type a delta after ps counts from. */
  function LastType(ps: seq<Parameter>, prev: u64): u64 {
    if ps == [] then prev else ps[|ps| - 1].typ
  }

  /** One entry and what is written after it. */
  lemma {:induction false} EntriesCons(p: Parameter, ps: seq<Parameter>, prev: u64)
    requires AllEncodable([p] + ps) && AllEncodable(ps)
    requires p.value.BytesValue? ==> |p.value.bytes| <= MAX_U64
    ensures AppendEntries([p] + ps, prev)
      == AppendVarint(Wrap(p.typ - prev)) + AppendValue(p.value) + AppendEntries(ps, p.typ)
  {
    hide AppendVarint, AppendValue, Encodable, Wrap;
    assert ([p] + ps)[1..] == ps;
  }

  lemma {:induction false} EntriesOne(p: Parameter, prev: u64)
    requires Encodable(p) && AllEncodable([p]) && (p.value.BytesValue? ==> |p.value.bytes| <= MAX_U64)
    ensures AppendEntries([p], prev) == AppendVarint(Wrap(p.typ - prev)) + AppendValue(p.value)
  {
    hide AppendVarint, AppendValue, Encodable, Wrap;
    assert [p] == [p] + [];
    EntriesCons(p, [], prev);
    NoEntries(p.typ);
    hide *;
    Regroup([], [], AppendVarint(Wrap(p.typ - prev)), AppendValue(p.value));
  }

  lemma {:induction false} EntriesSnoc(ps: seq<Parameter>, p: Parameter, prev: u64)
    requires Encodable(p) && AllEncodable(ps)
    requires AllEncodable(ps + [p]) && (p.value.BytesValue? ==> |p.value.bytes| <= MAX_U64)
    ensures AppendEntries(ps + [p], prev)
      == AppendEntries(ps, prev) + AppendVarint(Wrap(p.typ - LastType(ps, prev))) + AppendValue(p.value)
    decreases |ps|
  {
    hide AppendVarint, AppendValue, Encodable, Wrap, AppendEntries, AllEncodable;
    var delta, value := AppendVarint(Wrap(p.typ - LastType(ps, prev))), AppendValue(p.value);
    if ps == [] {
      assert ps + [p] == [p];
      EntriesOne(p, prev);
      NoEntries(prev);
      Regroup([], [], delta, value);
    } else {
      var more := ps[1..];
      EncodableTail(ps, p);
      EncodableBytes(ps[0]);
      EntriesSnoc(more, p, ps[0].typ);
      assert ps == [ps[0]] + more && ps + [p] == [ps[0]] + (more + [p]);
      EntriesCons(ps[0], more, prev);
      EntriesCons(ps[0], more + [p], prev);
      var head := AppendVarint(Wrap(ps[0].typ - prev)) + AppendValue(ps[0].value);
      Regroup(head, AppendEntries(more, ps[0].typ), delta, value);
    }
  }

  lemma {:induction false} EncodableTail(ps: seq<Parameter>, p: Parameter)
    requires ps != [] && AllEncodable(ps) && Encodable(p)
    ensures Encodable(ps[0]) && AllEncodable(ps[1..]) && AllEncodable(ps[1..] + [p])
  {
    hide Encodable;
  }

  lemma {:induction false} NoEntries(prev: u64)
    ensures AppendEntries([], prev) == []
  {
  }

  lemma {:induction false} Regroup(a: seq<byte>, b: seq<byte>, c: seq<byte>, d: seq<byte>)
    ensures a + (b + c + d) == (a + b) + c + d
    ensures [] + c + d == c + d == c + d + []
  {
  }

  method WriteParams(ps: seq<Parameter>) returns (b: seq<byte>)
    requires |ps| <= MAX_U64 && AllEncodable(ps)
    ensures b == AppendParams(ps)
  {
    hide AppendVarint, AppendValue, Encodable, StableSort;
    var sorted := StableSort(ps, TypeOf);
    SortedEncodable(ps);
    b := AppendVarint(|ps|);
    var prev: u64 := 0;
    var i := 0;
    while i < |sorted|
      invariant 0 <= i <= |sorted|
      invariant prev == LastType(sorted[..i], 0)
      invariant AllEncodable(sorted[..i])
      invariant b == AppendVarint(|ps|) + AppendEntries(sorted[..i], 0)
    {
      var p := sorted[i];
      assert Encodable(p);
      EncodableBytes(p);
      assert sorted[..i + 1] == sorted[..i] + [p];
      EntriesSnoc(sorted[..i], p, 0);
      b := b + AppendVarint(Wrap(p.typ - prev));
      b := b + AppendValue(p.value);
      prev := p.typ;
      i := i + 1;
    }
    assert sorted[..i] == sorted;
  }

  lemma {:induction false} EncodableBytes(p: Parameter)
    requires Encodable(p)
    ensures p.value.BytesValue? ==> |p.value.bytes| <= MAX_U64
  {
  }

  function Prepended(before: seq<Parameter>, r: Read<seq<Parameter>>): Read<seq<Parameter>> {
    if r.Ok? then Ok(before + r.value, r.rest) else r
  }

  method ReadParams(b: seq<byte>) returns (r: Read<seq<Parameter>>)
    ensures r == ParseParams(b)
  {
    hide ReadVarint, ParseValue;
    var count := ReadVarint(b);
    if !count.Ok? {
      return Truncated;
    }
    var rest := count.rest;
    var out: seq<Parameter> := [];
    var prev: u64 := 0;
    var i := 0;
    assert ParseParams(b) == Prepended(out, ParseEntries(rest, count.value, 0)) by {
      var all := ParseEntries(rest, count.value, 0);
      assert all.Ok? ==> [] + all.value == all.value;
    }
    while i < count.value
      invariant 0 <= i <= count.value
      invariant ParseParams(b) == Prepended(out, ParseEntries(rest, count.value - i, prev))
    {
      var delta := ReadVarint(rest);
      if !delta.Ok? {
        return Truncated;
      }
      if delta.value > MAX_U64 - prev {
        return Invalid;
      }
      var v := ParseValue(prev + delta.value, delta.rest);
      if v.Invalid? {
        return Invalid;
      }
      if !v.Ok? {
        return Truncated;
      }
      prev := prev + delta.value;
      ghost var tail := ParseEntries(v.rest, count.value - i - 1, prev);
      assert tail.Ok? ==>
        out + ([Parameter(prev, v.value)] + tail.value) == (out + [Parameter(prev, v.value)]) + tail.value;
      out := out + [Parameter(prev, v.value)];
      rest := v.rest;
      i := i + 1;
    }
    assert out + [] == out;
    return Ok(out, rest);
  }

  /** What a parameter of type t is registered to carry: numbers of two kinds, bytes, a Location or a filter. */
  lemma {:induction false} KindExact(t: u64, b: seq<byte>)
    ensures ParseValue(t, b).Invalid? ==> !Registered(t) || t == 0x21
    ensures !Registered(t) ==> ParseValue(t, b).Invalid?
    ensures ParseValue(t, b).Ok? ==>
      var v := ParseValue(t, b).value;
      && (v.VarintValue? <==> t in {0x02, 0x04, 0x06, 0x08, 0x0A, 0x32})
      && (v.ByteValue? <==> t in {0x10, 0x20, 0x22, 0x35})
      && (v.BytesValue? <==> t in {0x03, 0x23, 0x25, 0x26, 0x27, 0x28, 0x29, 0x34})
      && (v.LocationValue? <==> t == 0x09)
      && (v.FilterValue? <==> t == 0x21)
  {
    hide ReadVarint, ParseFilter;
  }

  predicate Registered(t: u64) {
    || 2 <= t <= 4 || t in {0x06, 0x08, 0x09, 0x0A, 0x10, 0x32, 0x34, 0x35}
    || (0x20 <= t <= 0x29 && t != 0x24)
  }
}
