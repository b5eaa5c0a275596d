/** Range Filters on the wire (section 3.3.2): a SetID, perhaps a Property Type, then delta-encoded ranges. */
module RangeFilterCodec {
  import opened Uint64
  import opened Varint

  const SUBGROUP_FILTER: u64 := 0x25
  const OBJECTID_FILTER: u64 := 0x26
  const PRIORITY_FILTER: u64 := 0x27
  const OBJECT_PROPERTY_FILTER: u64 := 0x28
  const TRACK_PROPERTY_FILTER: u64 := 0x29

  /** An inclusive band of values; an open one has no end. */
  datatype Range = Range(start: u64, end: u64, open: bool)

  datatype RangeFilter = RangeFilter(typ: u64, setID: byte, propertyType: u64, ranges: seq<Range>)

  datatype Parsed = Filter(filter: RangeFilter) | BadFilter

  predicate HasPropertyType(t: u64) {
    t == OBJECT_PROPERTY_FILTER || t == TRACK_PROPERTY_FILTER
  }

  // ---------------------------------------------------------------------------
  // The codec
  // ---------------------------------------------------------------------------

  /** Ranges after one ending at prevEnd; an open range ends the list, whatever follows it. */
  function AppendRanges(rs: seq<Range>, prevEnd: u64): seq<byte> {
    if rs == [] then []
    else if rs[0].open then AppendVarint(Wrap(rs[0].start - prevEnd))
    else
      AppendVarint(Wrap(rs[0].start - prevEnd))
      + (AppendVarint(Wrap(rs[0].end - rs[0].start)) + AppendRanges(rs[1..], rs[0].end))
  }

  function AppendHeader(f: RangeFilter): seq<byte> {
    [f.setID] + (if HasPropertyType(f.typ) then AppendVarint(f.propertyType) else [])
  }

  function AppendRangeFilter(f: RangeFilter): seq<byte> {
    AppendHeader(f) + AppendRanges(f.ranges, 0)
  }

  function ParseRanges(b: seq<byte>, prevEnd: u64): Option<seq<Range>>
    decreases |b|
  {
    if b == [] then Some([])
    else
      match ReadVarint(b)
      case Ok(sd, rest) =>
        if sd > MAX_U64 - prevEnd then None
        else if rest == [] then Some([Range(prevEnd + sd, 0, true)])
        else
          var start := prevEnd + sd;
          (match ReadVarint(rest)
           case Ok(ed, rest') =>
             if ed > MAX_U64 - start then None
             else
               var more := ParseRanges(rest', start + ed);
               if more.None? then None else Some([Range(start, start + ed, false)] + more.value)
           case _ => None)
      case _ => None
  }

  function ParseRangeFilter(t: u64, raw: seq<byte>): Parsed {
    if raw == [] then BadFilter
    else if HasPropertyType(t) then
      match ReadVarint(raw[1..])
      case Ok(pt, rest) => WithRanges(t, raw[0], pt, ParseRanges(rest, 0))
      case _ => BadFilter
    else WithRanges(t, raw[0], 0, ParseRanges(raw[1..], 0))
  }

  function WithRanges(t: u64, setID: byte, pt: u64, rs: Option<seq<Range>>): Parsed {
    if rs.None? then BadFilter else Filter(RangeFilter(t, setID, pt, rs.value))
  }

  /** Ranges in order without overlap from prevEnd on, each with an end unless it is the last. */
  predicate Ascending(rs: seq<Range>, prevEnd: u64) {
    rs != [] ==>
      && prevEnd <= rs[0].start
      && (if rs[0].open then |rs| == 1 && rs[0].end == 0
          else rs[0].start <= rs[0].end && Ascending(rs[1..], rs[0].end))
  }

  predicate Canonical(f: RangeFilter) {
    Ascending(f.ranges, 0) && (HasPropertyType(f.typ) || f.propertyType == 0)
  }

  /** One closed range and what is written after it parse as that range and what follows parses as. */
  lemma {:induction false} RangeThenMore(rg: Range, prevEnd: u64, more: seq<byte>)
    requires prevEnd <= rg.start <= rg.end && !rg.open
    ensures var b := AppendVarint(rg.start - prevEnd) + (AppendVarint(rg.end - rg.start) + more);
      ParseRanges(b, prevEnd) == After([rg], ParseRanges(more, rg.end))
  {
    hide AppendVarint, ReadVarint;
    var end := AppendVarint(rg.end - rg.start) + more;
    VarintRoundTrip(rg.start - prevEnd, end);
    VarintRoundTrip(rg.end - rg.start, more);
    assert end != [] by {
      assert ReadVarint(end).Ok?;
    }
    assert Range(rg.start, rg.end, false) == rg;
  }

  lemma {:induction false} OpenRange(start: u64, prevEnd: u64)
    requires prevEnd <= start
    ensures ParseRanges(AppendVarint(start - prevEnd), prevEnd) == Some([Range(start, 0, true)])
  {
    hide AppendVarint, ReadVarint;
    VarintRoundTrip(start - prevEnd, []);
    assert AppendVarint(start - prevEnd) + [] == AppendVarint(start - prevEnd);
  }

  lemma {:induction false} RangesRoundTrip(rs: seq<Range>, prevEnd: u64)
    requires Ascending(rs, prevEnd)
    ensures ParseRanges(AppendRanges(rs, prevEnd), prevEnd) == Some(rs)
    decreases |rs|
  {
    hide AppendVarint, ParseRanges;
    if rs == [] {
      NoRanges(prevEnd);
    } else if rs[0].open {
      OpenRange(rs[0].start, prevEnd);
      assert [Range(rs[0].start, 0, true)] == rs;
    } else {
      RangesRoundTrip(rs[1..], rs[0].end);
      RangeThenMore(rs[0], prevEnd, AppendRanges(rs[1..], rs[0].end));
      assert [rs[0]] + rs[1..] == rs;
    }
  }

  lemma {:induction false} NoRanges(prevEnd: u64)
    ensures ParseRanges([], prevEnd) == Some([])
  {
  }

  /** Every accepted blob yields ranges in order, without overlap or overflow. */
  lemma {:induction false} ParsedRangesAscend(b: seq<byte>, prevEnd: u64)
    ensures var r := ParseRanges(b, prevEnd); r.Some? ==> Ascending(r.value, prevEnd)
    decreases |b|
  {
    hide ReadVarint;
    if b != [] {
      var first := ReadVarint(b);
      if first.Ok? && first.value <= MAX_U64 - prevEnd && first.rest != [] {
        var second := ReadVarint(first.rest);
        if second.Ok? && second.value <= MAX_U64 - (prevEnd + first.value) {
          var end := prevEnd + first.value + second.value;
          ParsedRangesAscend(second.rest, end);
          var r := ParseRanges(b, prevEnd);
          if r.Some? {
            assert r.value[1..] == ParseRanges(second.rest, end).value;
          }
        }
      }
    }
  }

  lemma {:induction false} ParsedIsCanonical(t: u64, raw: seq<byte>)
    ensures var r := ParseRangeFilter(t, raw); r.Filter? ==> Canonical(r.filter) && r.filter.typ == t
  {
    hide ReadVarint;
    if raw != [] {
      ParsedRangesAscend(raw[1..], 0);
      if HasPropertyType(t) && ReadVarint(raw[1..]).Ok? {
        ParsedRangesAscend(ReadVarint(raw[1..]).rest, 0);
      }
    }
  }

  /** A filter parses back from what it is written as exactly if its ranges ascend. */
  lemma {:induction false} FilterRoundTrip(f: RangeFilter)
    ensures ParseRangeFilter(f.typ, AppendRangeFilter(f)) == Filter(f) <==> Canonical(f)
  {
    hide AppendVarint, ReadVarint, ParseRanges, AppendRanges;
    var raw := AppendRangeFilter(f);
    ParsedIsCanonical(f.typ, raw);
    if Canonical(f) {
      var rs := AppendRanges(f.ranges, 0);
      RangesRoundTrip(f.ranges, 0);
      if HasPropertyType(f.typ) {
        assert raw[1..] == AppendVarint(f.propertyType) + rs;
        VarintRoundTrip(f.propertyType, rs);
      } else {
        assert raw[1..] == rs;
      }
    }
  }

  // ---------------------------------------------------------------------------
  // The loops that write and read the ranges
  // ---------------------------------------------------------------------------

  method WriteRangeFilter(f: RangeFilter) returns (b: seq<byte>)
    ensures b == AppendRangeFilter(f)
  {
    hide AppendVarint;
    b := [f.setID];
    if HasPropertyType(f.typ) {
      b := b + AppendVarint(f.propertyType);
    }
    var prevEnd: u64 := 0;
    var i := 0;
    while i < |f.ranges|
      invariant 0 <= i <= |f.ranges|
      invariant b + AppendRanges(f.ranges[i..], prevEnd) == AppendRangeFilter(f)
    {
      var rg := f.ranges[i];
      assert f.ranges[i..][1..] == f.ranges[i + 1..];
      ghost var before := b;
      var start := AppendVarint(Wrap(rg.start - prevEnd));
      b := b + start;
      if rg.open {
        return;
      }
      var end := AppendVarint(Wrap(rg.end - rg.start));
      b := b + end;
      ghost var more := AppendRanges(f.ranges[i + 1..], rg.end);
      assert before + (start + (end + more)) == before + start + end + more;
      prevEnd := rg.end;
      i := i + 1;
    }
    assert b + [] == b;
  }

  method ReadRanges(b: seq<byte>) returns (r: Option<seq<Range>>)
    ensures r == ParseRanges(b, 0)
  {
    hide ReadVarint;
    var rest := b;
    var out: seq<Range> := [];
    var prevEnd: u64 := 0;
    assert ParseRanges(b, 0) == After(out, ParseRanges(rest, prevEnd)) by {
      AfterNothing(ParseRanges(b, 0));
    }
    while rest != []
      invariant ParseRanges(b, 0) == After(out, ParseRanges(rest, prevEnd))
      decreases |rest|
    {
      var sd := ReadVarint(rest);
      if !sd.Ok? || sd.value > MAX_U64 - prevEnd {
        return None;
      }
      var start := prevEnd + sd.value;
      if sd.rest == [] {
        return Some(out + [Range(start, 0, true)]);
      }
      var ed := ReadVarint(sd.rest);
      if !ed.Ok? || ed.value > MAX_U64 - start {
        return None;
      }
      ghost var more := ParseRanges(ed.rest, start + ed.value);
      assert more.Some? ==>
        out + ([Range(start, start + ed.value, false)] + more.value)
        == (out + [Range(start, start + ed.value, false)]) + more.value;
      out := out + [Range(start, start + ed.value, false)];
      prevEnd := start + ed.value;
      rest := ed.rest;
    }
    assert out + [] == out;
    return Some(out);
  }

  function After(before: seq<Range>, r: Option<seq<Range>>): Option<seq<Range>> {
    if r.None? then None else Some(before + r.value)
  }

  lemma {:induction false} AfterNothing(r: Option<seq<Range>>)
    ensures After([], r) == r
  {
    assert r.Some? ==> [] + r.value == r.value;
  }

  // ---------------------------------------------------------------------------
  // Validation and matching
  // ---------------------------------------------------------------------------

  predicate Valid(f: RangeFilter) {
    && (HasPropertyType(f.typ) ==> f.propertyType % 2 == 0)
    && (forall i :: 0 <= i < |f.ranges| ==>
          && (f.ranges[i].open ==> i == |f.ranges| - 1)
          && (f.typ == PRIORITY_FILTER ==> f.ranges[i].start <= 255 && (f.ranges[i].open || f.ranges[i].end <= 255)))
  }

  predicate InRange(rg: Range, v: u64) {
    rg.start <= v && (rg.open || v <= rg.end)
  }

  predicate MatchesValue(f: RangeFilter, v: u64) {
    exists i :: 0 <= i < |f.ranges| && InRange(f.ranges[i], v)
  }

  method MatchValue(f: RangeFilter, v: u64) returns (ok: bool)
    ensures ok <==> MatchesValue(f, v)
  {
    var i := 0;
    while i < |f.ranges|
      invariant 0 <= i <= |f.ranges|
      invariant forall j :: 0 <= j < i ==> !InRange(f.ranges[j], v)
    {
      var rg := f.ranges[i];
      if rg.open {
        if v >= rg.start {
          return true;
        }
      } else if v >= rg.start && v <= rg.end {
        return true;
      }
      i := i + 1;
    }
    return false;
  }

  /** On the wire exactly the two property filters have a Property Type between SetID and ranges. */
  lemma {:induction false} HeaderExact(f: RangeFilter)
    ensures AppendHeader(f) == if f.typ in {0x28, 0x29} then [f.setID] + AppendVarint(f.propertyType) else [f.setID]
  {
    hide AppendVarint;
    assert [f.setID] + [] == [f.setID];
  }

  /** i is a range no filter of f's type may have: open but not the last, or past the largest priority. */
  predicate BadRange(f: RangeFilter, i: nat)
    requires i < |f.ranges|
  {
    || (f.ranges[i].open && i + 1 < |f.ranges|)
    || (f.typ == 0x27 && (f.ranges[i].start > 255 || (!f.ranges[i].open && f.ranges[i].end > 255)))
  }

  /** A filter is refused exactly for an odd Property Type, an open range before the last, or a priority above 255. */
  lemma {:induction false} RefusedExact(f: RangeFilter)
    ensures !Valid(f) <==>
      (f.typ in {0x28, 0x29} && f.propertyType % 2 == 1) || exists i :: 0 <= i < |f.ranges| && BadRange(f, i)
  {
    if i :| 0 <= i < |f.ranges| && BadRange(f, i) {
      assert f.ranges[i] == f.ranges[i];
    }
    if !Valid(f) && !(f.typ in {0x28, 0x29} && f.propertyType % 2 == 1) {
      var i :| 0 <= i < |f.ranges|
        && !((f.ranges[i].open ==> i == |f.ranges| - 1)
             && (f.typ == PRIORITY_FILTER ==>
                   f.ranges[i].start <= 255 && (f.ranges[i].open || f.ranges[i].end <= 255)));
      assert BadRange(f, i);
    }
  }
}
