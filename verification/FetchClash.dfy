/** A capped descending response whose answer contradicts itself, worked through to what the relay sends. */
module FetchClash {
  import opened Uint64
  import opened Sorting
  import opened Locations
  import opened FetchMeaning
  import opened FetchRanges
  import opened FetchElements
  import opened FetchAnswer
  import opened FetchStitch
  import opened FetchHop

  /** The markers of the clash below, in the order a response carries them before and after merging. */
  function ClashMarkers(): seq<CachedObject> {
    var top, middle := Location(5, 10), Location(4, MAX_U64);
    [UnknownRangeMarker(top), TimedOutRangeMarker(top), UnknownRangeMarker(middle), TimedOutRangeMarker(middle),
     TimedOutRangeMarker(Location(3, 2)), UnknownRangeMarker(Location(3, MAX_U64))]
  }

  lemma {:induction false} ClashSorted(unknown: seq<LocRange>, timedOut: seq<LocRange>)
    requires unknown == [LocRange(Location(3, 6), Location(5, 10))]
    requires timedOut == [LocRange(Location(3, 0), Location(3, 2)), LocRange(Location(4, 0), Location(4, MAX_U64)),
                          LocRange(Location(5, 0), Location(5, 10))]
    ensures AllValid(unknown) && AllValid(timedOut) && Unmerged([], unknown, timedOut, Descending) == ClashMarkers()
  {
    var m, key := ClashMarkers(), StreamKey(Descending);
    assert RunEnds(unknown[0], Descending) == [Location(5, 10), Location(4, MAX_U64), Location(3, MAX_U64)];
    MarkersOfThree(Location(5, 10), Location(4, MAX_U64), Location(3, MAX_U64));
    assert unknown[..0] == [] && Markers([], false, Descending) == [] && Markers([], true, Descending) == [];
    assert Markers(unknown, false, Descending) == [m[0], m[2], m[5]];
    assert RunEnds(timedOut[0], Descending) == [Location(3, 2)];
    assert RunEnds(timedOut[1], Descending) == [Location(4, MAX_U64)];
    assert RunEnds(timedOut[2], Descending) == [Location(5, 10)];
    assert timedOut[..2][..1] == timedOut[..1] && timedOut[..1][..0] == [];
    MarkersOfOne(Location(3, 2));
    MarkersOfOne(Location(4, MAX_U64));
    MarkersOfOne(Location(5, 10));
    assert Markers(timedOut[..1], true, Descending) == [m[4]];
    assert Markers(timedOut[..2], true, Descending) == [m[4], m[3]];
    assert Markers(timedOut, true, Descending) == [m[4], m[3], m[1]];
    var all := [m[0], m[2], m[5], m[4], m[3], m[1]];
    assert [] + Markers(unknown, false, Descending) + Markers(timedOut, true, Descending) == all;
    hide Markers, RunEnds;
    SortSix(m[0], m[2], m[5], m[4], m[3], m[1], key);
  }

  lemma {:induction false} MarkersOfOne(a: Location)
    ensures MarkersAt([a], true) == [Marker(a, true)]
  {
    assert [a][..0] == [];
  }

  lemma {:induction false} MarkersOfThree(a: Location, b: Location, c: Location)
    ensures MarkersAt([a, b, c], false) == [Marker(a, false), Marker(b, false), Marker(c, false)]
  {
    assert [a, b, c][..2] == [a, b] && [a, b][..1] == [a] && [a][..0] == [];
    assert MarkersAt([a], false) == [Marker(a, false)];
    assert MarkersAt([a, b], false) == [Marker(a, false), Marker(b, false)];
  }

  lemma {:induction false} SortFour<T>(c: T, d: T, e: T, f: T, key: T -> int)
    requires key(f) < key(e) < key(d) < key(c)
    ensures StableSort([c, d, e, f], key) == [f, e, d, c]
  {
    assert StableSort([f], key) == [f] by {
      assert [f][1..] == [];
    }
    assert [e, f][1..] == [f] && [d, e, f][1..] == [e, f] && [c, d, e, f][1..] == [d, e, f];
    hide Insert;
    InsertLast(e, [f], key);
    assert StableSort([e, f], key) == [f, e];
    InsertLast(d, [f, e], key);
    assert StableSort([d, e, f], key) == [f, e, d];
    InsertLast(c, [f, e, d], key);
  }

  lemma {:induction false} SortSix<T>(a: T, b: T, c: T, d: T, e: T, f: T, key: T -> int)
    requires key(a) == key(f) < key(b) == key(e) < key(d) < key(c)
    ensures StableSort([a, b, c, d, e, f], key) == [a, f, b, e, d, c]
  {
    SortFour(c, d, e, f, key);
    assert [b, c, d, e, f][1..] == [c, d, e, f] && [a, b, c, d, e, f][1..] == [b, c, d, e, f];
    assert StableSort([b, c, d, e, f], key) == Insert(b, [f, e, d, c], key);
    assert StableSort([a, b, c, d, e, f], key) == Insert(a, StableSort([b, c, d, e, f], key), key);
    hide StableSort;
    assert [f, e, d, c][1..] == [e, d, c];
    assert Insert(b, [e, d, c], key) == [b, e, d, c];
  }

  lemma {:induction false} InsertLast<T>(x: T, s: seq<T>, key: T -> int)
    requires forall i :: 0 <= i < |s| ==> key(s[i]) < key(x)
    ensures Insert(x, s, key) == s + [x]
  {
    if s != [] {
      InsertLast(x, s[1..], key);
    }
  }

  const CLASH_SPAN := LocRange(Location(1, 0), Location(5, 10))
  const CLASH_CAP := Location(3, 5)
  const CLASH_MARKER := DecodedObject(3, 2, 0, 0, [], [], false, false, false, true)
  const CLASHING := Responds([CLASH_MARKER], CleanFin, CLASH_CAP)

  /** A FETCH of Groups 1 to 5 at a relay with nothing cached. */
  function ClashRequest(gapsOf: seq<byte> -> PriorGaps): Request {
    Request([], [], [], gapsOf, [], Location(1, 0), Location(5, 10), Descending)
  }

  /** What the loop makes of the response: past its End Location unknown, up to its marker timed out. */
  function ClashAnswer(): UpstreamAnswer {
    UpstreamAnswer([], [LocRange(Location(3, 6), Location(5, 10))],
                   StreamCovered(None, CLASH_MARKER.Loc(), CLASH_SPAN, Descending), Answered)
  }

  /**
   A response that clashes: asked for Groups 1 to 5 in descending order, the upstream stops at {3, 5} and
   starts with a timed out marker at {3, 2}. The loop accepts it and takes {5, 10} as both unknown and
   timed out, in a relay with nothing cached.
   */
  lemma {:induction false} ClashHappens(gapsOf: seq<byte> -> PriorGaps)
    ensures var q := ClashRequest(gapsOf);
      Sound(q) && IsSpan(q, CLASH_SPAN) && Clashes(q, CLASHING, CLASH_SPAN)
    ensures Answers(ClashAnswer(), CLASHING, CLASH_SPAN, Descending)
    ensures InAny(Location(5, 10), ClashAnswer().unknown) && InAny(Location(5, 10), ClashAnswer().timedOut)
  {
    var q := ClashRequest(gapsOf);
    ClashAnswered(CLASH_MARKER, CLASH_SPAN, CLASH_CAP);
    hide AnswersFully, StreamCovered;
    assert Cached(q) == [] && forall l :: Missing(q, l) <==> InRange(l, CLASH_SPAN);
    AnswerOverlap(ClashAnswer(), CLASHING, CLASH_SPAN, Descending, Location(5, 10));
    assert InRange(Location(5, 10), ClashAnswer().unknown[0]) && InRange(Location(5, 10), ClashAnswer().timedOut[2]);
    assert Clash(q, CLASHING, CLASH_SPAN, Location(5, 10));
  }

  lemma {:induction false} RunEndsCovered(runs: seq<LocRange>, i: nat)
    requires AllValid(runs) && i < |runs|
    ensures InAny(runs[i].lo, runs) && InAny(runs[i].hi, runs)
  {
    assert InRange(runs[i].lo, runs[i]) && InRange(runs[i].hi, runs[i]);
  }

  lemma {:induction false} SameRange(a: LocRange, b: LocRange)
    requires ValidRange(a) && ValidRange(b) && forall l :: InRange(l, a) <==> InRange(l, b)
    ensures a == b
  {
    assert InRange(a.lo, a) && InRange(a.hi, a) && InRange(b.lo, b) && InRange(b.hi, b);
  }

  /** What lies between the first two runs is in no run. */
  lemma {:induction false} BetweenRuns(runs: seq<LocRange>, m: Location)
    requires MaximalRuns(runs) && |runs| > 1 && Less(runs[0].hi, m) && Less(m, runs[1].lo)
    ensures !InAny(m, runs)
  {
    forall k | 0 <= k < |runs| ensures !InRange(m, runs[k]) {
      assert k > 1 ==> Separated(runs[1], runs[k]);
    }
  }

  /** Maximal runs of what one range covers are that range. */
  lemma {:induction false} OneRun(runs: seq<LocRange>, span: LocRange)
    requires MaximalRuns(runs) && ValidRange(span)
    requires forall l :: InAny(l, runs) <==> InRange(l, span)
    ensures runs == [span]
  {
    SomeRun(runs, span);
    if |runs| == 1 {
      assert forall l :: InAny(l, runs) <==> InRange(l, runs[0]);
      hide InAny;
      SameRange(runs[0], span);
    } else {
      hide InAny, InRange, Less, ValidRange;
      RunEndsCovered(runs, 0);
      RunEndsCovered(runs, 1);
      assert Separated(runs[0], runs[1]);
      var m :| Less(runs[0].hi, m) && Less(m, runs[1].lo);
      BetweenRuns(runs, m);
      BetweenInRange(runs[0].hi, m, runs[1].lo, span);
      assert false;
    }
  }

  lemma {:induction false} SomeRun(runs: seq<LocRange>, span: LocRange)
    requires ValidRange(span) && forall l :: InAny(l, runs) <==> InRange(l, span)
    ensures runs != []
  {
    assert InRange(span.lo, span) && InAny(span.lo, runs);
  }

  lemma {:induction false} BetweenInRange(a: Location, m: Location, b: Location, r: LocRange)
    requires InRange(a, r) && InRange(b, r) && Less(a, m) && Less(m, b)
    ensures InRange(m, r)
  {
  }

  lemma {:induction false} FirstIsMember(s: seq<CachedObject>)
    requires s != []
    ensures exists o :: o in s
  {
    assert s[0] in s;
  }

  /** Meeting a range that holds all of a changes nothing. */
  lemma {:induction false} MeetWithin(a: seq<LocRange>, y: LocRange)
    requires forall i :: 0 <= i < |a| ==> ValidRange(a[i]) && InRange(a[i].lo, y) && InRange(a[i].hi, y)
    ensures Meet(a, [y]) == a
    decreases |a|
  {
    if a != [] {
      var rest, x := a[..|a| - 1], a[|a| - 1];
      MeetWithin(rest, y);
      assert [y][..0] == [] && MeetOne(x, []) == [];
      assert MeetOne(x, [y]) == MeetRange(x, y) == [x];
      assert a == rest + [x];
    }
  }

  lemma {:induction false} NothingArrives(rs: seq<LocRange>)
    requires AllValid(rs) && forall l :: !InAny(l, rs)
    ensures rs == []
  {
    if rs != [] {
      RunEndsCovered(rs, 0);
    }
  }

  /** The answer read off the clashing response, range by range. */
  lemma {:induction false} ClashAnswerOf()
    ensures Trusted(CLASHING, CLASH_SPAN, Descending)
    ensures AnswerOf(CLASHING.ds, CLASH_SPAN, Descending, CLASH_CAP) == ClashAnswer()
  {
    hide StreamCovered;
    var ds := CLASHING.ds;
    assert DecodedView(ds) == [Elem(Location(3, 2), TimedOutEnd)];
    AcceptableIsReadable(ds, CLASH_SPAN, Descending, CLASH_CAP);
    var none := UpstreamAnswer([], [], [], Answered);
    assert ds[..0] == [] && ReadOf(ds[..0], CLASH_SPAN, Descending) == none;
    assert ReadOf(ds, CLASH_SPAN, Descending) == ReadElem(none, CLASH_MARKER, None, CLASH_SPAN, Descending);
    assert Successor(CLASH_CAP) == Some(Location(3, 6));
  }

  /** merged, u and t are what the relay stitches for the request and the response. */
  ghost predicate ClashStitches(
    gapsOf: seq<byte> -> PriorGaps, merged: seq<CachedObject>, u: seq<LocRange>, t: seq<LocRange>)
  {
    && Trusted(CLASHING, CLASH_SPAN, Descending)
    && Stitches(ClashRequest(gapsOf), CLASHING, CLASH_SPAN, merged, u, t)
    && AsRead(ClashRequest(gapsOf), CLASHING, CLASH_SPAN, merged, u, t)
  }

  /** What the relay lists for the clashing response is what the loop made of it. */
  lemma {:induction false} ClashStitched(
    gapsOf: seq<byte> -> PriorGaps, merged: seq<CachedObject>, u: seq<LocRange>, t: seq<LocRange>)
    requires ClashStitches(gapsOf, merged, u, t)
    ensures merged == [] && u == ClashAnswer().unknown && t == ClashAnswer().timedOut
  {
    hide AnswerOf, StreamCovered, Meet, Trusted, Classified, MaximalRuns, LeftUnknown, LeftTimedOut, Clashes,
         UpstreamSaysAbsent, Acceptable;
    var q := ClashRequest(gapsOf);
    ClashAnswerOf();
    var ans := ClashAnswer();
    assert Cached(q) == [] && (forall l :: Missing(q, l) <==> InRange(l, CLASH_SPAN)) && forall l :: !Arriving(q, l);
    var runs, arriving :| Lists(q, runs, arriving)
      && u == Meet(ans.unknown, runs) && t == Meet(ans.timedOut, runs) + DropHeld(arriving, merged);
    OneRun(runs, CLASH_SPAN);
    NothingArrives(arriving);
    assert CLASHING.ds == [CLASH_MARKER] && [CLASH_MARKER][..0] == [] && StitchedObjects([]) == [];
    assert StitchedObjects(CLASHING.ds) == [];
    assert forall o :: !Served(q, CLASHING, CLASH_SPAN, o);
    if merged != [] {
      FirstIsMember(merged);
    }
    ClashAnswered(CLASH_MARKER, CLASH_SPAN, CLASH_CAP);
    MeetWithin(ans.unknown, CLASH_SPAN);
    MeetWithin(ans.timedOut, CLASH_SPAN);
  }

  /** Markers are written as they are, whatever expires. */
  lemma {:induction false} MarkersGoOut(s: seq<CachedObject>, expired: CachedObject -> bool)
    requires forall i :: 0 <= i < |s| ==> s[i].IsRangeMarker()
    ensures Outgoing(s, expired) == s
    decreases |s|
  {
    if s != [] {
      MarkersGoOut(s[..|s| - 1], expired);
      assert s == s[..|s| - 1] + [s[|s| - 1]];
    }
  }

  /**
   Whatever the relay stitches for that request and response, it sends two elements at {5, 10}, and the next
   relay refuses that whatever it asked for.
   */
  lemma {:induction false} ClashIsRefused(
    gapsOf: seq<byte> -> PriorGaps, merged: seq<CachedObject>, u: seq<LocRange>, t: seq<LocRange>,
    expired: CachedObject -> bool, asked: LocRange, end: Location)
    ensures ClashStitches(gapsOf, merged, u, t) ==>
      var es := DecodedView(ReceivedAll(Outgoing(Elements(merged, u, t, Descending), expired)));
      |es| >= 2 && es[0].at == es[1].at == Location(5, 10) && !Acceptable(es, asked, Descending, end)
  {
    hide ClashStitches, Elements, Outgoing;
    if ClashStitches(gapsOf, merged, u, t) {
      ClashStitched(gapsOf, merged, u, t);
      ClashElements(expired);
    }
  }

  lemma {:induction false} OneSpan(q: Request, a: LocRange, b: LocRange)
    requires IsSpan(q, a) && IsSpan(q, b)
    ensures a == b
  {
    hide Missing;
    assert InRange(a.lo, b) && InRange(a.hi, b) && InRange(b.lo, a) && InRange(b.hi, a);
  }

  /** Stitching that request sends that. */
  method StitchClash(gapsOf: seq<byte> -> PriorGaps, expired: CachedObject -> bool) returns (out: seq<CachedObject>)
    ensures var es := DecodedView(ReceivedAll(Outgoing(out, expired)));
      && |es| >= 2 && es[0].at == es[1].at == Location(5, 10)
      && forall asked, end :: !Acceptable(es, asked, Descending, end)
  {
    hide Stitches, AsRead, Elements, Outgoing, Missing, Sound, Acceptable, Answers;
    var refused, merged, u, t, span;
    ClashHappens(gapsOf);
    assert Trusted(CLASHING, CLASH_SPAN, Descending) by { ClashAnswerOf(); }
    out, refused, merged, u, t, span := Stitch(ClashRequest(gapsOf), CLASHING);
    assert SomeMissing(ClashRequest(gapsOf)) by { assert Missing(ClashRequest(gapsOf), CLASH_SPAN.lo); }
    OneSpan(ClashRequest(gapsOf), span, CLASH_SPAN);
    forall asked, end
      ensures !Acceptable(DecodedView(ReceivedAll(Outgoing(out, expired))), asked, Descending, end)
    {
      ClashIsRefused(gapsOf, merged, u, t, expired, asked, end);
    }
    ClashIsRefused(gapsOf, merged, u, t, expired, CLASH_SPAN, CLASH_CAP);
  }

  lemma {:induction false} ClashElements(expired: CachedObject -> bool)
    ensures AllValid(ClashAnswer().unknown) && AllValid(ClashAnswer().timedOut)
    ensures var es := Elements([], ClashAnswer().unknown, ClashAnswer().timedOut, Descending);
      && |es| >= 2 && es[0].Loc() == es[1].Loc() == Location(5, 10)
      && DecodedView(ReceivedAll(Outgoing(es, expired))) == View(es)
  {
    ClashAnswered(CLASH_MARKER, CLASH_SPAN, CLASH_CAP);
    hide AnswersFully, StreamCovered;
    ClashSorted(ClashAnswer().unknown, ClashAnswer().timedOut);
    hide Unmerged, Outgoing;
    MarkersStay(ClashMarkers());
    MarkersGoOut(MergeMarkers(ClashMarkers()), expired);
    ReceivedSameView(MergeMarkers(ClashMarkers()));
  }

  lemma {:induction false} MarkersStay(m: seq<CachedObject>)
    requires m == ClashMarkers()
    ensures var es := MergeMarkers(m);
      && |es| >= 2 && es[0].Loc() == es[1].Loc() == Location(5, 10)
      && forall i :: 0 <= i < |es| ==> es[i].IsRangeMarker()
  {
    FirstTwoStay(m);
    MergeKeepsObjects(m);
    hide MergeMarkers;
    var es := MergeMarkers(m);
    forall i | 0 <= i < |es| ensures es[i].IsRangeMarker() {
      assert es[i] in m;
    }
  }

  lemma {:induction false} FirstTwoStay(m: seq<CachedObject>)
    requires |m| >= 2 && !SameKindMarkers(m, 0) && !SameKindMarkers(m[1..], 0)
    ensures |MergeMarkers(m)| >= 2 && MergeMarkers(m)[0] == m[0] && MergeMarkers(m)[1] == m[1]
  {
    assert MergeMarkers(m[1..])[0] == m[1];
  }

  lemma {:induction false} ClashAnswered(d: DecodedObject, span: LocRange, cap: Location)
    requires d == DecodedObject(3, 2, 0, 0, [], [], false, false, false, true)
    requires span == LocRange(Location(1, 0), Location(5, 10)) && cap == Location(3, 5)
    ensures StreamCovered(None, d.Loc(), span, Descending)
      == [LocRange(Location(3, 0), Location(3, 2)), LocRange(Location(4, 0), Location(4, MAX_U64)),
          LocRange(Location(5, 0), Location(5, 10))]
    ensures AnswersFully(UpstreamAnswer([], [LocRange(Location(3, 6), Location(5, 10))],
                                        StreamCovered(None, d.Loc(), span, Descending), Answered),
                         [d], span, Descending, cap)
  {
    var es := DecodedView([d]);
    assert es == [Elem(Location(3, 2), TimedOutEnd)];
    StreamCoveredExact(None, d.Loc(), span, Descending);
    assert [d][..0] == [] && StitchedObjects([]) == [];
    assert StitchedObjects([d]) == [];
    var past := LocRange(Location(3, 6), Location(5, 10));
    forall l ensures InAny(l, [past]) <==> InRange(l, past) {
      assert [past][0] == past;
    }
    forall l ensures Meaning(es, l, Descending) == if Before(Location(3, 2), l, Descending) then Absent else TimedOut {
      assert es[1..] == [];
    }
  }
}
