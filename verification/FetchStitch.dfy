/** Answering a FETCH range from the cache, the ledger and one upstream FETCH. */
module FetchStitch {
  import opened Uint64
  import opened Locations
  import opened FetchMeaning
  import opened FetchRanges
  import opened FE = FetchElements
  import opened FetchAnswer

  // ---------------------------------------------------------------------------
  // What the cache establishes
  // ---------------------------------------------------------------------------

  /** The gaps read from Properties never exceed the Object's own IDs: checked on receipt. */
  predicate GapsFit(o: CachedObject, gaps: PriorGaps) {
    && (gaps.obj.Some? ==> gaps.obj.value <= o.obj)
    && (gaps.group.Some? ==> gaps.group.value <= o.group)
  }

  ghost predicate AllGapsFit(objs: seq<CachedObject>, gapsOf: seq<byte> -> PriorGaps) {
    forall o :: o in objs ==> GapsFit(o, gapsOf(o.properties))
  }

  /** A cached Object o settles the status of l: o is at l, or o says nothing is. */
  predicate Establishes(o: CachedObject, gaps: PriorGaps, l: Location) {
    || l == o.Loc()
    || (o.status == STATUS_END_OF_GROUP && l.group == o.group && o.obj <= l.obj)
    || (o.status == STATUS_END_OF_TRACK && !Less(l, o.Loc()))
    || (gaps.obj.Some? && l.group == o.group && o.obj - gaps.obj.value <= l.obj < o.obj)
    || (gaps.group.Some? && o.group - gaps.group.value <= l.group < o.group)
  }

  /** o says that no Object is at l; of its own Location only a status Object says so. */
  predicate SaysAbsent(o: CachedObject, gaps: PriorGaps, l: Location) {
    Establishes(o, gaps, l) && (l == o.Loc() ==> o.IsStatusMarker())
  }

  /** The ranges one cached Object settles. */
  function Settled(o: CachedObject, gaps: PriorGaps): seq<LocRange>
    requires GapsFit(o, gaps)
  {
    var hi := if o.status == STATUS_END_OF_GROUP then Location(o.group, MAX_U64)
              else if o.status == STATUS_END_OF_TRACK then Location(MAX_U64, MAX_U64)
              else o.Loc();
    [LocRange(o.Loc(), hi)]
    + (if gaps.obj.Some? && gaps.obj.value > 0
       then [LocRange(Location(o.group, o.obj - gaps.obj.value), Location(o.group, o.obj - 1))] else [])
    + (if gaps.group.Some? && gaps.group.value > 0
       then [LocRange(Location(o.group - gaps.group.value, 0), Location(o.group - 1, MAX_U64))] else [])
  }

  lemma {:induction false} SettledExact(o: CachedObject, gaps: PriorGaps, l: Location)
    requires GapsFit(o, gaps)
    ensures AllValid(Settled(o, gaps))
    ensures InAny(l, Settled(o, gaps)) <==> Establishes(o, gaps, l)
  {
    var rs := Settled(o, gaps);
    if |rs| == 1 {
      assert InAny(l, rs) <==> InRange(l, rs[0]);
    } else if |rs| == 2 {
      assert InAny(l, rs) <==> InRange(l, rs[0]) || InRange(l, rs[1]);
    } else {
      assert InAny(l, rs) <==> InRange(l, rs[0]) || InRange(l, rs[1]) || InRange(l, rs[2]);
    }
  }

  ghost predicate EstablishedBy(objs: seq<CachedObject>, gapsOf: seq<byte> -> PriorGaps, l: Location) {
    exists o :: o in objs && Establishes(o, gapsOf(o.properties), l)
  }

  /** One of objs says that no Object is at l. */
  ghost predicate AbsentBy(objs: seq<CachedObject>, gapsOf: seq<byte> -> PriorGaps, l: Location) {
    exists o :: o in objs && SaysAbsent(o, gapsOf(o.properties), l)
  }

  lemma {:induction false} HeldIsSettled(objs: seq<CachedObject>, gapsOf: seq<byte> -> PriorGaps, l: Location)
    requires Holds(objs, l)
    ensures EstablishedBy(objs, gapsOf, l)
  {
    HoldsIsMember(objs, l);
  }

  /** What is settled where no ordinary Object is held is settled as absent. */
  lemma {:induction false} SettledAbsent(objs: seq<CachedObject>, gapsOf: seq<byte> -> PriorGaps, l: Location)
    requires EstablishedBy(objs, gapsOf, l)
    requires forall o :: o in objs && o.Loc() == l ==> o.IsStatusMarker()
    ensures AbsentBy(objs, gapsOf, l)
  {
    hide Establishes;
    var o :| o in objs && Establishes(o, gapsOf(o.properties), l);
    assert SaysAbsent(o, gapsOf(o.properties), l);
  }

  /** Exactly the Locations whose status the cached Objects settle. */
  method KnownFromCache(objs: seq<CachedObject>, gapsOf: seq<byte> -> PriorGaps) returns (out: seq<LocRange>)
    requires AllGapsFit(objs, gapsOf)
    ensures AllValid(out)
    ensures forall l :: InAny(l, out) <==> EstablishedBy(objs, gapsOf, l)
  {
    hide Establishes, Settled, InRange;
    out := [];
    for i := 0 to |objs|
      invariant AllValid(out)
      invariant forall l :: InAny(l, out) <==> EstablishedBy(objs[..i], gapsOf, l)
    {
      var more := Settled(objs[i], gapsOf(objs[i].properties));
      forall l ensures InAny(l, out + more) <==> EstablishedBy(objs[..i + 1], gapsOf, l) {
        SettledExact(objs[i], gapsOf(objs[i].properties), l);
        InAnyConcat(l, out, more);
        EstablishedByOneMore(objs, i, gapsOf, l);
      }
      SettledExact(objs[i], gapsOf(objs[i].properties), objs[i].Loc());
      out := out + more;
    }
    assert objs[..|objs|] == objs;
  }

  lemma {:induction false} EstablishedByOneMore(
    objs: seq<CachedObject>, i: nat, gapsOf: seq<byte> -> PriorGaps, l: Location)
    requires i < |objs|
    ensures EstablishedBy(objs[..i + 1], gapsOf, l) <==>
            EstablishedBy(objs[..i], gapsOf, l) || Establishes(objs[i], gapsOf(objs[i].properties), l)
  {
    assert objs[..i + 1] == objs[..i] + [objs[i]];
  }

  /** The holes left in a range by what objs settle and by two further sets of ranges. */
  method UnknownIn(
    objs: seq<CachedObject>, gapsOf: seq<byte> -> PriorGaps, absent: seq<LocRange>, accounted: seq<LocRange>,
    start: Location, end: Location)
    returns (out: seq<LocRange>)
    requires !Less(end, start) && AllGapsFit(objs, gapsOf) && AllValid(absent) && AllValid(accounted)
    ensures MaximalRuns(out)
    ensures forall l :: InAny(l, out) <==>
              && InRange(l, LocRange(start, end)) && !EstablishedBy(objs, gapsOf, l)
              && !InAny(l, absent) && !InAny(l, accounted)
  {
    var known := KnownFromCache(objs, gapsOf);
    out := Uncovered(start, end, known + absent + accounted);
    forall l ensures InAny(l, known + absent + accounted) <==>
                     InAny(l, known) || InAny(l, absent) || InAny(l, accounted) {
      InAnyConcat(l, known + absent, accounted);
      InAnyConcat(l, known, absent);
    }
  }

  // ---------------------------------------------------------------------------
  // Lists of Objects and Locations
  // ---------------------------------------------------------------------------

  /** objs has something to serve at l. */
  predicate Holds(objs: seq<CachedObject>, l: Location) {
    exists i :: 0 <= i < |objs| && objs[i].Loc() == l
  }

  ghost predicate Distinct(objs: seq<CachedObject>) {
    forall i, j :: 0 <= i < j < |objs| ==> objs[i].Loc() != objs[j].Loc()
  }

  /** The list served when more is offered after objs: the first Object offered for a Location wins. */
  function Together(objs: seq<CachedObject>, more: seq<CachedObject>): seq<CachedObject> {
    if more == [] then objs
    else
      var before, m := Together(objs, more[..|more| - 1]), more[|more| - 1];
      if Holds(before, m.Loc()) then before else before + [m]
  }

  method WithObjects(objs: seq<CachedObject>, more: seq<CachedObject>) returns (out: seq<CachedObject>)
    ensures out == Together(objs, more)
  {
    out := objs;
    for i := 0 to |more|
      invariant out == Together(objs, more[..i])
    {
      assert more[..i + 1][..i] == more[..i];
      if !Holds(out, more[i].Loc()) {
        out := out + [more[i]];
      }
    }
    assert more[..|more|] == more;
  }

  /** Every Location of either list is served once, from objs if it can be. */
  lemma {:induction false} TogetherServes(objs: seq<CachedObject>, more: seq<CachedObject>)
    requires Distinct(objs)
    ensures var out := Together(objs, more);
      && Distinct(out) && objs <= out
      && (forall o :: o in out ==> o in objs || o in more)
      && (forall l :: Holds(out, l) <==> Holds(objs, l) || Holds(more, l))
    decreases |more|
  {
    if more != [] {
      var rest, m := more[..|more| - 1], more[|more| - 1];
      var was, out := Together(objs, rest), Together(objs, more);
      TogetherServes(objs, rest);
      assert more == rest + [m];
      forall l ensures Holds(out, l) <==> Holds(objs, l) || Holds(more, l) {
        HoldsAppend(was, m, l);
        HoldsAppend(rest, m, l);
      }
    }
  }

  lemma {:induction false} HoldsAppend(objs: seq<CachedObject>, o: CachedObject, l: Location)
    ensures Holds(objs + [o], l) <==> Holds(objs, l) || l == o.Loc()
  {
    if Holds(objs, l) {
      var i :| 0 <= i < |objs| && objs[i].Loc() == l;
      assert (objs + [o])[i].Loc() == l;
    }
    assert (objs + [o])[|objs|] == o;
  }

  /** What remains of locs once the Locations objs serve are struck out, each as a range of its own. */
  function NotHeld(locs: seq<Location>, objs: seq<CachedObject>): (rs: seq<LocRange>)
    ensures AllValid(rs) && forall i :: 0 <= i < |rs| ==> rs[i].lo == rs[i].hi
    ensures forall l :: InAny(l, rs) <==> l in locs && !Holds(objs, l)
  {
    if locs == [] then []
    else
      var l := locs[|locs| - 1];
      var rest := NotHeld(locs[..|locs| - 1], objs);
      assert locs == locs[..|locs| - 1] + [l];
      assert forall m :: InAny(m, rest + [LocRange(l, l)]) <==> InAny(m, rest) || m == l by {
        forall m ensures InAny(m, rest + [LocRange(l, l)]) <==> InAny(m, rest) || m == l {
          InAnyAppend(m, rest, LocRange(l, l));
        }
      }
      if Holds(objs, l) then rest else rest + [LocRange(l, l)]
  }

  /** The Locations two ranges share, as at most one range. */
  function MeetRange(x: LocRange, y: LocRange): seq<LocRange> {
    var lo := if Less(x.lo, y.lo) then y.lo else x.lo;
    var hi := if Less(y.hi, x.hi) then y.hi else x.hi;
    if Less(hi, lo) then [] else [LocRange(lo, hi)]
  }

  function MeetOne(x: LocRange, b: seq<LocRange>): seq<LocRange> {
    if b == [] then [] else MeetOne(x, b[..|b| - 1]) + MeetRange(x, b[|b| - 1])
  }

  function Meet(a: seq<LocRange>, b: seq<LocRange>): seq<LocRange> {
    if a == [] then [] else Meet(a[..|a| - 1], b) + MeetOne(a[|a| - 1], b)
  }

  lemma {:induction false} MeetRangeExact(x: LocRange, y: LocRange, l: Location)
    ensures AllValid(MeetRange(x, y))
    ensures InAny(l, MeetRange(x, y)) <==> InRange(l, x) && InRange(l, y)
  {
    var r := MeetRange(x, y);
    if r != [] {
      assert InAny(l, r) <==> InRange(l, r[0]);
    }
  }

  lemma {:induction false} MeetOneExact(x: LocRange, b: seq<LocRange>, l: Location)
    ensures AllValid(MeetOne(x, b))
    ensures InAny(l, MeetOne(x, b)) <==> InRange(l, x) && InAny(l, b)
    decreases |b|
  {
    if b != [] {
      hide InRange, MeetRange;
      var rest, y := b[..|b| - 1], b[|b| - 1];
      MeetOneExact(x, rest, l);
      MeetRangeExact(x, y, l);
      InAnyConcat(l, MeetOne(x, rest), MeetRange(x, y));
      assert b == rest + [y];
      InAnyAppend(l, rest, y);
    }
  }

  /** The ranges listed hold exactly the Locations both lists hold. */
  lemma {:induction false} MeetExact(a: seq<LocRange>, b: seq<LocRange>, l: Location)
    ensures AllValid(Meet(a, b))
    ensures InAny(l, Meet(a, b)) <==> InAny(l, a) && InAny(l, b)
    decreases |a|
  {
    if a != [] {
      hide InRange, MeetOne;
      var rest, x := a[..|a| - 1], a[|a| - 1];
      MeetExact(rest, b, l);
      MeetOneExact(x, b, l);
      InAnyConcat(l, Meet(rest, b), MeetOne(x, b));
      assert a == rest + [x];
      InAnyAppend(l, rest, x);
    }
  }

  /** The meet of two sets of Locations, range by range. */
  method Intersect(a: seq<LocRange>, b: seq<LocRange>) returns (out: seq<LocRange>)
    ensures AllValid(out)
    ensures out == Meet(a, b) && forall l :: InAny(l, out) <==> InAny(l, a) && InAny(l, b)
  {
    hide InAny, ValidRange;
    out := [];
    for i := 0 to |a|
      invariant out == Meet(a[..i], b)
    {
      ghost var was := out;
      var x := a[i];
      for j := 0 to |b|
        invariant out == was + MeetOne(x, b[..j])
      {
        var y := b[j];
        var lo, hi := x.lo, x.hi;
        if Less(lo, y.lo) {
          lo := y.lo;
        }
        if Less(y.hi, hi) {
          hi := y.hi;
        }
        assert b[..j + 1][..j] == b[..j];
        if !Less(hi, lo) {
          out := out + [LocRange(lo, hi)];
        }
      }
      assert b[..|b|] == b && a[..i + 1][..i] == a[..i];
    }
    assert a[..|a|] == a;
    forall l ensures AllValid(out) && (InAny(l, out) <==> InAny(l, a) && InAny(l, b)) {
      MeetExact(a, b, l);
    }
    MeetExact(a, b, Location(0, 0));
  }

  /** As NotHeld, of Locations already given as ranges. */
  function DropHeld(rs: seq<LocRange>, objs: seq<CachedObject>): seq<LocRange> {
    if rs == [] then []
    else
      DropHeld(rs[..|rs| - 1], objs) + (if Holds(objs, rs[|rs| - 1].lo) then [] else [rs[|rs| - 1]])
  }

  lemma {:induction false} DropHeldExact(rs: seq<LocRange>, objs: seq<CachedObject>)
    requires forall i :: 0 <= i < |rs| ==> rs[i].lo == rs[i].hi
    ensures AllValid(DropHeld(rs, objs))
    ensures forall l :: InAny(l, DropHeld(rs, objs)) <==> InAny(l, rs) && !Holds(objs, l)
  {
    if rs != [] {
      var rest, last := rs[..|rs| - 1], rs[|rs| - 1];
      DropHeldExact(rest, objs);
      assert rs == rest + [last];
      assert DropHeld(rs, objs) == if Holds(objs, last.lo) then DropHeld(rest, objs) else DropHeld(rest, objs) + [last];
      forall l ensures InAny(l, DropHeld(rs, objs)) <==> InAny(l, rs) && !Holds(objs, l) {
        InAnyAppend(l, rest, last);
        InAnyAppend(l, DropHeld(rest, objs), last);
      }
    }
  }

  // ---------------------------------------------------------------------------
  // When a capped End Location makes an answer contradict itself
  // ---------------------------------------------------------------------------

  /** The first element of a Group below g, in a descending response. */
  function FirstBelow(es: seq<Elem>, g: u64): Option<Elem> {
    if es == [] then None else if es[0].at.group < g then Some(es[0]) else FirstBelow(es[1..], g)
  }

  /**
   A descending response capped at authEnd carries a Timed-Out Range marker first, or first below
   authEnd's Group, and the span has Locations past authEnd there: the marker is read as covering
   them, and so is the unknown rest past authEnd.
   */
  predicate CapConflict(es: seq<Elem>, span: LocRange, order: GroupOrder, authEnd: Location) {
    && order.Descending? && Less(authEnd, span.hi)
    && (|| (authEnd.group < span.hi.group && es != [] && es[0].kind == TimedOutEnd)
        || (authEnd.obj < GroupHi(span, authEnd.group)
            && FirstBelow(es, authEnd.group).Some? && FirstBelow(es, authEnd.group).value.kind == TimedOutEnd))
  }

  lemma {:induction false} FirstBelowDecides(es: seq<Elem>, l: Location, authEnd: Location)
    requires forall i :: 0 <= i < |es| ==> !Less(authEnd, es[i].at)
    requires l.group == authEnd.group && authEnd.obj < l.obj
    ensures var b := FirstBelow(es, authEnd.group);
            Meaning(es, l, Descending) == if b.None? then Absent else Verdict(b.value, l)
  {
    if es != [] && !(es[0].at.group < authEnd.group) {
      assert Before(es[0].at, l, Descending);
      FirstBelowDecides(es[1..], l, authEnd);
    }
  }

  /** In Location order nothing past the last element has a marker over it. */
  lemma {:induction false} AscendingStopsAtCap(es: seq<Elem>, l: Location, authEnd: Location)
    requires forall i :: 0 <= i < |es| ==> !Less(authEnd, es[i].at)
    requires Less(authEnd, l)
    ensures Meaning(es, l, Ascending) == Absent
  {
    FirstDecides(es, |es|, l, Ascending);
  }

  /** A Location past authEnd is timed out exactly in the conflicting shape. */
  lemma {:induction false} CapConflictExact(es: seq<Elem>, span: LocRange, order: GroupOrder, authEnd: Location)
    requires Acceptable(es, span, order, authEnd) && !Less(authEnd, span.lo)
    ensures (exists l :: InRange(l, span) && Less(authEnd, l) && Meaning(es, l, order) == TimedOut) <==>
            CapConflict(es, span, order, authEnd)
  {
    if l :| InRange(l, span) && Less(authEnd, l) && Meaning(es, l, order) == TimedOut {
      if order.Ascending? {
        AscendingStopsAtCap(es, l, authEnd);
      } else if l.group == authEnd.group {
        FirstBelowDecides(es, l, authEnd);
      } else {
        assert es != [] ==> !Before(es[0].at, l, order);
      }
    }
    if CapConflict(es, span, order, authEnd) {
      if authEnd.group < span.hi.group && es != [] && es[0].kind == TimedOutEnd {
        assert Meaning(es, span.hi, order) == TimedOut;
      } else {
        var l := Location(authEnd.group, authEnd.obj + 1);
        FirstBelowDecides(es, l, authEnd);
        assert InRange(l, span);
      }
    }
  }

  /** An answer's unknown and timed out parts are disjoint exactly when the cap does not conflict. */
  lemma {:induction false} AnswerDisjointExact(
    ans: UpstreamAnswer, ds: seq<DecodedObject>, span: LocRange, order: GroupOrder, authEnd: Location)
    requires AnswersFully(ans, ds, span, order, authEnd) && !Less(authEnd, span.lo)
    requires Acceptable(DecodedView(ds), span, order, authEnd)
    ensures (forall l :: !(InAny(l, ans.unknown) && InAny(l, ans.timedOut))) <==>
            !CapConflict(DecodedView(ds), span, order, authEnd)
  {
    hide CapConflict, Acceptable, StitchedObjects, Meaning;
    var es := DecodedView(ds);
    CapConflictExact(es, span, order, authEnd);
    if l :| InAny(l, ans.unknown) && InAny(l, ans.timedOut) {
      assert Less(authEnd, l) && Meaning(es, l, order) == TimedOut;
    }
    if l :| InRange(l, span) && Less(authEnd, l) && Meaning(es, l, order) == TimedOut {
      assert InAny(l, ans.unknown) && InAny(l, ans.timedOut);
    }
  }

  // ---------------------------------------------------------------------------
  // Stitching
  // ---------------------------------------------------------------------------

  /** What the relay's upstream FETCH meets. */
  datatype Upstream =
    | NoUpstream
    | RefusedTrack
    | FetchFailed(timedOut: bool)
    | Responds(ds: seq<DecodedObject>, ending: Ending, authEnd: Location)

  /** A response whose End Location reaches span, with every element in order inside both. */
  ghost predicate Trusted(up: Upstream, span: LocRange, order: GroupOrder) {
    up.Responds? && !Less(up.authEnd, span.lo) && Acceptable(DecodedView(up.ds), span, order, up.authEnd)
  }

  /** One FETCH of span; an End Location before the span is refused like any failure. */
  method FetchUpstreamRange(up: Upstream, span: LocRange, order: GroupOrder)
    returns (ans: UpstreamAnswer, refused: bool)
    requires !up.NoUpstream? && ValidRange(span)
    ensures refused <==> up.RefusedTrack? || (Trusted(up, span, order) && up.ending.MalformedTrack?)
    ensures up.FetchFailed? ==> ans == NO_ANSWER.(failed := if up.timedOut then FailedTimedOut else FailedUnknown)
    ensures !refused && up.Responds? ==>
              if Trusted(up, span, order) && up.ending.CleanFin? then
                AnswersFully(ans, up.ds, span, order, up.authEnd) && ans == AnswerOf(up.ds, span, order, up.authEnd)
              else if Trusted(up, span, order) && up.ending.BudgetRanOut? then AnswersPartly(ans, up.ds, span, order)
              else ans == NO_ANSWER
    ensures !refused && up.Responds? && ans.failed == Answered ==> Keeps(ans.objs, up.ds)
  {
    hide Acceptable, Denotes, UnknownUpTo, StitchedObjects, AnswerOf, Keeps;
    match up
    case RefusedTrack =>
      return NO_ANSWER, true;
    case FetchFailed(timedOut) =>
      return NO_ANSWER.(failed := if timedOut then FailedTimedOut else FailedUnknown), false;
    case Responds(ds, ending, authEnd) =>
      if Less(authEnd, span.lo) {
        return NO_ANSWER, false;
      }
      ans, refused := ReadResponse(ds, ending, span, order, authEnd);
  }

  /** A trusted response to a FETCH of span, ended by a FIN, says no Object is at l. */
  ghost predicate UpstreamSaysAbsent(up: Upstream, span: LocRange, order: GroupOrder, l: Location) {
    && Trusted(up, span, order) && up.ending.CleanFin? && InRange(l, span) && !Less(up.authEnd, l)
    && Meaning(DecodedView(up.ds), l, order) == Absent
  }

  /** Appends what more has for Locations that cached cannot serve. */
  method AddMissing(cached: seq<CachedObject>, more: seq<CachedObject>) returns (merged: seq<CachedObject>)
    requires Distinct(cached) && Distinct(more)
    ensures Distinct(merged) && cached <= merged
    ensures forall o :: o in merged <==> o in cached || (o in more && !Holds(cached, o.Loc()))
    ensures forall l :: Holds(merged, l) <==> Holds(cached, l) || Holds(more, l)
  {
    merged := cached;
    for i := 0 to |more|
      invariant Distinct(merged) && cached <= merged
      invariant forall o :: o in merged <==> o in cached || (o in more[..i] && !Holds(cached, o.Loc()))
      invariant forall l :: Holds(merged, l) <==> Holds(cached, l) || Holds(more[..i], l)
    {
      var m := more[i];
      ghost var was := merged;
      assert !Holds(more[..i], m.Loc());
      if !Holds(cached, m.Loc()) {
        merged := merged + [m];
        assert !Holds(was, m.Loc());
      }
      assert more[..i + 1] == more[..i] + [m];
      forall l ensures Holds(merged, l) <==> Holds(was, l) || l == m.Loc() {
        HoldsAppend(was, m, l);
      }
      forall l ensures Holds(more[..i + 1], l) <==> Holds(more[..i], l) || l == m.Loc() {
        HoldsAppend(more[..i], m, l);
      }
    }
    assert more[..|more|] == more;
  }

  /** The Objects an upstream answer adds to those cached, and what it leaves unknown and timed out. */
  method MergeAnswer(
    cached: seq<CachedObject>, unknown: seq<LocRange>, arriving: seq<LocRange>, ans: UpstreamAnswer)
    returns (merged: seq<CachedObject>, u: seq<LocRange>, t: seq<LocRange>)
    requires Distinct(cached) && Distinct(ans.objs)
    requires forall i :: 0 <= i < |arriving| ==> arriving[i].lo == arriving[i].hi
    ensures Distinct(merged) && cached <= merged
    ensures forall o :: o in merged <==> o in cached || (o in ans.objs && !Holds(cached, o.Loc()))
    ensures forall l :: Holds(merged, l) <==> Holds(cached, l) || Holds(ans.objs, l)
    ensures AllValid(u) && AllValid(t)
    ensures u == Meet(ans.unknown, unknown) && t == Meet(ans.timedOut, unknown) + DropHeld(arriving, merged)
    ensures forall l :: InAny(l, u) <==> InAny(l, ans.unknown) && InAny(l, unknown)
    ensures forall l :: InAny(l, t) <==>
              (InAny(l, ans.timedOut) && InAny(l, unknown)) || (InAny(l, arriving) && !Holds(merged, l))
  {
    hide Holds, InAny, Distinct, Meet, DropHeld;
    merged := AddMissing(cached, ans.objs);
    u := Intersect(ans.unknown, unknown);
    var late := Intersect(ans.timedOut, unknown);
    var still := DropHeld(arriving, merged);
    DropHeldExact(arriving, merged);
    t := late + still;
    forall l ensures InAny(l, t) <==> InAny(l, late) || InAny(l, still) {
      InAnyConcat(l, late, still);
    }
  }

  /** The Objects read from an ordered response are at distinct Locations, where it says they are. */
  lemma {:induction false} StitchedDistinct(ds: seq<DecodedObject>, order: GroupOrder)
    requires InStreamOrder(DecodedView(ds), order)
    ensures Distinct(StitchedObjects(ds))
    ensures forall o :: o in StitchedObjects(ds) ==> !o.IsRangeMarker() && !o.IsStatusMarker()
    ensures forall l :: Holds(StitchedObjects(ds), l) <==> Meaning(DecodedView(ds), l, order) == Present
  {
    forall l ensures Holds(StitchedObjects(ds), l) <==> Meaning(DecodedView(ds), l, order) == Present {
      StitchedWherePresent(ds, l, order);
      HoldsIsMember(StitchedObjects(ds), l);
    }
    forall o | o in StitchedObjects(ds) ensures !o.IsRangeMarker() && !o.IsStatusMarker() {
      StitchedMembers(ds, o);
    }
    StitchedDistinctLocations(ds, order);
  }

  lemma {:induction false} HoldsIsMember(objs: seq<CachedObject>, l: Location)
    ensures Holds(objs, l) <==> exists o :: o in objs && o.Loc() == l
  {
    if Holds(objs, l) {
      var i :| 0 <= i < |objs| && objs[i].Loc() == l;
      assert objs[i] in objs;
    }
    if o :| o in objs && o.Loc() == l {
      var i :| 0 <= i < |objs| && objs[i] == o;
      assert objs[i].Loc() == l;
    }
  }

  lemma {:induction false} StitchedDistinctLocations(ds: seq<DecodedObject>, order: GroupOrder)
    requires InStreamOrder(DecodedView(ds), order)
    ensures Distinct(StitchedObjects(ds))
  {
    if ds != [] {
      var n := |ds| - 1;
      var es := DecodedView(ds);
      assert forall i :: 0 <= i < n ==> DecodedView(ds[..n])[i] == es[i];
      StitchedDistinctLocations(ds[..n], order);
      forall o | o in StitchedObjects(ds[..n]) ensures o.Loc() != ds[n].Loc() {
        StitchedMembers(ds[..n], o);
        var i :| 0 <= i < n && o == Stitched(ds[..n][i]);
        PositionOrders(es[i].at, es[n].at, order);
      }
    }
  }

  /** What the relay has by itself: cached Objects, unknown Locations, Objects still arriving. */
  ghost predicate Local(cached: seq<CachedObject>, unknown: seq<LocRange>, arriving: seq<LocRange>) {
    && Distinct(cached) && (forall o :: o in cached ==> !o.IsRangeMarker())
    && AllValid(unknown) && AllValid(arriving)
    && (forall l :: InAny(l, unknown) ==> !Holds(cached, l) && !InAny(l, arriving))
    && (forall l :: InAny(l, arriving) ==> !Holds(cached, l))
  }

  /** Objects at distinct Locations, and two sets of Locations apart from them and each other. */
  lemma {:induction false} ClassifiedFrom(objs: seq<CachedObject>, u: seq<LocRange>, t: seq<LocRange>)
    requires Distinct(objs) && (forall o :: o in objs ==> !o.IsRangeMarker())
    requires AllValid(u) && AllValid(t)
    requires forall l :: !(InAny(l, u) && InAny(l, t))
    requires forall l :: Holds(objs, l) ==> !InAny(l, u) && !InAny(l, t)
    ensures Classified(objs, u, t)
  {
    forall o | o in objs ensures !InAny(o.Loc(), u) && !InAny(o.Loc(), t) {
      HoldsIsMember(objs, o.Loc());
    }
  }

  lemma {:induction false} LocalClassified(cached: seq<CachedObject>, unknown: seq<LocRange>, arriving: seq<LocRange>)
    requires Local(cached, unknown, arriving)
    ensures Classified(cached, unknown, arriving)
    ensures Classified(cached, [], unknown + arriving)
    ensures Classified(cached, [], arriving)
  {
    hide Holds, Distinct;
    ClassifiedFrom(cached, unknown, arriving);
    ClassifiedFrom(cached, [], arriving);
    forall l ensures InAny(l, unknown + arriving) <==> InAny(l, unknown) || InAny(l, arriving) {
      InAnyConcat(l, unknown, arriving);
    }
    ClassifiedFrom(cached, [], unknown + arriving);
  }

  /** ans is what the upstream's response to a FETCH of span means, whichever way it ended. */
  ghost predicate Answers(ans: UpstreamAnswer, up: Upstream, span: LocRange, order: GroupOrder) {
    && Trusted(up, span, order)
    && ((up.ending.CleanFin? && AnswersFully(ans, up.ds, span, order, up.authEnd))
        || (up.ending.BudgetRanOut? && AnswersPartly(ans, up.ds, span, order)))
  }

  /** An answer's Objects are at distinct Locations, outside its unknown and its timed out ranges. */
  lemma {:induction false} AnswerObjects(ans: UpstreamAnswer, up: Upstream, span: LocRange, order: GroupOrder)
    requires Answers(ans, up, span, order)
    ensures ans.objs == StitchedObjects(up.ds) && Distinct(ans.objs)
    ensures forall o :: o in ans.objs ==> !o.IsRangeMarker()
    ensures forall l :: Holds(ans.objs, l) ==> !InAny(l, ans.unknown) && !InAny(l, ans.timedOut)
  {
    hide StitchedObjects, Meaning, Holds, Distinct, InRange;
    StitchedDistinct(up.ds, order);
    forall l | Holds(ans.objs, l) ensures !InAny(l, ans.unknown) && !InAny(l, ans.timedOut) {
      PresentIffElement(DecodedView(up.ds), l, order);
    }
  }

  /** Its two kinds of ranges meet exactly past a FIN's End Location, where the response says timed out. */
  lemma {:induction false} AnswerOverlap(
    ans: UpstreamAnswer, up: Upstream, span: LocRange, order: GroupOrder, l: Location)
    requires Answers(ans, up, span, order)
    ensures InAny(l, ans.unknown) && InAny(l, ans.timedOut) <==>
            && InRange(l, span) && up.ending.CleanFin? && Less(up.authEnd, l)
            && Meaning(DecodedView(up.ds), l, order) == TimedOut
  {
    hide StitchedObjects, Meaning, InRange, InAny, Acceptable;
  }

  /** What an answer marks is what the upstream's response leaves unknown or timed out. */
  lemma {:induction false} AnswerMarks(
    ans: UpstreamAnswer, up: Upstream, span: LocRange, order: GroupOrder, l: Location)
    requires Answers(ans, up, span, order) && InRange(l, span)
    ensures InAny(l, ans.unknown) <==> UpstreamUnknown(up, order, l)
    ensures InAny(l, ans.timedOut) <==> UpstreamTimedOut(up, order, l)
  {
    hide StitchedObjects, Meaning, InRange, InAny, Acceptable;
  }

  /** Merged lists are apart exactly if the answer's ranges do not meet at a Location the relay lacks. */
  lemma {:induction false} MergedClassified(
    cached: seq<CachedObject>, unknown: seq<LocRange>, arriving: seq<LocRange>, ans: UpstreamAnswer,
    merged: seq<CachedObject>, u: seq<LocRange>, t: seq<LocRange>)
    requires Local(cached, unknown, arriving)
    requires forall o :: o in ans.objs ==> !o.IsRangeMarker()
    requires forall l :: Holds(ans.objs, l) ==> !InAny(l, ans.unknown) && !InAny(l, ans.timedOut)
    requires Distinct(merged) && (forall o :: o in merged ==> o in cached || o in ans.objs)
    requires forall l :: Holds(merged, l) <==> Holds(cached, l) || Holds(ans.objs, l)
    requires AllValid(u) && AllValid(t)
    requires forall l :: InAny(l, u) <==> InAny(l, ans.unknown) && InAny(l, unknown)
    requires forall l :: InAny(l, t) <==>
               (InAny(l, ans.timedOut) && InAny(l, unknown)) || (InAny(l, arriving) && !Holds(merged, l))
    ensures Classified(merged, u, t) <==>
            forall l :: !(InAny(l, unknown) && InAny(l, ans.unknown) && InAny(l, ans.timedOut))
  {
    hide Holds, Distinct, InAny;
    if forall l :: !(InAny(l, unknown) && InAny(l, ans.unknown) && InAny(l, ans.timedOut)) {
      ClassifiedFrom(merged, u, t);
    } else {
      var l :| InAny(l, unknown) && InAny(l, ans.unknown) && InAny(l, ans.timedOut);
      assert InAny(l, u) && InAny(l, t);
    }
  }

  /** Every Location of an answered span is in it, or the upstream's FIN says it does not exist. */
  lemma {:induction false} AnswerCoversSpan(
    ans: UpstreamAnswer, up: Upstream, span: LocRange, order: GroupOrder, l: Location)
    requires Answers(ans, up, span, order) && InRange(l, span)
    ensures || Holds(ans.objs, l) || InAny(l, ans.unknown) || InAny(l, ans.timedOut)
            || UpstreamSaysAbsent(up, span, order, l)
  {
    hide StitchedObjects, Meaning, Holds, Distinct, InRange;
    StitchedDistinct(up.ds, order);
    var m := Meaning(DecodedView(up.ds), l, order);
    assert m == Present || m == Absent || m == Unknown || m == TimedOut;
  }

  method Build(objs: seq<CachedObject>, u: seq<LocRange>, t: seq<LocRange>, order: GroupOrder)
    returns (out: seq<CachedObject>)
    requires AllValid(u) && AllValid(t)
    ensures out == Elements(objs, u, t, order)
  {
    out := FE.FetchElements(objs, u, t, order);
  }

  /** Runs in ascending order lie between the start of the first and the end of the last. */
  lemma {:induction false} SpanOf(unknown: seq<LocRange>)
    requires MaximalRuns(unknown) && unknown != []
    ensures ValidRange(LocRange(unknown[0].lo, unknown[|unknown| - 1].hi))
    ensures forall l :: InAny(l, unknown) ==> InRange(l, LocRange(unknown[0].lo, unknown[|unknown| - 1].hi))
  {
    var n := |unknown| - 1;
    assert n > 0 ==> Separated(unknown[0], unknown[n]);
    forall l | InAny(l, unknown) ensures InRange(l, LocRange(unknown[0].lo, unknown[n].hi)) {
      var i :| 0 <= i <= n && InRange(l, unknown[i]);
      assert i > 0 ==> Separated(unknown[0], unknown[i]);
      assert i < n ==> Separated(unknown[i], unknown[n]);
    }
  }

  // ---------------------------------------------------------------------------
  // A request
  // ---------------------------------------------------------------------------

  /**
   A FETCH of [start, end]: what the cache holds of it, the Objects handed over as they completed, the
   Locations still arriving when the time ran out, and what the ledger knows to be absent.
   */
  datatype Request = Request(
    inCache: seq<CachedObject>,
    handed: seq<CachedObject>,
    still: seq<Location>,
    gapsOf: seq<byte> -> PriorGaps,
    absent: seq<LocRange>,
    start: Location,
    end: Location,
    order: GroupOrder
  )

  /** What the relay's own stores promise of a request. */
  ghost predicate Sound(q: Request) {
    && !Less(q.end, q.start) && AllValid(q.absent) && Distinct(q.inCache)
    && (forall o :: o in q.inCache || o in q.handed ==> !o.IsRangeMarker() && GapsFit(o, q.gapsOf(o.properties)))
  }

  /** The Objects the relay can serve by itself. */
  function Cached(q: Request): seq<CachedObject> {
    Together(q.inCache, q.handed)
  }

  /** An Object is on its way to l, too late for this answer. */
  predicate Arriving(q: Request, l: Location) {
    l in q.still && !Holds(Cached(q), l)
  }

  /** The relay can say nothing about l by itself. */
  ghost predicate Missing(q: Request, l: Location) {
    && InRange(l, LocRange(q.start, q.end)) && !EstablishedBy(Cached(q), q.gapsOf, l)
    && !InAny(l, q.absent) && !Arriving(q, l)
  }

  ghost predicate SomeMissing(q: Request) {
    exists l :: Missing(q, l)
  }

  /** span runs from the first missing Location to the last: what the upstream is asked for. */
  ghost predicate IsSpan(q: Request, span: LocRange) {
    Missing(q, span.lo) && Missing(q, span.hi) && forall l :: Missing(q, l) ==> InRange(l, span)
  }

  /** A signal says no Object is at l: a cached Object's, the ledger's, or, if l is missing, the upstream's. */
  ghost predicate Signalled(q: Request, up: Upstream, span: LocRange, l: Location) {
    || AbsentBy(Cached(q), q.gapsOf, l) || InAny(l, q.absent)
    || (Missing(q, l) && UpstreamSaysAbsent(up, span, q.order, l))
  }

  /** The upstream's response is used: it is in order, and ended by a FIN or by the budget. */
  ghost predicate Used(q: Request, up: Upstream, span: LocRange) {
    SomeMissing(q) && Trusted(up, span, q.order) && (up.ending.CleanFin? || up.ending.BudgetRanOut?)
  }

  /** The upstream's response leaves l unknown: it says so, or its FIN does not reach l. */
  ghost predicate UpstreamUnknown(up: Upstream, order: GroupOrder, l: Location)
    requires up.Responds?
  {
    Meaning(DecodedView(up.ds), l, order) == Unknown || (up.ending.CleanFin? && Less(up.authEnd, l))
  }

  /** It leaves l timed out: it says so, or the budget ran out before it said anything. */
  ghost predicate UpstreamTimedOut(up: Upstream, order: GroupOrder, l: Location)
    requires up.Responds?
  {
    || Meaning(DecodedView(up.ds), l, order) == TimedOut
    || (up.ending.BudgetRanOut? && Meaning(DecodedView(up.ds), l, order) == Absent)
  }

  /** The FETCH of the upstream itself ran out of time. */
  predicate Late(up: Upstream) {
    up.FetchFailed? && up.timedOut
  }

  /** l is missing, and stays unknown. */
  ghost predicate LeftUnknown(q: Request, up: Upstream, span: LocRange, l: Location) {
    Missing(q, l) && if Used(q, up, span) then UpstreamUnknown(up, q.order, l) else !Late(up)
  }

  /** l is missing, and times out. */
  ghost predicate LeftTimedOut(q: Request, up: Upstream, span: LocRange, l: Location) {
    Missing(q, l) && if Used(q, up, span) then UpstreamTimedOut(up, q.order, l) else Late(up)
  }

  /** The Objects served: the relay's own, and the upstream's where it has none. */
  ghost predicate Served(q: Request, up: Upstream, span: LocRange, o: CachedObject) {
    o in Cached(q) || (Used(q, up, span) && Carried(up.ds, o) && !Holds(Cached(q), o.Loc()))
  }

  /** A missing l past the upstream's End Location that the upstream marks timed out all the same. */
  ghost predicate Clash(q: Request, up: Upstream, span: LocRange, l: Location) {
    && Missing(q, l) && Trusted(up, span, q.order) && up.ending.CleanFin? && Less(up.authEnd, l)
    && Meaning(DecodedView(up.ds), l, q.order) == TimedOut
  }

  ghost predicate Clashes(q: Request, up: Upstream, span: LocRange) {
    exists l :: Clash(q, up, span, l)
  }

  /** Only a descending response of one shape, with its End Location short of the span, clashes. */
  lemma {:induction false} ClashIsCapConflict(q: Request, up: Upstream, span: LocRange)
    requires IsSpan(q, span) && Clashes(q, up, span)
    ensures up.Responds? && CapConflict(DecodedView(up.ds), span, q.order, up.authEnd)
  {
    hide Meaning, Acceptable, CapConflict, Missing;
    var l :| Clash(q, up, span, l);
    CapConflictExact(DecodedView(up.ds), span, q.order, up.authEnd);
  }

  lemma {:induction false} SoundCached(q: Request)
    requires Sound(q)
    ensures Distinct(Cached(q)) && q.inCache <= Cached(q) && AllGapsFit(Cached(q), q.gapsOf)
    ensures forall o :: o in Cached(q) ==> !o.IsRangeMarker() && (o in q.inCache || o in q.handed)
    ensures forall l :: Holds(Cached(q), l) <==> Holds(q.inCache, l) || Holds(q.handed, l)
  {
    hide GapsFit, Together, Holds, Distinct;
    TogetherServes(q.inCache, q.handed);
  }

  /** The ranges computed for a request are its missing Locations, and bound its span. */
  lemma {:induction false} UnknownIsMissing(q: Request, unknown: seq<LocRange>, arriving: seq<LocRange>)
    requires MaximalRuns(unknown)
    requires forall l :: InAny(l, arriving) <==> Arriving(q, l)
    requires forall l :: InAny(l, unknown) <==>
               && InRange(l, LocRange(q.start, q.end)) && !EstablishedBy(Cached(q), q.gapsOf, l)
               && !InAny(l, q.absent) && !InAny(l, arriving)
    ensures forall l :: InAny(l, unknown) <==> Missing(q, l)
    ensures SomeMissing(q) <==> unknown != []
    ensures unknown != [] ==> IsSpan(q, LocRange(unknown[0].lo, unknown[|unknown| - 1].hi))
    ensures unknown != [] ==> ValidRange(LocRange(unknown[0].lo, unknown[|unknown| - 1].hi))
  {
    hide EstablishedBy, Arriving;
    if unknown != [] {
      SpanOf(unknown);
      var first, last := unknown[0], unknown[|unknown| - 1];
      assert InRange(first.lo, first) && InRange(last.hi, last);
      assert InAny(first.lo, unknown) && InAny(last.hi, unknown);
    }
  }

  /** What a stitched answer is, whichever way its upstream ended. */
  ghost predicate Stitches(
    q: Request, up: Upstream, span: LocRange, merged: seq<CachedObject>, u: seq<LocRange>, t: seq<LocRange>)
  {
    && AllValid(u) && AllValid(t) && Distinct(merged) && Cached(q) <= merged
    && (forall o :: o in merged <==> Served(q, up, span, o))
    && (forall l :: InAny(l, u) <==> LeftUnknown(q, up, span, l))
    && (forall l :: InAny(l, t) <==> LeftTimedOut(q, up, span, l) || (Arriving(q, l) && !Holds(merged, l)))
    && (forall l :: Missing(q, l) ==>
          Holds(merged, l) || InAny(l, u) || InAny(l, t) || UpstreamSaysAbsent(up, span, q.order, l))
    && (Classified(merged, u, t) <==> !Clashes(q, up, span))
  }

  /** runs and arriving are a request's missing and arriving Locations, as the relay lists them. */
  ghost predicate Lists(q: Request, runs: seq<LocRange>, arriving: seq<LocRange>) {
    && MaximalRuns(runs) && AllValid(arriving)
    && (forall l :: InAny(l, runs) <==> Missing(q, l))
    && (forall l :: InAny(l, arriving) <==> Arriving(q, l))
  }

  /** u and t are the ranges that come of a response ended by a FIN, one by one and in order. */
  ghost predicate AsRead(
    q: Request, up: Upstream, span: LocRange, merged: seq<CachedObject>, u: seq<LocRange>, t: seq<LocRange>)
    requires Trusted(up, span, q.order)
  {
    var ans := AnswerOf(up.ds, span, q.order, up.authEnd);
    exists runs, arriving :: Lists(q, runs, arriving)
      && u == Meet(ans.unknown, runs) && t == Meet(ans.timedOut, runs) + DropHeld(arriving, merged)
  }

  /** What the relay has by itself is in order. */
  lemma {:induction false} LocalOf(q: Request, unknown: seq<LocRange>, arriving: seq<LocRange>)
    requires Sound(q) && AllValid(unknown) && AllValid(arriving)
    requires forall l :: InAny(l, arriving) <==> Arriving(q, l)
    requires forall l :: InAny(l, unknown) <==> Missing(q, l)
    ensures Local(Cached(q), unknown, arriving)
  {
    hide Together, Distinct, InAny, GapsFit;
    SoundCached(q);
    forall l | Holds(Cached(q), l) ensures EstablishedBy(Cached(q), q.gapsOf, l) {
      HeldIsSettled(Cached(q), q.gapsOf, l);
    }
  }

  /** With no answer to use, what the relay cannot settle stays missing, marked one way or the other. */
  lemma {:induction false} LocalStitches(
    q: Request, up: Upstream, span: LocRange, unknown: seq<LocRange>, arriving: seq<LocRange>, late: bool)
    requires Sound(q) && !Used(q, up, span) && (SomeMissing(q) ==> late == Late(up))
    requires AllValid(unknown) && AllValid(arriving)
    requires forall l :: InAny(l, arriving) <==> Arriving(q, l)
    requires forall l :: InAny(l, unknown) <==> Missing(q, l)
    ensures Stitches(q, up, span, Cached(q), if late then [] else unknown,
                     if late then unknown + arriving else arriving)
  {
    hide Together, Holds, Distinct, InAny, GapsFit, Trusted, EstablishedBy, InRange, Classified;
    var t := if late then unknown + arriving else arriving;
    SoundCached(q);
    LocalOf(q, unknown, arriving);
    LocalClassified(Cached(q), unknown, arriving);
    forall l
      ensures InAny(l, unknown + arriving) <==> InAny(l, unknown) || InAny(l, arriving)
      ensures !InAny(l, [])
    {
      InAnyConcat(l, unknown, arriving);
      InNone(l);
    }
    assert !Clashes(q, up, span);
  }

  lemma {:induction false} InNone(l: Location)
    ensures !InAny(l, [])
  {
  }

  /** A used answer supplies Objects, and leaves the missing Locations as it marks them. */
  lemma {:induction false} AnswerStitches(
    q: Request, up: Upstream, span: LocRange, unknown: seq<LocRange>, arriving: seq<LocRange>, ans: UpstreamAnswer,
    merged: seq<CachedObject>, u: seq<LocRange>, t: seq<LocRange>)
    requires Sound(q) && IsSpan(q, span) && Answers(ans, up, span, q.order)
    requires AllValid(unknown) && AllValid(arriving)
    requires forall l :: InAny(l, arriving) <==> Arriving(q, l)
    requires forall l :: InAny(l, unknown) <==> Missing(q, l)
    requires Distinct(merged) && Cached(q) <= merged
    requires forall o :: o in merged <==> o in Cached(q) || (o in ans.objs && !Holds(Cached(q), o.Loc()))
    requires forall l :: Holds(merged, l) <==> Holds(Cached(q), l) || Holds(ans.objs, l)
    requires AllValid(u) && AllValid(t)
    requires forall l :: InAny(l, u) <==> InAny(l, ans.unknown) && InAny(l, unknown)
    requires forall l :: InAny(l, t) <==>
               (InAny(l, ans.timedOut) && InAny(l, unknown)) || (InAny(l, arriving) && !Holds(merged, l))
    ensures Stitches(q, up, span, merged, u, t)
  {
    hide Together, Holds, Distinct, InAny, GapsFit, EstablishedBy, InRange, Classified, AnswersFully, AnswersPartly,
         StitchedObjects, Acceptable, Meaning, Arriving, UpstreamUnknown, UpstreamTimedOut, Carried;
    SoundCached(q);
    LocalOf(q, unknown, arriving);
    AnswerObjects(ans, up, span, q.order);
    MergedClassified(Cached(q), unknown, arriving, ans, merged, u, t);
    assert Used(q, up, span);
    forall o
      ensures o in ans.objs <==> Carried(up.ds, o)
    {
      CarriedExact(up.ds, o);
    }
    forall l ensures Clash(q, up, span, l) <==> InAny(l, unknown) && InAny(l, ans.unknown) && InAny(l, ans.timedOut) {
      AnswerOverlap(ans, up, span, q.order, l);
    }
    forall l | Missing(q, l)
      ensures InAny(l, ans.unknown) <==> UpstreamUnknown(up, q.order, l)
      ensures InAny(l, ans.timedOut) <==> UpstreamTimedOut(up, q.order, l)
    {
      AnswerMarks(ans, up, span, q.order, l);
    }
    forall l | Missing(q, l)
      ensures Holds(merged, l) || InAny(l, u) || InAny(l, t) || UpstreamSaysAbsent(up, span, q.order, l)
    {
      AnswerCoversSpan(ans, up, span, q.order, l);
    }
  }

  /** Refused: something is missing, and the upstream asked for it refuses the track. */
  ghost predicate Refuses(q: Request, up: Upstream, span: LocRange) {
    SomeMissing(q) && (up.RefusedTrack? || (Trusted(up, span, q.order) && up.ending.MalformedTrack?))
  }

  /** Answers q from what the relay has and, for what it lacks, from one FETCH of its upstream. */
  method Stitch(q: Request, up: Upstream)
    returns (out: seq<CachedObject>, refused: bool,
             merged: seq<CachedObject>, u: seq<LocRange>, t: seq<LocRange>, span: LocRange)
    requires Sound(q)
    ensures SomeMissing(q) ==> IsSpan(q, span)
    ensures refused <==> Refuses(q, up, span)
    ensures !refused ==> Stitches(q, up, span, merged, u, t) && out == Elements(merged, u, t, q.order)
    ensures !refused && Used(q, up, span) && up.ending.CleanFin? ==> AsRead(q, up, span, merged, u, t)
  {
    hide Elements, AnswersFully, AnswersPartly, Acceptable, GapsFit, MaximalRuns, Holds, Distinct, InAny, InRange,
         EstablishedBy, StitchedObjects, Together, Arriving, Missing, IsSpan, SomeMissing, Stitches, Used, Clash,
         AnswerOf, Meet, DropHeld, Trusted;
    SoundCached(q);
    var cached := WithObjects(q.inCache, q.handed);
    var arriving := NotHeld(q.still, cached);
    var unknown := UnknownIn(cached, q.gapsOf, q.absent, arriving, q.start, q.end);
    ArrivingRanges(q, arriving);
    UnknownIsMissing(q, unknown, arriving);
    RunsAreValid(unknown);
    span := LocRange(q.start, q.end);
    merged, u, t, refused := cached, unknown, arriving, false;
    if unknown == [] {
      NotUsed(q, up, span);
      LocalStitches(q, up, span, unknown, arriving, false);
      out := Build(cached, [], arriving, q.order);
      return;
    }
    span := LocRange(unknown[0].lo, unknown[|unknown| - 1].hi);
    if up.NoUpstream? {
      NotUsed(q, up, span);
      LocalStitches(q, up, span, unknown, arriving, false);
      out := Build(cached, unknown, arriving, q.order);
      return;
    }
    var ans;
    ans, refused := FetchUpstreamRange(up, LocRange(unknown[0].lo, unknown[|unknown| - 1].hi), q.order);
    if refused {
      return [], true, [], [], [], span;
    }
    AnsweredIffUsed(q, up, span, ans);
    match ans.failed
    case FailedUnknown =>
      LocalStitches(q, up, span, unknown, arriving, false);
      out := Build(cached, unknown, arriving, q.order);
    case FailedTimedOut =>
      u, t := [], unknown + arriving;
      LocalStitches(q, up, span, unknown, arriving, true);
      out := Build(cached, [], unknown + arriving, q.order);
    case Answered =>
      AnswerObjects(ans, up, span, q.order);
      var all, left, late := MergeAnswer(cached, unknown, arriving, ans);
      merged, u, t := all, left, late;
      assert Lists(q, unknown, arriving);
      AnswerStitches(q, up, span, unknown, arriving, ans, merged, u, t);
      out := Build(all, left, late, q.order);
  }

  lemma {:induction false} ArrivingRanges(q: Request, arriving: seq<LocRange>)
    requires forall l :: InAny(l, arriving) <==> l in q.still && !Holds(Cached(q), l)
    ensures forall l :: InAny(l, arriving) <==> Arriving(q, l)
  {
  }

  lemma {:induction false} RunsAreValid(rs: seq<LocRange>)
    requires MaximalRuns(rs)
    ensures AllValid(rs)
  {
  }

  lemma {:induction false} NotUsed(q: Request, up: Upstream, span: LocRange)
    requires !SomeMissing(q) || up.NoUpstream?
    ensures !Used(q, up, span) && !Refuses(q, up, span)
  {
  }

  /** The upstream's answer is used exactly if there is one. */
  lemma {:induction false} AnsweredIffUsed(q: Request, up: Upstream, span: LocRange, ans: UpstreamAnswer)
    requires SomeMissing(q) && !Refuses(q, up, span) && !up.NoUpstream? && !up.RefusedTrack?
    requires up.FetchFailed? ==> ans == NO_ANSWER.(failed := if up.timedOut then FailedTimedOut else FailedUnknown)
    requires up.Responds? ==>
               if Trusted(up, span, q.order) && up.ending.CleanFin? then
                 AnswersFully(ans, up.ds, span, q.order, up.authEnd)
               else if Trusted(up, span, q.order) && up.ending.BudgetRanOut? then
                 AnswersPartly(ans, up.ds, span, q.order)
               else ans == NO_ANSWER
    ensures ans.failed == Answered <==> Used(q, up, span)
    ensures ans.failed == FailedTimedOut <==> Late(up)
    ensures Used(q, up, span) ==> Trusted(up, span, q.order)
    ensures ans.failed == Answered ==> Answers(ans, up, span, q.order)
  {
    hide Acceptable;
  }

  /**
   The answer to a FETCH. It is refused exactly when something is missing and the upstream refuses the
   track. Otherwise, unless the upstream's End Location clashes with its own timed out marks, it is in
   stream order, its Objects are exactly the relay's own and the upstream's where it has none, what the
   upstream leaves unknown or timed out is marked so, an Object still arriving is timed out, and an Object
   is said not to exist only where a signal says so.
   */
  method StitchedFetchObjects(q: Request, up: Upstream)
    returns (out: seq<CachedObject>, refused: bool, span: LocRange)
    requires Sound(q)
    ensures SomeMissing(q) ==> IsSpan(q, span)
    ensures refused <==> Refuses(q, up, span)
    ensures !refused && !Clashes(q, up, span) ==>
              && InStreamOrder(View(out), q.order)
              && (forall o: CachedObject :: !o.IsRangeMarker() ==> (o in out <==> Served(q, up, span, o)))
    ensures !refused && !Clashes(q, up, span) ==>
              forall l ::
                && (LeftUnknown(q, up, span, l) ==> Meaning(View(out), l, q.order) == Unknown)
                && (LeftTimedOut(q, up, span, l) ==> Meaning(View(out), l, q.order) == TimedOut)
                && (Arriving(q, l) && Meaning(View(out), l, q.order) != Present ==>
                      Meaning(View(out), l, q.order) == TimedOut)
    ensures !refused && !Clashes(q, up, span) ==>
              forall l :: InRange(l, LocRange(q.start, q.end)) && Meaning(View(out), l, q.order) == Absent ==>
                Signalled(q, up, span, l)
  {
    hide Elements, Meaning, Classified, Holds, InAny, InRange, Distinct, StitchedObjects, Missing, Arriving, Served,
         UpstreamSaysAbsent, Clashes, AbsentBy, Refuses, IsSpan, LeftUnknown, LeftTimedOut;
    var merged, u, t;
    out, refused, merged, u, t, span := Stitch(q, up);
    if !refused && !Clashes(q, up, span) {
      ElementsSound(merged, u, t, q.order);
      forall l
        ensures LeftUnknown(q, up, span, l) ==> Meaning(View(out), l, q.order) == Unknown
        ensures LeftTimedOut(q, up, span, l) ==> Meaning(View(out), l, q.order) == TimedOut
        ensures Arriving(q, l) && Meaning(View(out), l, q.order) != Present ==>
          Meaning(View(out), l, q.order) == TimedOut
        ensures InRange(l, LocRange(q.start, q.end)) && Meaning(View(out), l, q.order) == Absent ==>
          Signalled(q, up, span, l)
      {
        StitchedMeans(q, up, span, merged, u, t, l);
      }
    }
  }

  /** What a classified answer says of l. */
  lemma {:induction false} StitchedMeans(
    q: Request, up: Upstream, span: LocRange, merged: seq<CachedObject>, u: seq<LocRange>, t: seq<LocRange>,
    l: Location)
    requires Stitches(q, up, span, merged, u, t) && !Clashes(q, up, span)
    ensures var m := Meaning(View(Elements(merged, u, t, q.order)), l, q.order);
      && (m == Present <==> Holds(merged, l))
      && (Arriving(q, l) && m != Present ==> m == TimedOut)
      && (LeftUnknown(q, up, span, l) ==> m == Unknown) && (LeftTimedOut(q, up, span, l) ==> m == TimedOut)
      && (InRange(l, LocRange(q.start, q.end)) && m == Absent ==> Signalled(q, up, span, l))
  {
    hide Elements, Meaning, Classified, EstablishedBy, Arriving, UpstreamSaysAbsent;
    ElementsSound(merged, u, t, q.order);
    HoldsIsMember(merged, l);
    assert Missing(q, l) || !InRange(l, LocRange(q.start, q.end)) || EstablishedBy(Cached(q), q.gapsOf, l)
           || InAny(l, q.absent) || Arriving(q, l);
    if EstablishedBy(Cached(q), q.gapsOf, l) && !Holds(merged, l) {
      SettledAbsent(Cached(q), q.gapsOf, l);
    }
  }
}
