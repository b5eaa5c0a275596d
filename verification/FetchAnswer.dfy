/** How a relay reads an upstream FETCH response back into Location ranges. */
module FetchAnswer {
  import opened Uint64
  import opened Locations
  import opened FetchMeaning
  import opened FetchRanges
  import opened FetchElements

  /** One element of a response, its deltas resolved. */
  datatype DecodedObject = DecodedObject(
    group: u64,
    obj: u64,
    subgroup: u64,
    priority: byte,
    properties: seq<byte>,
    payload: seq<byte>,
    datagram: bool,
    endOfNonExistentRange: bool,
    endOfUnknownRange: bool,
    endOfTimedOutRange: bool
  ) {
    function Loc(): Location {
      Location(group, obj)
    }
  }

  function DecodedElem(d: DecodedObject): Elem {
    Elem(d.Loc(),
         if d.endOfUnknownRange then UnknownEnd
         else if d.endOfTimedOutRange then TimedOutEnd
         else if d.endOfNonExistentRange then NonExistentEnd
         else ObjectElem)
  }

  function DecodedView(ds: seq<DecodedObject>): (es: seq<Elem>)
    ensures |es| == |ds| && forall i :: 0 <= i < |ds| ==> es[i] == DecodedElem(ds[i])
  {
    seq(|ds|, i requires 0 <= i < |ds| => DecodedElem(ds[i]))
  }

  /** The Object a relay keeps of a decoded one. */
  function Stitched(d: DecodedObject): CachedObject {
    CachedObject(d.group, d.obj, d.subgroup, d.priority, d.datagram, STATUS_NORMAL, d.properties, d.payload,
                 false, false)
  }

  function StitchedObjects(ds: seq<DecodedObject>): seq<CachedObject> {
    if ds == [] then []
    else
      var d := ds[|ds| - 1];
      StitchedObjects(ds[..|ds| - 1]) + (if DecodedElem(d).kind == ObjectElem then [Stitched(d)] else [])
  }

  /** o is the Object d carries, field by field, of normal status. */
  predicate IsKept(d: DecodedObject, o: CachedObject) {
    && o.group == d.group && o.obj == d.obj && o.subgroup == d.subgroup && o.priority == d.priority
    && o.datagram == d.datagram && o.properties == d.properties && o.payload == d.payload
    && o.status == 0 && !o.endOfUnknownRange && !o.endOfTimedOutRange
  }

  predicate CarriesObject(d: DecodedObject) {
    !d.endOfNonExistentRange && !d.endOfUnknownRange && !d.endOfTimedOutRange
  }

  /** objs are the Objects of ds, in order and field by field. */
  predicate Keeps(objs: seq<CachedObject>, ds: seq<DecodedObject>) {
    if ds == [] then objs == []
    else if !CarriesObject(ds[|ds| - 1]) then Keeps(objs, ds[..|ds| - 1])
    else objs != [] && IsKept(ds[|ds| - 1], objs[|objs| - 1]) && Keeps(objs[..|objs| - 1], ds[..|ds| - 1])
  }

  lemma {:induction false} StitchedKeeps(ds: seq<DecodedObject>)
    ensures Keeps(StitchedObjects(ds), ds)
    decreases |ds|
  {
    if ds != [] {
      var n := |ds| - 1;
      StitchedKeeps(ds[..n]);
      var all, rest := StitchedObjects(ds), StitchedObjects(ds[..n]);
      if CarriesObject(ds[n]) {
        assert all == rest + [Stitched(ds[n])] && all[..|all| - 1] == rest;
      } else {
        assert all == rest + [] == rest;
      }
    }
  }

  /** One of ds carries o. */
  ghost predicate Carried(ds: seq<DecodedObject>, o: CachedObject) {
    exists i :: 0 <= i < |ds| && CarriesObject(ds[i]) && IsKept(ds[i], o)
  }

  lemma {:induction false} CarriedExact(ds: seq<DecodedObject>, o: CachedObject)
    ensures o in StitchedObjects(ds) <==> Carried(ds, o)
  {
    StitchedMembers(ds, o);
    forall d
      ensures CarriesObject(d) <==> DecodedElem(d).kind == ObjectElem
      ensures IsKept(d, o) <==> o == Stitched(d)
    {
    }
  }

  /** The order and bounds check of the read loop. */
  predicate ElemOK(l: Location, prev: Option<Location>, span: LocRange, order: GroupOrder) {
    && !Less(l, span.lo) && !Less(span.hi, l)
    && (prev.None? || StreamCompare(prev.value, l, order) < 0)
  }

  // ---------------------------------------------------------------------------
  // What a marker covers
  // ---------------------------------------------------------------------------

  /** The first Object ID group g of span carries. */
  function GroupLo(span: LocRange, g: u64): u64 {
    if g == span.lo.group then span.lo.obj else 0
  }

  function GroupHi(span: LocRange, g: u64): u64 {
    if g == span.hi.group then span.hi.obj else MAX_U64
  }

  /** Where a descending response goes on after prev. */
  function NextDescending(prev: Option<Location>, at: Location, span: LocRange): Location
    requires ElemOK(at, prev, span, Descending)
    requires prev.Some? ==> InRange(prev.value, span)
  {
    if prev.None? then Location(span.hi.group, GroupLo(span, span.hi.group))
    else if prev.value.obj < GroupHi(span, prev.value.group) then Location(prev.value.group, prev.value.obj + 1)
    else Location(prev.value.group - 1, GroupLo(span, prev.value.group - 1))
  }

  /** The Locations a marker speaks for, as ranges in ascending order: everything since the element before it. */
  function StreamCovered(prev: Option<Location>, at: Location, span: LocRange, order: GroupOrder): seq<LocRange>
    requires ElemOK(at, prev, span, order)
    requires prev.Some? ==> InRange(prev.value, span)
  {
    if order.Ascending? then
      [LocRange(if prev.None? then span.lo else Successor(prev.value).value, at)]
    else
      var start := NextDescending(prev, at, span);
      if start.group == at.group then [LocRange(start, at)]
      else
        [LocRange(Location(at.group, GroupLo(span, at.group)), at)]
        + (if start.group - at.group > 1
           then [LocRange(Location(at.group + 1, 0), Location(start.group - 1, MAX_U64))] else [])
        + [LocRange(start, Location(start.group, GroupHi(span, start.group)))]
  }

  /** Exactly the Locations of span after prev and up to at, as disjoint ranges. */
  lemma {:induction false} StreamCoveredExact(prev: Option<Location>, at: Location, span: LocRange, order: GroupOrder)
    requires ElemOK(at, prev, span, order)
    requires prev.Some? ==> InRange(prev.value, span)
    ensures var rs := StreamCovered(prev, at, span, order);
            && AllValid(rs)
            && (forall i, j :: 0 <= i < j < |rs| ==> Less(rs[i].hi, rs[j].lo))
    ensures forall l :: InAny(l, StreamCovered(prev, at, span, order)) <==>
              InRange(l, span) && (prev.None? || Before(prev.value, l, order)) && !Before(at, l, order)
  {
    var rs := StreamCovered(prev, at, span, order);
    forall l
      ensures InAny(l, rs) <==>
              InRange(l, span) && (prev.None? || Before(prev.value, l, order)) && !Before(at, l, order)
    {
      CoveredAt(prev, at, span, order, l);
    }
  }

  lemma {:induction false} CoveredAt(
    prev: Option<Location>, at: Location, span: LocRange, order: GroupOrder, l: Location)
    requires ElemOK(at, prev, span, order)
    requires prev.Some? ==> InRange(prev.value, span)
    ensures InAny(l, StreamCovered(prev, at, span, order)) <==>
            InRange(l, span) && (prev.None? || Before(prev.value, l, order)) && !Before(at, l, order)
  {
    var rs := StreamCovered(prev, at, span, order);
    if |rs| == 1 {
      assert InAny(l, rs) <==> InRange(l, rs[0]);
    } else if |rs| == 2 {
      assert InAny(l, rs) <==> InRange(l, rs[0]) || InRange(l, rs[1]);
    } else {
      assert InAny(l, rs) <==> InRange(l, rs[0]) || InRange(l, rs[1]) || InRange(l, rs[2]);
    }
  }

  // ---------------------------------------------------------------------------
  // Reading a response
  // ---------------------------------------------------------------------------

  datatype UpstreamFailure = Answered | FailedUnknown | FailedTimedOut

  /** An upstream's answer for a span; Locations of the span in no part do not exist. */
  datatype UpstreamAnswer = UpstreamAnswer(
    objs: seq<CachedObject>,
    unknown: seq<LocRange>,
    timedOut: seq<LocRange>,
    failed: UpstreamFailure
  )

  /** How the reads of a response stream end, after the elements decoded from it. */
  datatype Ending = CleanFin | BudgetRanOut | Broken | MalformedTrack

  const NO_ANSWER := UpstreamAnswer([], [], [], FailedUnknown)

  /** Every element is in the span, not past the FETCH_OK End Location, and in stream order. */
  ghost predicate Acceptable(es: seq<Elem>, span: LocRange, order: GroupOrder, authEnd: Location) {
    && InStreamOrder(es, order)
    && (forall i :: 0 <= i < |es| ==> InRange(es[i].at, span) && !Less(authEnd, es[i].at))
  }

  /** The first i elements of es reach l. */
  predicate Reached(es: seq<Elem>, i: nat, l: Location, order: GroupOrder)
    requires i <= |es|
  {
    i > 0 && !Before(es[i - 1].at, l, order)
  }

  /** rs holds exactly the Locations of span the first i elements of es give status st. */
  ghost predicate ReadSoFar(
    rs: seq<LocRange>, es: seq<Elem>, i: nat, span: LocRange, order: GroupOrder, st: Status)
    requires i <= |es|
  {
    && AllValid(rs)
    && forall l :: InAny(l, rs) <==> InRange(l, span) && Reached(es, i, l, order) && Meaning(es, l, order) == st
  }

  /** An element's verdict on the Locations it newly reaches. */
  lemma {:induction false} NewlyReached(es: seq<Elem>, i: nat, l: Location, order: GroupOrder)
    requires i < |es|
    requires forall j, k :: 0 <= j < k <= i ==> Before(es[j].at, es[k].at, order)
    ensures Reached(es, i, l, order) ==> Reached(es, i + 1, l, order)
    ensures Reached(es, i + 1, l, order) && !Reached(es, i, l, order) ==> Meaning(es, l, order) == Verdict(es[i], l)
    ensures Reached(es, i + 1, l, order) && !Reached(es, i, l, order) <==>
            (i > 0 ==> Before(es[i - 1].at, l, order)) && !Before(es[i].at, l, order)
  {
    if Reached(es, i + 1, l, order) && !Reached(es, i, l, order) {
      forall j | 0 <= j < i ensures Before(es[j].at, l, order) {
        assert j < i - 1 ==> Before(es[j].at, es[i - 1].at, order);
      }
      FirstDecides(es, i, l, order);
    }
  }

  /** An element that does not give status st adds nothing to what was read with it. */
  lemma {:induction false} ReadOther(
    rs: seq<LocRange>, es: seq<Elem>, i: nat, span: LocRange, order: GroupOrder, st: Status)
    requires i < |es|
    requires forall j, k :: 0 <= j < k <= i ==> Before(es[j].at, es[k].at, order)
    requires ReadSoFar(rs, es, i, span, order, st)
    requires forall l :: Verdict(es[i], l) != st
    ensures ReadSoFar(rs, es, i + 1, span, order, st)
  {
    forall l ensures Reached(es, i, l, order) && Meaning(es, l, order) == st
                     <==> Reached(es, i + 1, l, order) && Meaning(es, l, order) == st {
      NewlyReached(es, i, l, order);
    }
  }

  /** A marker adds exactly what it covers. */
  lemma {:induction false} ReadMarker(
    rs: seq<LocRange>, es: seq<Elem>, i: nat, span: LocRange, order: GroupOrder, st: Status, prev: Option<Location>)
    requires i < |es|
    requires forall j, k :: 0 <= j < k <= i ==> Before(es[j].at, es[k].at, order)
    requires ReadSoFar(rs, es, i, span, order, st)
    requires prev == if i == 0 then None else Some(es[i - 1].at)
    requires prev.Some? ==> InRange(prev.value, span)
    requires ElemOK(es[i].at, prev, span, order)
    requires forall l :: Verdict(es[i], l) == st
    ensures ReadSoFar(rs + StreamCovered(prev, es[i].at, span, order), es, i + 1, span, order, st)
  {
    hide StreamCovered, Compare;
    var more := StreamCovered(prev, es[i].at, span, order);
    StreamCoveredExact(prev, es[i].at, span, order);
    forall l ensures InAny(l, rs + more) <==>
                     InRange(l, span) && Reached(es, i + 1, l, order) && Meaning(es, l, order) == st {
      InAnyConcat(l, rs, more);
      NewlyReached(es, i, l, order);
    }
  }

  /** rs holds exactly the Locations of span whose status in es is one of sts. */
  ghost predicate Denotes(rs: seq<LocRange>, es: seq<Elem>, span: LocRange, order: GroupOrder, sts: set<Status>) {
    && AllValid(rs)
    && forall l :: InAny(l, rs) <==> InRange(l, span) && Meaning(es, l, order) in sts
  }

  /** rs holds the Locations of span whose status in es is Unknown, and those past authEnd. */
  ghost predicate UnknownUpTo(
    rs: seq<LocRange>, es: seq<Elem>, span: LocRange, order: GroupOrder, authEnd: Location) {
    && AllValid(rs)
    && forall l :: InAny(l, rs) <==> InRange(l, span) && (Less(authEnd, l) || Meaning(es, l, order) == Unknown)
  }

  /** ans is what ds, ended by a FIN, says about span, and unknown past authEnd. */
  ghost predicate AnswersFully(
    ans: UpstreamAnswer, ds: seq<DecodedObject>, span: LocRange, order: GroupOrder, authEnd: Location)
  {
    && ans.failed == Answered
    && ans.objs == StitchedObjects(ds)
    && UnknownUpTo(ans.unknown, DecodedView(ds), span, order, authEnd)
    && Denotes(ans.timedOut, DecodedView(ds), span, order, {TimedOut})
  }

  /** ans is what ds says about span, and timed out where ds leaves a gap. */
  ghost predicate AnswersPartly(ans: UpstreamAnswer, ds: seq<DecodedObject>, span: LocRange, order: GroupOrder) {
    && ans.failed == Answered
    && ans.objs == StitchedObjects(ds)
    && Denotes(ans.unknown, DecodedView(ds), span, order, {Unknown})
    && Denotes(ans.timedOut, DecodedView(ds), span, order, {TimedOut, Absent})
  }

  /** Once every element is read, so is every Location with a status other than Absent. */
  lemma {:induction false} ReadAll(rs: seq<LocRange>, es: seq<Elem>, span: LocRange, order: GroupOrder, st: Status)
    requires ReadSoFar(rs, es, |es|, span, order, st) && st != Absent
    requires InStreamOrder(es, order)
    ensures Denotes(rs, es, span, order, {st})
  {
    forall l ensures Meaning(es, l, order) == st ==> Reached(es, |es|, l, order) {
      if !Reached(es, |es|, l, order) {
        assert forall j :: 0 <= j < |es| - 1 ==> Before(es[j].at, es[|es| - 1].at, order);
        FirstDecides(es, |es|, l, order);
      }
    }
  }

  /** The single-Location ranges of objs. */
  function LocationsOf(objs: seq<CachedObject>): (rs: seq<LocRange>)
    ensures AllValid(rs)
    ensures forall l :: InAny(l, rs) <==> exists o :: o in objs && o.Loc() == l
  {
    var rs := seq(|objs|, i requires 0 <= i < |objs| => LocRange(objs[i].Loc(), objs[i].Loc()));
    assert forall l :: InAny(l, rs) ==> exists o :: o in objs && o.Loc() == l by {
      forall l | InAny(l, rs) ensures exists o :: o in objs && o.Loc() == l {
        var i :| 0 <= i < |rs| && InRange(l, rs[i]);
        assert objs[i] in objs && objs[i].Loc() == l;
      }
    }
    assert forall l :: (exists o :: o in objs && o.Loc() == l) ==> InAny(l, rs) by {
      forall l | exists o :: o in objs && o.Loc() == l ensures InAny(l, rs) {
        var o :| o in objs && o.Loc() == l;
        var i :| 0 <= i < |objs| && objs[i] == o;
        assert InRange(l, rs[i]);
      }
    }
    rs
  }

  lemma {:induction false} StitchedMembers(ds: seq<DecodedObject>, o: CachedObject)
    ensures o in StitchedObjects(ds) <==>
            exists i :: 0 <= i < |ds| && DecodedElem(ds[i]).kind == ObjectElem && o == Stitched(ds[i])
  {
    if ds != [] {
      var n := |ds| - 1;
      StitchedMembers(ds[..n], o);
      if o in StitchedObjects(ds[..n]) {
        var i :| 0 <= i < n && DecodedElem(ds[..n][i]).kind == ObjectElem && o == Stitched(ds[..n][i]);
        assert ds[i] == ds[..n][i];
      }
      if i :| 0 <= i < |ds| && DecodedElem(ds[i]).kind == ObjectElem && o == Stitched(ds[i]) {
        if i < n {
          assert ds[..n][i] == ds[i];
        }
      }
    }
  }

  /** The Objects read are where the response says an Object is. */
  lemma {:induction false} StitchedWherePresent(ds: seq<DecodedObject>, l: Location, order: GroupOrder)
    requires InStreamOrder(DecodedView(ds), order)
    ensures (exists o :: o in StitchedObjects(ds) && o.Loc() == l) <==> Meaning(DecodedView(ds), l, order) == Present
  {
    PresentIffElement(DecodedView(ds), l, order);
    if o :| o in StitchedObjects(ds) && o.Loc() == l {
      StitchedMembers(ds, o);
      var i :| 0 <= i < |ds| && DecodedElem(ds[i]).kind == ObjectElem && o == Stitched(ds[i]);
      assert DecodedView(ds)[i] == Elem(l, ObjectElem);
    }
    if Elem(l, ObjectElem) in DecodedView(ds) {
      var i :| 0 <= i < |ds| && DecodedView(ds)[i] == Elem(l, ObjectElem);
      StitchedMembers(ds, Stitched(ds[i]));
      assert Stitched(ds[i]).Loc() == l;
    }
  }

  lemma {:induction false} DenotesConcat(
    a: seq<LocRange>, b: seq<LocRange>, es: seq<Elem>, span: LocRange, order: GroupOrder, A: set<Status>,
    B: set<Status>)
    requires Denotes(a, es, span, order, A) && Denotes(b, es, span, order, B)
    ensures Denotes(a + b, es, span, order, A + B)
  {
    forall l ensures InAny(l, a + b) <==> InAny(l, a) || InAny(l, b) {
      InAnyConcat(l, a, b);
    }
  }

  lemma {:induction false} DenotesUncovered(
    rest: seq<LocRange>, known: seq<LocRange>, es: seq<Elem>, span: LocRange, order: GroupOrder, sts: set<Status>)
    requires IsUncovered(rest, span.lo, span.hi, known) && Denotes(known, es, span, order, sts)
    ensures Denotes(rest, es, span, order, {Present, Absent, Unknown, TimedOut} - sts)
  {
    hide Meaning;
    forall l ensures InAny(l, rest) <==>
                     InRange(l, span) && Meaning(es, l, order) in {Present, Absent, Unknown, TimedOut} - sts {
      var m := Meaning(es, l, order);
      assert m == Present || m == Absent || m == Unknown || m == TimedOut;
    }
  }

  lemma {:induction false} StitchedDenote(ds: seq<DecodedObject>, span: LocRange, order: GroupOrder)
    requires InStreamOrder(DecodedView(ds), order)
    requires forall i :: 0 <= i < |ds| ==> InRange(ds[i].Loc(), span)
    ensures Denotes(LocationsOf(StitchedObjects(ds)), DecodedView(ds), span, order, {Present})
  {
    hide Meaning, LocationsOf, StitchedObjects;
    var es := DecodedView(ds);
    forall l ensures InAny(l, LocationsOf(StitchedObjects(ds))) <==>
                     InRange(l, span) && Meaning(es, l, order) == Present {
      StitchedWherePresent(ds, l, order);
      PresentIffElement(es, l, order);
      if Elem(l, ObjectElem) in es {
        var i :| 0 <= i < |es| && es[i] == Elem(l, ObjectElem);
        assert ds[i].Loc() == l;
      }
    }
  }

  /** A response cut short: what it neither sent nor marked is timed out. */
  lemma {:induction false} CutShort(
    ans: UpstreamAnswer, rest: seq<LocRange>, ds: seq<DecodedObject>, span: LocRange, order: GroupOrder)
    requires InStreamOrder(DecodedView(ds), order)
    requires forall i :: 0 <= i < |ds| ==> InRange(ds[i].Loc(), span)
    requires ans.failed == Answered && ans.objs == StitchedObjects(ds)
    requires Denotes(ans.unknown, DecodedView(ds), span, order, {Unknown})
    requires Denotes(ans.timedOut, DecodedView(ds), span, order, {TimedOut})
    requires IsUncovered(rest, span.lo, span.hi, ans.unknown + ans.timedOut + LocationsOf(ans.objs))
    ensures AnswersPartly(ans.(timedOut := ans.timedOut + rest), ds, span, order)
  {
    hide Denotes, IsUncovered, LocationsOf, StitchedObjects, InRange;
    var es := DecodedView(ds);
    StitchedDenote(ds, span, order);
    DenotesConcat(ans.unknown, ans.timedOut, es, span, order, {Unknown}, {TimedOut});
    DenotesConcat(ans.unknown + ans.timedOut, LocationsOf(ans.objs), es, span, order,
                  {Unknown} + {TimedOut}, {Present});
    DenotesUncovered(rest, ans.unknown + ans.timedOut + LocationsOf(ans.objs), es, span, order,
                     {Unknown} + {TimedOut} + {Present});
    assert {Present, Absent, Unknown, TimedOut} - ({Unknown} + {TimedOut} + {Present}) == {Absent};
    DenotesConcat(ans.timedOut, rest, es, span, order, {TimedOut}, {Absent});
    assert {TimedOut} + {Absent} == {TimedOut, Absent};
  }

  /** Past the End Location of a response ended by a FIN nothing is known. */
  lemma {:induction false} EndLocationCaps(
    unknown: seq<LocRange>, es: seq<Elem>, span: LocRange, order: GroupOrder, authEnd: Location)
    requires Denotes(unknown, es, span, order, {Unknown}) && !Less(authEnd, span.lo)
    ensures !Less(authEnd, span.hi) ==> UnknownUpTo(unknown, es, span, order, authEnd)
    ensures Less(authEnd, span.hi) ==>
              && Successor(authEnd).Some?
              && UnknownUpTo(unknown + [LocRange(Successor(authEnd).value, span.hi)], es, span, order, authEnd)
  {
    hide Meaning;
    if Less(authEnd, span.hi) {
      SuccessorIsNext(authEnd);
      var tail := LocRange(Successor(authEnd).value, span.hi);
      forall l ensures InAny(l, unknown + [tail]) <==> InAny(l, unknown) || InRange(l, tail) {
        InAnyAppend(l, unknown, tail);
      }
    }
  }

  /** What the loop below has established before element i. */
  ghost predicate ReadState(
    ans: UpstreamAnswer, ds: seq<DecodedObject>, i: nat, prev: Option<Location>,
    span: LocRange, order: GroupOrder, authEnd: Location)
    requires i <= |ds|
  {
    var es := DecodedView(ds);
    && prev == (if i == 0 then None else Some(es[i - 1].at))
    && (forall j :: 0 <= j < i ==> InRange(es[j].at, span) && !Less(authEnd, es[j].at))
    && (forall j, k :: 0 <= j < k < i ==> Before(es[j].at, es[k].at, order))
    && ans.objs == StitchedObjects(ds[..i]) && ans.failed == Answered
    && ReadSoFar(ans.unknown, es, i, span, order, Unknown)
    && ReadSoFar(ans.timedOut, es, i, span, order, TimedOut)
  }

  /** ans with what one more element says. */
  function ReadElem(ans: UpstreamAnswer, d: DecodedObject, prev: Option<Location>, span: LocRange, order: GroupOrder)
    : UpstreamAnswer
    requires ElemOK(d.Loc(), prev, span, order)
    requires prev.Some? ==> InRange(prev.value, span)
  {
    if d.endOfUnknownRange then ans.(unknown := ans.unknown + StreamCovered(prev, d.Loc(), span, order))
    else if d.endOfTimedOutRange then ans.(timedOut := ans.timedOut + StreamCovered(prev, d.Loc(), span, order))
    else if d.endOfNonExistentRange then ans
    else ans.(objs := ans.objs + [Stitched(d)])
  }

  /** ds is in order inside span. */
  ghost predicate Readable(ds: seq<DecodedObject>, span: LocRange, order: GroupOrder) {
    && (forall i :: 0 <= i < |ds| ==> InRange(ds[i].Loc(), span))
    && (forall i, j :: 0 <= i < j < |ds| ==> Before(ds[i].Loc(), ds[j].Loc(), order))
  }

  /** What ds says, element by element, as the ranges the loop collects. */
  function ReadOf(ds: seq<DecodedObject>, span: LocRange, order: GroupOrder): UpstreamAnswer
    requires Readable(ds, span, order)
  {
    if ds == [] then UpstreamAnswer([], [], [], Answered)
    else
      var n := |ds| - 1;
      assert InRange(ds[n].Loc(), span);
      ReadElem(ReadOf(ds[..n], span, order), ds[n], if n == 0 then None else Some(ds[n - 1].Loc()), span, order)
  }

  lemma {:induction false} AcceptableIsReadable(
    ds: seq<DecodedObject>, span: LocRange, order: GroupOrder, authEnd: Location)
    requires Acceptable(DecodedView(ds), span, order, authEnd)
    ensures Readable(ds, span, order)
  {
    hide Before, InRange, Less;
    assert forall i :: 0 <= i < |ds| ==> ds[i].Loc() == DecodedView(ds)[i].at;
  }

  /** The answer to a response ended by a FIN: its ranges as collected, and then the rest past authEnd. */
  function AnswerOf(ds: seq<DecodedObject>, span: LocRange, order: GroupOrder, authEnd: Location): UpstreamAnswer
    requires Acceptable(DecodedView(ds), span, order, authEnd)
  {
    AcceptableIsReadable(ds, span, order, authEnd);
    var ans := ReadOf(ds, span, order);
    if Less(authEnd, span.hi) && Successor(authEnd).Some?
    then ans.(unknown := ans.unknown + [LocRange(Successor(authEnd).value, span.hi)]) else ans
  }

  lemma {:induction false} ReadableSoFar(
    ans: UpstreamAnswer, ds: seq<DecodedObject>, i: nat, prev: Option<Location>,
    span: LocRange, order: GroupOrder, authEnd: Location)
    requires i <= |ds| && ReadState(ans, ds, i, prev, span, order, authEnd)
    ensures Readable(ds[..i], span, order)
  {
    hide Before, InRange, Less, ReadSoFar, StitchedObjects;
    assert forall j :: 0 <= j < i ==> ds[..i][j].Loc() == DecodedView(ds)[j].at;
  }

  lemma {:induction false} ReadOfStep(
    ds: seq<DecodedObject>, i: nat, prev: Option<Location>, span: LocRange, order: GroupOrder)
    requires i < |ds| && Readable(ds[..i], span, order) && Readable(ds[..i + 1], span, order)
    requires prev == if i == 0 then None else Some(ds[i - 1].Loc())
    requires ElemOK(ds[i].Loc(), prev, span, order) && (prev.Some? ==> InRange(prev.value, span))
    ensures ReadOf(ds[..i + 1], span, order) == ReadElem(ReadOf(ds[..i], span, order), ds[i], prev, span, order)
  {
    hide ReadElem, InRange, ElemOK, Readable;
    assert ds[..i + 1][..i] == ds[..i];
  }

  lemma {:induction false} ReadStep(
    ans: UpstreamAnswer, ds: seq<DecodedObject>, i: nat, prev: Option<Location>,
    span: LocRange, order: GroupOrder, authEnd: Location)
    requires i < |ds| && ReadState(ans, ds, i, prev, span, order, authEnd)
    requires ElemOK(ds[i].Loc(), prev, span, order) && !Less(authEnd, ds[i].Loc())
    ensures prev.Some? ==> InRange(prev.value, span)
    ensures ReadState(ReadElem(ans, ds[i], prev, span, order), ds, i + 1, Some(ds[i].Loc()), span, order, authEnd)
  {
    hide StreamCovered, Meaning, ReadSoFar;
    var es := DecodedView(ds);
    forall j, k | 0 <= j < k <= i ensures Before(es[j].at, es[k].at, order) {
      if k == i && j < i - 1 {
        assert Before(es[j].at, es[i - 1].at, order);
      }
    }
    assert ds[..i + 1][..i] == ds[..i];
    if ds[i].endOfUnknownRange {
      ReadMarker(ans.unknown, es, i, span, order, Unknown, prev);
    } else {
      ReadOther(ans.unknown, es, i, span, order, Unknown);
    }
    if !ds[i].endOfUnknownRange && ds[i].endOfTimedOutRange {
      ReadMarker(ans.timedOut, es, i, span, order, TimedOut, prev);
    } else {
      ReadOther(ans.timedOut, es, i, span, order, TimedOut);
    }
  }

  lemma {:induction false} StartReading(ds: seq<DecodedObject>, span: LocRange, order: GroupOrder, authEnd: Location)
    ensures ReadState(UpstreamAnswer([], [], [], Answered), ds, 0, None, span, order, authEnd)
    ensures Readable(ds[..0], span, order) && ReadOf(ds[..0], span, order) == UpstreamAnswer([], [], [], Answered)
  {
  }

  /** With every element read, the rest follows from how the stream ended. */
  lemma {:induction false} FinishReading(
    ans: UpstreamAnswer, ds: seq<DecodedObject>, prev: Option<Location>,
    span: LocRange, order: GroupOrder, authEnd: Location)
    requires ReadState(ans, ds, |ds|, prev, span, order, authEnd) && !Less(authEnd, span.lo)
    ensures Acceptable(DecodedView(ds), span, order, authEnd)
    ensures AllValid(ans.unknown) && AllValid(ans.timedOut)
    ensures !Less(authEnd, span.hi) ==> AnswersFully(ans, ds, span, order, authEnd)
    ensures Less(authEnd, span.hi) ==>
              && Successor(authEnd).Some?
              && AnswersFully(ans.(unknown := ans.unknown + [LocRange(Successor(authEnd).value, span.hi)]),
                              ds, span, order, authEnd)
    ensures forall rest ::
              IsUncovered(rest, span.lo, span.hi, ans.unknown + ans.timedOut + LocationsOf(ans.objs)) ==>
                AnswersPartly(ans.(timedOut := ans.timedOut + rest), ds, span, order)
  {
    hide AnswersPartly, IsUncovered, Denotes, UnknownUpTo, LocationsOf, StitchedObjects;
    var es := DecodedView(ds);
    assert ds[..|ds|] == ds;
    assert forall i :: 0 <= i < |ds| ==> es[i].at == ds[i].Loc();
    ReadAll(ans.unknown, es, span, order, Unknown);
    ReadAll(ans.timedOut, es, span, order, TimedOut);
    EndLocationCaps(ans.unknown, es, span, order, authEnd);
    forall rest | IsUncovered(rest, span.lo, span.hi, ans.unknown + ans.timedOut + LocationsOf(ans.objs))
      ensures AnswersPartly(ans.(timedOut := ans.timedOut + rest), ds, span, order)
    {
      CutShort(ans, rest, ds, span, order);
    }
  }

  lemma {:induction false} KeptSoFar(
    ans: UpstreamAnswer, ds: seq<DecodedObject>, prev: Option<Location>, span: LocRange, order: GroupOrder,
    authEnd: Location)
    requires ReadState(ans, ds, |ds|, prev, span, order, authEnd)
    ensures ans.objs == StitchedObjects(ds)
  {
    hide StitchedObjects;
    assert ds[..|ds|] == ds;
  }

  /** An element refused in the loop is one no acceptable response carries. */
  lemma {:induction false} RefusedElem(
    ds: seq<DecodedObject>, i: nat, prev: Option<Location>, span: LocRange, order: GroupOrder, authEnd: Location)
    requires i < |ds|
    requires prev == if i == 0 then None else Some(ds[i - 1].Loc())
    requires !ElemOK(ds[i].Loc(), prev, span, order) || Less(authEnd, ds[i].Loc())
    ensures !Acceptable(DecodedView(ds), span, order, authEnd)
  {
  }

  /**
   The read loop over a whole response ds, which ends as ending says; authEnd is the End Location named
   beforehand. refused tells that the track itself is unusable.
   */
  method ReadResponse(
    ds: seq<DecodedObject>, ending: Ending, span: LocRange, order: GroupOrder, authEnd: Location)
    returns (ans: UpstreamAnswer, refused: bool)
    requires ValidRange(span) && !Less(authEnd, span.lo)
    ensures !Acceptable(DecodedView(ds), span, order, authEnd) ==> !refused && ans == NO_ANSWER
    ensures Acceptable(DecodedView(ds), span, order, authEnd) ==>
              && refused == ending.MalformedTrack?
              && (ending.CleanFin? ==>
                    AnswersFully(ans, ds, span, order, authEnd) && ans == AnswerOf(ds, span, order, authEnd))
              && (ending.BudgetRanOut? ==> AnswersPartly(ans, ds, span, order))
              && (ending.CleanFin? || ending.BudgetRanOut? ==> Keeps(ans.objs, ds))
              && (ending.Broken? ==> ans == NO_ANSWER)
  {
    hide StitchedObjects, StreamCovered, Meaning, AnswersFully, AnswersPartly, ReadState, Readable, ReadOf, Compare,
         Keeps;
    var prev: Option<Location> := None;
    ans := UpstreamAnswer([], [], [], Answered);
    StartReading(ds, span, order, authEnd);
    for i := 0 to |ds|
      invariant prev == if i == 0 then None else Some(ds[i - 1].Loc())
      invariant ReadState(ans, ds, i, prev, span, order, authEnd)
      invariant Readable(ds[..i], span, order) && ans == ReadOf(ds[..i], span, order)
    {
      var d := ds[i];
      var loc := d.Loc();
      if !ElemOK(loc, prev, span, order) || Less(authEnd, loc) {
        RefusedElem(ds, i, prev, span, order, authEnd);
        return NO_ANSWER, false;
      }
      ReadStep(ans, ds, i, prev, span, order, authEnd);
      ghost var next := ReadElem(ans, d, prev, span, order);
      ReadableSoFar(next, ds, i + 1, Some(loc), span, order, authEnd);
      ReadOfStep(ds, i, prev, span, order);
      if d.endOfUnknownRange {
        ans := ans.(unknown := ans.unknown + StreamCovered(prev, loc, span, order));
      } else if d.endOfTimedOutRange {
        ans := ans.(timedOut := ans.timedOut + StreamCovered(prev, loc, span, order));
      } else if d.endOfNonExistentRange {
      } else {
        ans := ans.(objs := ans.objs + [Stitched(d)]);
      }
      assert ans == next;
      prev := Some(loc);
    }
    assert ds[..|ds|] == ds;
    FinishReading(ans, ds, prev, span, order, authEnd);
    assert Keeps(ans.objs, ds) by {
      StitchedKeeps(ds);
      KeptSoFar(ans, ds, prev, span, order, authEnd);
    }
    refused := false;
    match ending
    case CleanFin =>
      if Less(authEnd, span.hi) {
        ans := ans.(unknown := ans.unknown + [LocRange(Successor(authEnd).value, span.hi)]);
      }
    case BudgetRanOut =>
      var rest := Uncovered(span.lo, span.hi, ans.unknown + ans.timedOut + LocationsOf(ans.objs));
      ans := ans.(timedOut := ans.timedOut + rest);
    case Broken =>
      ans := NO_ANSWER;
    case MalformedTrack =>
      refused := true;
  }
}
