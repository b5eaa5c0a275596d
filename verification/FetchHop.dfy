/** A FETCH response as it crosses one relay hop: what is sent, and what the next relay concludes. */
module FetchHop {
  import opened Uint64
  import opened Locations
  import opened FetchMeaning
  import opened FetchRanges
  import opened FetchElements
  import opened FetchAnswer
  import opened FetchStitch

  /** The elements a response carries: status markers are not sent (section 11.1.1). */
  function Sent(s: seq<CachedObject>): seq<CachedObject> {
    if s == [] then []
    else (if s[0].IsStatusMarker() && !s[0].IsRangeMarker() then [] else [s[0]]) + Sent(s[1..])
  }

  lemma {:induction false} SentMembers(s: seq<CachedObject>, o: CachedObject)
    ensures o in Sent(s) <==> o in s && !(o.IsStatusMarker() && !o.IsRangeMarker())
  {
    if s != [] {
      SentMembers(s[1..], o);
    }
  }

  lemma {:induction false} PrependOrdered(x: CachedObject, rest: seq<CachedObject>, order: GroupOrder)
    requires InStreamOrder(View(rest), order)
    requires forall k :: 0 <= k < |rest| ==> Before(x.Loc(), rest[k].Loc(), order)
    ensures InStreamOrder(View([x] + rest), order)
  {
    hide Before;
    var m := View([x] + rest);
    assert forall i :: 0 < i < |m| ==> m[i] == View(rest)[i - 1];
  }

  lemma {:induction false} SentIsOrdered(s: seq<CachedObject>, order: GroupOrder)
    requires InStreamOrder(View(s), order)
    ensures InStreamOrder(View(Sent(s)), order)
  {
    hide Before;
    if s != [] {
      var rest := Sent(s[1..]);
      assert InStreamOrder(View(s[1..]), order) by {
        assert forall i :: 0 <= i < |s| - 1 ==> View(s[1..])[i] == View(s)[i + 1];
      }
      SentIsOrdered(s[1..], order);
      forall k | 0 <= k < |rest| ensures Before(s[0].Loc(), rest[k].Loc(), order) {
        SentMembers(s[1..], rest[k]);
        var j :| 1 <= j < |s| && s[j] == rest[k];
        assert Before(View(s)[0].at, View(s)[j].at, order);
      }
      PrependOrdered(s[0], rest, order);
      assert [] + rest == rest;
    }
  }

  /** Leaving out status markers keeps every mark over unknown and timed out Locations. */
  lemma {:induction false} SentKeepsMarks(s: seq<CachedObject>, l: Location, order: GroupOrder)
    ensures var m := Meaning(View(s), l, order);
            m in {Unknown, TimedOut} ==> Meaning(View(Sent(s)), l, order) == m
  {
    if s != [] {
      var rest := Sent(s[1..]);
      SentKeepsMarks(s[1..], l, order);
      assert View(s)[1..] == View(s[1..]);
      assert View([s[0]] + rest)[1..] == View(rest);
      assert [] + rest == rest;
    }
  }

  /** What the classified elements of a response say once sent. */
  lemma {:induction false} SentSound(
    objs: seq<CachedObject>, u: seq<LocRange>, t: seq<LocRange>, order: GroupOrder, l: Location)
    requires Classified(objs, u, t)
    ensures var m := Meaning(View(Sent(Elements(objs, u, t, order))), l, order);
            && (InAny(l, u) ==> m == Unknown)
            && (InAny(l, t) ==> m == TimedOut)
            && (m == Present <==> exists o :: o in objs && o.Loc() == l && !o.IsStatusMarker())
  {
    hide Elements, Meaning;
    var es := Elements(objs, u, t, order);
    ElementsSound(objs, u, t, order);
    SentKeepsMarks(es, l, order);
    SentIsOrdered(es, order);
    PresentIffElement(View(Sent(es)), l, order);
    if Elem(l, ObjectElem) in View(Sent(es)) {
      var i :| 0 <= i < |Sent(es)| && View(Sent(es))[i] == Elem(l, ObjectElem);
      SentMembers(es, Sent(es)[i]);
    }
    if o :| o in objs && o.Loc() == l && !o.IsStatusMarker() {
      assert !o.IsRangeMarker();
      SentMembers(es, o);
      var i :| 0 <= i < |Sent(es)| && Sent(es)[i] == o;
      assert View(Sent(es))[i] == Elem(l, ObjectElem);
    }
  }

  /** A stitched answer asserts absence only on a signal that says so, and never of an ordinary Object in hand. */
  lemma {:induction false} AbsenceIsSignalled(
    q: Request, up: Upstream, span: LocRange, merged: seq<CachedObject>, u: seq<LocRange>, t: seq<LocRange>,
    l: Location)
    requires Stitches(q, up, span, merged, u, t) && !Clashes(q, up, span)
    requires InRange(l, LocRange(q.start, q.end))
    requires Meaning(View(Sent(Elements(merged, u, t, q.order))), l, q.order) == Absent
    ensures Signalled(q, up, span, l)
    ensures forall o :: Served(q, up, span, o) && o.Loc() == l ==> o.IsStatusMarker()
  {
    hide Elements, Meaning, Classified, EstablishedBy, UpstreamSaysAbsent, Clashes, StitchedObjects;
    SentSound(merged, u, t, q.order, l);
    HoldsIsMember(merged, l);
    HoldsIsMember(Cached(q), l);
    assert Missing(q, l) || EstablishedBy(Cached(q), q.gapsOf, l) || InAny(l, q.absent) || Arriving(q, l);
    if EstablishedBy(Cached(q), q.gapsOf, l) {
      SettledAbsent(Cached(q), q.gapsOf, l);
    } else if Holds(Cached(q), l) {
      HeldIsSettled(Cached(q), q.gapsOf, l);
    }
  }

  // ---------------------------------------------------------------------------
  // Objects that expire while they are sent
  // ---------------------------------------------------------------------------

  /** What is written for one element: an expired Object is marked unknown, a status marker left out. */
  function OutgoingOne(o: CachedObject, expired: CachedObject -> bool): seq<CachedObject> {
    if o.IsRangeMarker() then [o]
    else if o.IsStatusMarker() then []
    else if expired(o) then [UnknownRangeMarker(o.Loc())]
    else [o]
  }

  function Outgoing(objs: seq<CachedObject>, expired: CachedObject -> bool): seq<CachedObject> {
    if objs == [] then [] else Outgoing(objs[..|objs| - 1], expired) + OutgoingOne(objs[|objs| - 1], expired)
  }

  lemma {:induction false} SentAppend(s: seq<CachedObject>, o: CachedObject)
    ensures Sent(s + [o]) == Sent(s) + OutgoingOne(o, x => false)
  {
    if s == [] {
      assert [o] + Sent([]) == [o];
    } else {
      assert (s + [o])[0] == s[0] && (s + [o])[1..] == s[1..] + [o];
      SentAppend(s[1..], o);
    }
  }

  /** When nothing expires, exactly the elements of Sent are written. */
  lemma {:induction false} OutgoingUnexpired(objs: seq<CachedObject>)
    ensures Outgoing(objs, x => false) == Sent(objs)
  {
    if objs != [] {
      var n := |objs| - 1;
      OutgoingUnexpired(objs[..n]);
      SentAppend(objs[..n], objs[n]);
      assert objs == objs[..n] + [objs[n]];
    }
  }

  /** b with some of its Objects replaced by Unknown markers at their Locations. */
  ghost predicate Replaces(a: seq<CachedObject>, b: seq<CachedObject>) {
    |a| == |b| && forall i :: 0 <= i < |a| ==>
      a[i] == b[i] || (a[i] == UnknownRangeMarker(b[i].Loc()) && !b[i].IsRangeMarker())
  }

  lemma {:induction false} ReplacesAppend(
    a: seq<CachedObject>, b: seq<CachedObject>, o: CachedObject, expired: CachedObject -> bool)
    requires Replaces(a, b)
    ensures Replaces(a + OutgoingOne(o, expired), b + OutgoingOne(o, x => false))
  {
  }

  lemma {:induction false} OutgoingReplaces(objs: seq<CachedObject>, expired: CachedObject -> bool)
    ensures Replaces(Outgoing(objs, expired), Sent(objs))
    decreases |objs|
  {
    if objs != [] {
      hide Replaces, OutgoingOne, Sent;
      var n := |objs| - 1;
      OutgoingReplaces(objs[..n], expired);
      SentAppend(objs[..n], objs[n]);
      assert objs == objs[..n] + [objs[n]];
      ReplacesAppend(Outgoing(objs[..n], expired), Sent(objs[..n]), objs[n], expired);
    }
  }

  /** Replacing an Object leaves every mark, and turns presence and absence into unknown at most. */
  lemma {:induction false} ReplacedMeaning(a: seq<CachedObject>, b: seq<CachedObject>, l: Location, order: GroupOrder)
    requires Replaces(a, b)
    ensures var m, n := Meaning(View(a), l, order), Meaning(View(b), l, order);
      m == n || (m == Unknown && n in {Present, Absent})
  {
    if a != [] {
      assert View(a)[1..] == View(a[1..]) && View(b)[1..] == View(b[1..]);
      if Before(a[0].Loc(), l, order) {
        ReplacedMeaning(a[1..], b[1..], l, order);
      }
    }
  }

  /** An expired Object is marked unknown, so expiry never turns anything into absence. */
  lemma {:induction false} ExpiryNeverInventsAbsence(
    objs: seq<CachedObject>, expired: CachedObject -> bool, l: Location, order: GroupOrder)
    requires Meaning(View(Outgoing(objs, expired)), l, order) == Absent
    ensures Meaning(View(Sent(objs)), l, order) == Absent
  {
    hide Meaning, View;
    OutgoingReplaces(objs, expired);
    ReplacedMeaning(Outgoing(objs, expired), Sent(objs), l, order);
  }

  lemma {:induction false} OutgoingMembers(s: seq<CachedObject>, expired: CachedObject -> bool, o: CachedObject)
    requires !o.IsRangeMarker()
    ensures o in Outgoing(s, expired) <==> o in s && !o.IsStatusMarker() && !expired(o)
    decreases |s|
  {
    if s != [] {
      var n := |s| - 1;
      OutgoingMembers(s[..n], expired, o);
      assert s == s[..n] + [s[n]];
    }
  }

  lemma {:induction false} OutgoingOrdered(s: seq<CachedObject>, expired: CachedObject -> bool, order: GroupOrder)
    requires InStreamOrder(View(s), order)
    ensures InStreamOrder(View(Outgoing(s, expired)), order)
  {
    hide Before;
    SentIsOrdered(s, order);
    OutgoingReplaces(s, expired);
    var a, b := Outgoing(s, expired), Sent(s);
    assert forall i :: 0 <= i < |a| ==> View(a)[i].at == View(b)[i].at;
  }

  /** What the classified elements of a response say as written, whatever expires on the way. */
  lemma {:induction false} OutgoingSound(
    objs: seq<CachedObject>, u: seq<LocRange>, t: seq<LocRange>, order: GroupOrder, expired: CachedObject -> bool,
    l: Location)
    requires Classified(objs, u, t)
    ensures var m := Meaning(View(Outgoing(Elements(objs, u, t, order), expired)), l, order);
      && (InAny(l, u) ==> m == Unknown)
      && (InAny(l, t) ==> m == TimedOut)
      && (m == Present <==> exists o :: o in objs && o.Loc() == l && !o.IsStatusMarker() && !expired(o))
      && (m == Absent ==> Meaning(View(Sent(Elements(objs, u, t, order))), l, order) == Absent)
  {
    hide Elements, Meaning;
    var es := Elements(objs, u, t, order);
    SentSound(objs, u, t, order, l);
    OutgoingReplaces(es, expired);
    ReplacedMeaning(Outgoing(es, expired), Sent(es), l, order);
    OutgoingPresent(objs, u, t, order, expired, l);
  }

  lemma {:induction false} OutgoingPresent(
    objs: seq<CachedObject>, u: seq<LocRange>, t: seq<LocRange>, order: GroupOrder, expired: CachedObject -> bool,
    l: Location)
    requires Classified(objs, u, t)
    ensures Meaning(View(Outgoing(Elements(objs, u, t, order), expired)), l, order) == Present
       <==> exists o :: o in objs && o.Loc() == l && !o.IsStatusMarker() && !expired(o)
  {
    hide Elements, Meaning;
    var es := Elements(objs, u, t, order);
    var s := Outgoing(es, expired);
    ElementsSound(objs, u, t, order);
    OutgoingOrdered(es, expired, order);
    PresentIffElement(View(s), l, order);
    if Elem(l, ObjectElem) in View(s) {
      var i :| 0 <= i < |s| && View(s)[i] == Elem(l, ObjectElem);
      OutgoingMembers(es, expired, s[i]);
    }
    if o :| o in objs && o.Loc() == l && !o.IsStatusMarker() && !expired(o) {
      assert !o.IsRangeMarker();
      OutgoingMembers(es, expired, o);
      var i :| 0 <= i < |s| && s[i] == o;
      assert View(s)[i] == Elem(l, ObjectElem);
    }
  }

  lemma {:induction false} OutgoingExpired(s: seq<CachedObject>, expired: CachedObject -> bool, o: CachedObject)
    requires o in s && !o.IsRangeMarker() && !o.IsStatusMarker() && expired(o)
    ensures UnknownRangeMarker(o.Loc()) in Outgoing(s, expired)
    decreases |s|
  {
    var n := |s| - 1;
    assert s == s[..n] + [s[n]];
    if o in s[..n] {
      OutgoingExpired(s[..n], expired, o);
    }
  }

  /** An Object that expires while it is sent becomes unknown. */
  lemma {:induction false} ExpiredIsUnknown(
    objs: seq<CachedObject>, u: seq<LocRange>, t: seq<LocRange>, order: GroupOrder, expired: CachedObject -> bool,
    o: CachedObject)
    requires Classified(objs, u, t) && o in objs && !o.IsStatusMarker() && expired(o)
    ensures Meaning(View(Outgoing(Elements(objs, u, t, order), expired)), o.Loc(), order) == Unknown
  {
    hide Elements, Meaning, Outgoing;
    var es := Elements(objs, u, t, order);
    var s := Outgoing(es, expired);
    ElementsSound(objs, u, t, order);
    OutgoingOrdered(es, expired, order);
    OutgoingExpired(es, expired, o);
    var i :| 0 <= i < |s| && s[i] == UnknownRangeMarker(o.Loc());
    assert View(s)[i] == Elem(o.Loc(), UnknownEnd);
    assert !Before(o.Loc(), o.Loc(), order);
    FirstDecides(View(s), i, o.Loc(), order);
  }

  // ---------------------------------------------------------------------------
  // The next relay
  // ---------------------------------------------------------------------------

  /** What the decoder makes of a sent element. */
  function Received(o: CachedObject): DecodedObject {
    if o.IsRangeMarker() then
      DecodedObject(o.group, o.obj, 0, 0, [], [], false, false, !o.endOfTimedOutRange, o.endOfTimedOutRange)
    else
      DecodedObject(o.group, o.obj, if o.datagram then 0 else o.subgroup, o.priority, o.properties, o.payload,
                    o.datagram, false, false, false)
  }

  function ReceivedAll(s: seq<CachedObject>): (ds: seq<DecodedObject>)
    ensures |ds| == |s| && forall i :: 0 <= i < |s| ==> ds[i] == Received(s[i])
  {
    seq(|s|, i requires 0 <= i < |s| => Received(s[i]))
  }

  lemma {:induction false} ReceivedSameView(s: seq<CachedObject>)
    ensures DecodedView(ReceivedAll(s)) == View(s)
  {
    assert forall i :: 0 <= i < |s| ==> DecodedElem(Received(s[i])) == ElemOf(s[i]);
  }

  /** The range a relay answers holds its Objects and both sets. */
  ghost predicate Inside(objs: seq<CachedObject>, u: seq<LocRange>, t: seq<LocRange>, span: LocRange) {
    && (forall o :: o in objs ==> InRange(o.Loc(), span))
    && (forall l :: InAny(l, u) || InAny(l, t) ==> InRange(l, span))
  }

  lemma {:induction false} ElementsInside(
    objs: seq<CachedObject>, u: seq<LocRange>, t: seq<LocRange>, order: GroupOrder, span: LocRange, o: CachedObject)
    requires Classified(objs, u, t) && Inside(objs, u, t, span)
    requires o in Elements(objs, u, t, order)
    ensures InRange(o.Loc(), span)
  {
    hide Unmerged, InRange;
    MergeKeepsObjects(Unmerged(objs, u, t, order));
    UnmergedKind(objs, u, t, order, o);
  }

  /** got is sent as the next relay keeps it: the same but for a datagram's Subgroup and any status. */
  predicate PassesAs(sent: CachedObject, got: CachedObject) {
    && got.group == sent.group && got.obj == sent.obj && got.priority == sent.priority
    && got.datagram == sent.datagram && got.properties == sent.properties && got.payload == sent.payload
    && got.subgroup == (if sent.datagram then 0 else sent.subgroup)
    && got.status == 0 && !got.endOfUnknownRange && !got.endOfTimedOutRange
  }

  lemma {:induction false} PassesExact(sent: CachedObject, got: CachedObject)
    requires !sent.IsRangeMarker()
    ensures PassesAs(sent, got) <==> got == Stitched(Received(sent))
  {
  }

  /** What is written of a classified answer to [span.lo, end] is in order inside it. */
  lemma {:induction false} HopIsAccepted(
    objs: seq<CachedObject>, u: seq<LocRange>, t: seq<LocRange>, order: GroupOrder, expired: CachedObject -> bool,
    span: LocRange, end: Location)
    requires Classified(objs, u, t) && Inside(objs, u, t, LocRange(span.lo, end)) && !Less(span.hi, end)
    ensures Acceptable(DecodedView(ReceivedAll(Outgoing(Elements(objs, u, t, order), expired))), span, order, end)
  {
    hide Elements;
    var es := Elements(objs, u, t, order);
    var s := Outgoing(es, expired);
    ElementsSound(objs, u, t, order);
    OutgoingOrdered(es, expired, order);
    OutgoingReplaces(es, expired);
    ReceivedSameView(s);
    forall i | 0 <= i < |s| ensures InRange(View(s)[i].at, LocRange(span.lo, end)) {
      SentMembers(es, Sent(es)[i]);
      ElementsInside(objs, u, t, order, LocRange(span.lo, end), Sent(es)[i]);
    }
  }

  lemma {:induction false} HopObjects(
    objs: seq<CachedObject>, u: seq<LocRange>, t: seq<LocRange>, order: GroupOrder, expired: CachedObject -> bool,
    o: CachedObject)
    requires Classified(objs, u, t)
    ensures o in StitchedObjects(ReceivedAll(Outgoing(Elements(objs, u, t, order), expired))) <==>
            exists sent :: sent in objs && !sent.IsStatusMarker() && !expired(sent) && PassesAs(sent, o)
  {
    hide Elements, StitchedObjects, Outgoing;
    var es := Elements(objs, u, t, order);
    var s := Outgoing(es, expired);
    var ds := ReceivedAll(s);
    ElementsSound(objs, u, t, order);
    StitchedMembers(ds, o);
    if o in StitchedObjects(ds) {
      var i :| 0 <= i < |ds| && DecodedElem(ds[i]).kind == ObjectElem && o == Stitched(ds[i]);
      OutgoingMembers(es, expired, s[i]);
      PassesExact(s[i], o);
    }
    if sent :| sent in objs && !sent.IsStatusMarker() && !expired(sent) && PassesAs(sent, o) {
      assert !sent.IsRangeMarker();
      OutgoingMembers(es, expired, sent);
      var i :| 0 <= i < |s| && s[i] == sent;
      assert ds[i] == Received(sent);
      PassesExact(sent, o);
    }
  }

  /**
   Relay hop: the next relay, reading for its FETCH of span what this relay answered of [span.lo, end],
   accepts every element, keeps exactly the Objects that did not expire, keeps every unknown and timed out
   Location marked so, takes what expired and what lies past end as unknown, and concludes that an Object
   does not exist only where this relay's response said so before anything expired. Its two sets are
   disjoint exactly if the End Location does not conflict.
   */
  lemma {:induction false} HopIsSound(
    objs: seq<CachedObject>, u: seq<LocRange>, t: seq<LocRange>, order: GroupOrder, expired: CachedObject -> bool,
    span: LocRange, end: Location, ans: UpstreamAnswer)
    requires Classified(objs, u, t) && Inside(objs, u, t, LocRange(span.lo, end))
    requires !Less(span.hi, end) && !Less(end, span.lo)
    requires AnswersFully(ans, ReceivedAll(Outgoing(Elements(objs, u, t, order), expired)), span, order, end)
    ensures forall l :: InAny(l, u) || (InRange(l, span) && Less(end, l)) ==> InAny(l, ans.unknown)
    ensures forall l :: InAny(l, t) ==> InAny(l, ans.timedOut)
    ensures forall o :: o in objs && !o.IsStatusMarker() && expired(o) ==> InAny(o.Loc(), ans.unknown)
    ensures (forall l :: !(InAny(l, ans.unknown) && InAny(l, ans.timedOut)))
       <==> !CapConflict(View(Outgoing(Elements(objs, u, t, order), expired)), span, order, end)
    ensures forall o :: o in ans.objs <==>
              exists sent :: sent in objs && !sent.IsStatusMarker() && !expired(sent) && PassesAs(sent, o)
    ensures forall l :: ConcludesAbsent(ans, span, l) ==>
              !Less(end, l) && !InAny(l, u) && !InAny(l, t)
              && Meaning(View(Sent(Elements(objs, u, t, order))), l, order) == Absent
  {
    hide Elements, Meaning, StitchedObjects, CapConflict, Outgoing;
    var s := Outgoing(Elements(objs, u, t, order), expired);
    HopIsAccepted(objs, u, t, order, expired, span, end);
    ReceivedSameView(s);
    AnswerDisjointExact(ans, ReceivedAll(s), span, order, end);
    forall o ensures o in ans.objs <==>
        exists sent :: sent in objs && !sent.IsStatusMarker() && !expired(sent) && PassesAs(sent, o) {
      HopObjects(objs, u, t, order, expired, o);
    }
    forall o | o in objs && !o.IsStatusMarker() && expired(o) ensures InAny(o.Loc(), ans.unknown) {
      ExpiredIsUnknown(objs, u, t, order, expired, o);
    }
    forall l
      ensures InAny(l, u) || (InRange(l, span) && Less(end, l)) ==> InAny(l, ans.unknown)
      ensures InAny(l, t) ==> InAny(l, ans.timedOut)
      ensures ConcludesAbsent(ans, span, l) ==>
        && !Less(end, l) && !InAny(l, u) && !InAny(l, t)
        && Meaning(View(Sent(Elements(objs, u, t, order))), l, order) == Absent
    {
      OutgoingSound(objs, u, t, order, expired, l);
      StitchedWherePresent(ReceivedAll(s), l, order);
      HoldsIsMember(ans.objs, l);
    }
  }

  /** The relay holding ans takes it that no Object is at l. */
  ghost predicate ConcludesAbsent(ans: UpstreamAnswer, span: LocRange, l: Location) {
    InRange(l, span) && !Holds(ans.objs, l) && !InAny(l, ans.unknown) && !InAny(l, ans.timedOut)
  }
}
