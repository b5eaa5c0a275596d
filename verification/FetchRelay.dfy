/** A FETCH across a relay hop, through bytes, and what the next relay may conclude from it. */
module FetchRelay {
  import opened Uint64
  import opened Locations
  import opened Varint
  import opened FetchMeaning
  import opened FetchRanges
  import opened FE = FetchElements
  import opened FetchAnswer
  import opened FetchStitch
  import opened FetchHop
  import opened FetchWire

  /** Markers carry no fields, so a response fits the encoding if its Objects do. */
  lemma {:induction false} ElementsFit(
    objs: seq<CachedObject>, u: seq<LocRange>, t: seq<LocRange>, order: GroupOrder,
    propsOK: (seq<byte>, Location) -> bool)
    requires AllValid(u) && AllValid(t) && FieldsFit(objs) && PropsFit(objs, propsOK)
    ensures FieldsFit(Elements(objs, u, t, order)) && PropsFit(Elements(objs, u, t, order), propsOK)
  {
    hide Unmerged, Markers, MergeMarkers;
    MergeKeepsObjects(Unmerged(objs, u, t, order));
    MarkersMembers(u, false, order);
    MarkersMembers(t, true, order);
    forall o | o in Elements(objs, u, t, order) ensures o in objs || (o.properties == [] && o.payload == []) {
      UnmergedMembers(objs, u, t, order, o);
    }
  }

  /** Sends elems as bytes, ended by a FIN, to a relay that asked for span and was told end. */
  method Transfer(
    elems: seq<CachedObject>, order: GroupOrder, expired: CachedObject -> bool, span: LocRange, end: Location,
    propsOK: (seq<byte>, Location) -> bool)
    returns (ans: UpstreamAnswer)
    requires FieldsFit(elems) && ValidRange(span) && !Less(end, span.lo)
    ensures var ds := ReceivedAll(Outgoing(elems, expired));
      InStreamOrder(View(elems), order) && PropsFit(elems, propsOK) && Acceptable(DecodedView(ds), span, order, end) ==>
        AnswersFully(ans, ds, span, order, end)
  {
    hide Outgoing, DecodeAll, Canonical, AppendFetchObject, AnswersFully, Acceptable, FieldsFit, InStreamOrder,
         PropsFit;
    var fos, _, failed := StreamFetchObjects(elems, expired, order, propsOK);
    if failed {
      return NO_ANSWER;
    }
    var b := AppendAll(fos);
    ParseAllAppended(fos);
    var decoded := DecodeAll(ParseAll(b).0, order, propsOK);
    if !decoded.Decoded? {
      return NO_ANSWER;
    }
    var refused;
    ans, refused := ReadResponse(decoded.ds, CleanFin, span, order, end);
  }

  /**
   One relay answers [span.lo, end] of a FETCH of span, with whatever expires as it is sent, and the next
   reads the answer back from its bytes: it has exactly the Objects that did not expire, keeps every unknown
   and timed out Location, takes what expired and what lies past end as unknown, and concludes absence only
   where the response was a gap before anything expired. Its sets are disjoint exactly if end does not
   conflict.
   */
  method RelayHop(
    objs: seq<CachedObject>, u: seq<LocRange>, t: seq<LocRange>, order: GroupOrder, expired: CachedObject -> bool,
    span: LocRange, end: Location, propsOK: (seq<byte>, Location) -> bool)
    returns (ans: UpstreamAnswer)
    requires Classified(objs, u, t) && FetchHop.Inside(objs, u, t, LocRange(span.lo, end))
    requires !Less(end, span.lo) && !Less(span.hi, end)
    requires FieldsFit(objs) && PropsFit(objs, propsOK)
    ensures ans.failed == Answered
    ensures forall o :: o in ans.objs <==>
              exists sent :: sent in objs && !sent.IsStatusMarker() && !expired(sent) && PassesAs(sent, o)
    ensures forall l :: InAny(l, u) || (InRange(l, span) && Less(end, l)) ==> InAny(l, ans.unknown)
    ensures forall l :: InAny(l, t) ==> InAny(l, ans.timedOut)
    ensures forall o :: o in objs && !o.IsStatusMarker() && expired(o) ==> InAny(o.Loc(), ans.unknown)
    ensures (forall l :: !(InAny(l, ans.unknown) && InAny(l, ans.timedOut)))
       <==> !CapConflict(View(Outgoing(Elements(objs, u, t, order), expired)), span, order, end)
    ensures forall l :: ConcludesAbsent(ans, span, l) ==>
              !Less(end, l) && !InAny(l, u) && !InAny(l, t)
              && Meaning(View(Sent(Elements(objs, u, t, order))), l, order) == Absent
  {
    hide FetchHop.Inside, Elements, Outgoing, DecodeAll, Canonical, AppendFetchObject, Meaning, InRange, Denotes,
         UnknownUpTo, InAny, HasSubgroupField, CapConflict, ConcludesAbsent, Acceptable;
    assert ValidRange(span);
    var elems := FE.FetchElements(objs, u, t, order);
    ElementsFit(objs, u, t, order, propsOK);
    ElementsSound(objs, u, t, order);
    HopIsAccepted(objs, u, t, order, expired, span, end);
    ans := Transfer(elems, order, expired, span, end, propsOK);
    HopIsSound(objs, u, t, order, expired, span, end, ans);
  }

  // ---------------------------------------------------------------------------
  // From a relay's stores and upstream to what the next relay concludes
  // ---------------------------------------------------------------------------

  /** What the relay's stores hold of a request lies in its range, and fits the encoding, as its upstream's does. */
  ghost predicate Fits(q: Request, up: Upstream, propsOK: (seq<byte>, Location) -> bool) {
    && (forall o :: o in q.inCache || o in q.handed ==> InRange(o.Loc(), LocRange(q.start, q.end)))
    && (forall l :: l in q.still ==> InRange(l, LocRange(q.start, q.end)))
    && FieldsFit(q.inCache) && FieldsFit(q.handed) && PropsFit(q.inCache, propsOK) && PropsFit(q.handed, propsOK)
    && (up.Responds? ==> FieldsFit(StitchedObjects(up.ds)) && PropsFit(StitchedObjects(up.ds), propsOK))
  }

  /** An Object is on its way to l at the relay, and the upstream has none to serve there either. */
  ghost predicate StillArriving(q: Request, up: Upstream, span: LocRange, l: Location) {
    Arriving(q, l) && forall o :: Served(q, up, span, o) ==> o.Loc() != l
  }

  lemma {:induction false} StitchedInside(
    q: Request, up: Upstream, span: LocRange, merged: seq<CachedObject>, u: seq<LocRange>, t: seq<LocRange>,
    propsOK: (seq<byte>, Location) -> bool)
    requires Sound(q) && Fits(q, up, propsOK) && Stitches(q, up, span, merged, u, t)
    requires SomeMissing(q) ==> IsSpan(q, span)
    ensures FetchHop.Inside(merged, u, t, LocRange(q.start, q.end)) && FieldsFit(merged) && PropsFit(merged, propsOK)
  {
    hide Meaning, Classified, EstablishedBy, Distinct, StitchedObjects, Together, GapsFit, UpstreamSaysAbsent,
         Clashes, Holds;
    SoundCached(q);
    forall o | o in merged
      ensures InRange(o.Loc(), LocRange(q.start, q.end))
      ensures |o.properties| <= MAX_FIELD && |o.payload| <= MAX_FIELD && (o.properties != [] ==>
        propsOK(o.properties, o.Loc()))
    {
      if o !in Cached(q) {
        StitchedMembers(up.ds, o);
        var i :| 0 <= i < |up.ds| && DecodedElem(up.ds[i]).kind == ObjectElem && o == Stitched(up.ds[i]);
        assert InRange(DecodedView(up.ds)[i].at, span);
      }
    }
  }

  /**
   A FETCH across two relays. The first answers [q.start, q.end] from its stores and its upstream; the
   second asked it for asked, from q.start to q.end or beyond. Unless the first relay refuses or its
   upstream's answer clashes, the second has exactly the Objects the first serves that did not expire; what
   expired, what the first left unknown and what lies past q.end is unknown to it, and what timed out or is
   still arriving at the first is timed out to it; and it concludes that an Object does not exist only where
   the first had a signal that says so and no ordinary Object in hand.
   */
  method TwoRelays(
    q: Request, up: Upstream, expired: CachedObject -> bool, asked: LocRange, propsOK: (seq<byte>, Location) -> bool)
    returns (ans: UpstreamAnswer, refused: bool, span: LocRange)
    requires Sound(q) && Fits(q, up, propsOK)
    requires asked.lo == q.start && !Less(asked.hi, q.end)
    ensures SomeMissing(q) ==> IsSpan(q, span)
    ensures refused <==> Refuses(q, up, span)
    ensures !refused && !Clashes(q, up, span) ==>
              && ans.failed == Answered
              && (forall o :: o in ans.objs <==>
                    exists sent :: Served(q, up, span, sent) && !sent.IsStatusMarker() && !expired(sent)
                                   && PassesAs(sent, o))
    ensures !refused && !Clashes(q, up, span) ==>
              && (forall l :: LeftUnknown(q, up, span, l) || (InRange(l, asked) && Less(q.end, l)) ==>
                InAny(l, ans.unknown))
              && (forall o :: Served(q, up, span, o) && !o.IsStatusMarker() && expired(o) ==>
                InAny(o.Loc(), ans.unknown))
              && (forall l :: LeftTimedOut(q, up, span, l) || StillArriving(q, up, span, l) ==> InAny(l, ans.timedOut))
    ensures !refused && !Clashes(q, up, span) ==>
              forall l :: ConcludesAbsent(ans, asked, l) ==>
                && Signalled(q, up, span, l)
                && forall o :: Served(q, up, span, o) && o.Loc() == l ==> o.IsStatusMarker()
  {
    hide FetchHop.Inside, Elements, Outgoing, Meaning, InRange, InAny, CapConflict, ConcludesAbsent, Classified,
         Missing, IsSpan, Arriving, EstablishedBy, Distinct, StitchedObjects, Together, GapsFit, UpstreamSaysAbsent,
         Clashes,
         Holds, Served, Refuses, Signalled, LeftUnknown, LeftTimedOut, StillArriving;
    ans := NO_ANSWER;
    var out, merged, u, t;
    out, refused, merged, u, t, span := Stitch(q, up);
    if refused {
      return;
    }
    StitchedInside(q, up, span, merged, u, t, propsOK);
    ElementsFit(merged, u, t, q.order, propsOK);
    ans := Transfer(out, q.order, expired, asked, q.end, propsOK);
    if !Clashes(q, up, span) {
      ElementsSound(merged, u, t, q.order);
      HopIsAccepted(merged, u, t, q.order, expired, asked, q.end);
      HopIsSound(merged, u, t, q.order, expired, asked, q.end, ans);
      NotServed(q, up, span, merged);
      forall l | ConcludesAbsent(ans, asked, l)
        ensures Signalled(q, up, span, l)
        ensures forall o :: Served(q, up, span, o) && o.Loc() == l ==> o.IsStatusMarker()
      {
        AnsweredInside(q, asked, ans, l);
        AbsenceIsSignalled(q, up, span, merged, u, t, l);
      }
    }
  }

  lemma {:induction false} AnsweredInside(q: Request, asked: LocRange, ans: UpstreamAnswer, l: Location)
    requires asked.lo == q.start && ConcludesAbsent(ans, asked, l) && !Less(q.end, l)
    ensures InRange(l, LocRange(q.start, q.end))
  {
  }

  lemma {:induction false} NotServed(q: Request, up: Upstream, span: LocRange, merged: seq<CachedObject>)
    requires forall o :: o in merged <==> Served(q, up, span, o)
    ensures forall l :: StillArriving(q, up, span, l) ==> Arriving(q, l) && !Holds(merged, l)
  {
    forall l | StillArriving(q, up, span, l) ensures !Holds(merged, l) {
      HoldsIsMember(merged, l);
    }
  }
}
