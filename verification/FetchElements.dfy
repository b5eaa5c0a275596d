/** The ordered elements of a FETCH response, built from a classified range. */
module FetchElements {
  import opened Uint64
  import opened Locations
  import opened Sorting
  import opened FetchMeaning
  import opened FetchRanges

  function ElemOf(o: CachedObject): Elem {
    Elem(o.Loc(),
         if o.endOfTimedOutRange then TimedOutEnd
         else if o.endOfUnknownRange then UnknownEnd
         else ObjectElem)
  }

  function View(s: seq<CachedObject>): (es: seq<Elem>)
    ensures |es| == |s| && forall i :: 0 <= i < |s| ==> es[i] == ElemOf(s[i])
  {
    seq(|s|, i requires 0 <= i < |s| => ElemOf(s[i]))
  }

  // ---------------------------------------------------------------------------
  // Runs
  // ---------------------------------------------------------------------------

  /** The last Location of every stretch of r that is contiguous in stream order; descending, a range is up to three. */
  function RunEnds(r: LocRange, order: GroupOrder): seq<Location>
    requires ValidRange(r)
  {
    if order.Ascending? || r.lo.group == r.hi.group then [r.hi]
    else
      [r.hi]
      + (if r.hi.group - r.lo.group > 1 then [Location(r.lo.group + 1, MAX_U64)] else [])
      + [Location(r.lo.group, MAX_U64)]
  }

  lemma {:induction false} RunEndsInRange(r: LocRange, order: GroupOrder)
    requires ValidRange(r)
    ensures forall e :: e in RunEnds(r, order) ==> InRange(e, r)
  {
  }

  /** From any Location of r, the response stays inside r up to some end of a run. */
  lemma {:induction false} RunReachesEnd(r: LocRange, order: GroupOrder, l: Location) returns (end: Location)
    requires ValidRange(r) && InRange(l, r)
    ensures end in RunEnds(r, order) && !Before(end, l, order)
    ensures forall m :: !Before(m, l, order) && !Before(end, m, order) ==> InRange(m, r)
  {
    var ends := RunEnds(r, order);
    if order.Ascending? || r.lo.group == r.hi.group || l.group == r.hi.group {
      end := r.hi;
      assert ends[0] == end;
    } else if l.group == r.lo.group {
      end := Location(r.lo.group, MAX_U64);
      assert ends[|ends| - 1] == end;
    } else {
      end := Location(r.lo.group + 1, MAX_U64);
      assert ends[1] == end;
    }
  }

  // ---------------------------------------------------------------------------
  // Elements
  // ---------------------------------------------------------------------------

  function Marker(l: Location, timedOut: bool): CachedObject {
    if timedOut then TimedOutRangeMarker(l) else UnknownRangeMarker(l)
  }

  function MarkersAt(ends: seq<Location>, timedOut: bool): seq<CachedObject> {
    if ends == [] then [] else MarkersAt(ends[..|ends| - 1], timedOut) + [Marker(ends[|ends| - 1], timedOut)]
  }

  function Markers(rs: seq<LocRange>, timedOut: bool, order: GroupOrder): seq<CachedObject>
    requires AllValid(rs)
  {
    if rs == [] then []
    else
      Markers(rs[..|rs| - 1], timedOut, order) + MarkersAt(RunEnds(rs[|rs| - 1], order), timedOut)
  }

  lemma {:induction false} MarkersAtMembers(ends: seq<Location>, timedOut: bool)
    ensures forall o :: o in MarkersAt(ends, timedOut) <==> exists e :: e in ends && o == Marker(e, timedOut)
  {
    if ends != [] {
      MarkersAtMembers(ends[..|ends| - 1], timedOut);
      assert ends == ends[..|ends| - 1] + [ends[|ends| - 1]];
    }
  }

  /** Each end of a run of each range has a marker, and each marker lies in a range. */
  lemma {:induction false} MarkersMembers(rs: seq<LocRange>, timedOut: bool, order: GroupOrder)
    requires AllValid(rs)
    ensures forall o :: o in Markers(rs, timedOut, order) ==> o == Marker(o.Loc(), timedOut) && InAny(o.Loc(), rs)
    ensures forall r, e :: r in rs && e in RunEnds(r, order) ==> Marker(e, timedOut) in Markers(rs, timedOut, order)
  {
    if rs != [] {
      var rest, last := rs[..|rs| - 1], rs[|rs| - 1];
      MarkersMembers(rest, timedOut, order);
      MarkersAtMembers(RunEnds(last, order), timedOut);
      RunEndsInRange(last, order);
      assert rs == rest + [last];
      forall o | o in Markers(rs, timedOut, order)
        ensures o == Marker(o.Loc(), timedOut) && InAny(o.Loc(), rs)
      {
        InAnyAppend(o.Loc(), rest, last);
      }
    }
  }

  /** Drops a marker right before another of its kind, which covers what it covered. */
  function MergeMarkers(s: seq<CachedObject>): seq<CachedObject> {
    if s == [] then []
    else if SameKindMarkers(s, 0) then MergeMarkers(s[1..])
    else [s[0]] + MergeMarkers(s[1..])
  }

  predicate SameKindMarkers(s: seq<CachedObject>, i: nat) {
    && i + 1 < |s| && s[i].IsRangeMarker() && s[i + 1].IsRangeMarker()
    && s[i].endOfTimedOutRange == s[i + 1].endOfTimedOutRange
  }

  function StreamKey(order: GroupOrder): CachedObject -> int {
    (o: CachedObject) => Position(o.Loc(), order)
  }

  /** The list before merging: ordered, with nothing but the Objects and the markers. */
  function Unmerged(
    objs: seq<CachedObject>,
    unknown: seq<LocRange>,
    timedOut: seq<LocRange>,
    order: GroupOrder
  ): seq<CachedObject>
    requires AllValid(unknown) && AllValid(timedOut)
  {
    StableSort(objs + Markers(unknown, false, order) + Markers(timedOut, true, order), StreamKey(order))
  }

  function Elements(
    objs: seq<CachedObject>,
    unknown: seq<LocRange>,
    timedOut: seq<LocRange>,
    order: GroupOrder
  ): seq<CachedObject>
    requires AllValid(unknown) && AllValid(timedOut)
  {
    MergeMarkers(Unmerged(objs, unknown, timedOut, order))
  }

  lemma {:induction false} MergeFrom(s: seq<CachedObject>, i: nat)
    requires i < |s|
    ensures MergeMarkers(s[i..]) == (if SameKindMarkers(s, i) then [] else [s[i]]) + MergeMarkers(s[i + 1..])
  {
    assert s[i..][1..] == s[i + 1..];
    assert SameKindMarkers(s[i..], 0) == SameKindMarkers(s, i);
  }

  /** Compacts elems in place: the first n elements are then the merged list. */
  method MergeInPlace(elems: array<CachedObject>) returns (n: nat)
    modifies elems
    ensures n <= elems.Length && elems[..n] == MergeMarkers(old(elems[..]))
  {
    hide MergeMarkers;
    ghost var was := elems[..];
    n := 0;
    for i := 0 to elems.Length
      invariant n <= i
      invariant forall k :: i <= k < elems.Length ==> elems[k] == was[k]
      invariant elems[..n] + MergeMarkers(was[i..]) == MergeMarkers(was)
    {
      MergeFrom(was, i);
      if !(i + 1 < elems.Length && elems[i].IsRangeMarker() && elems[i + 1].IsRangeMarker()
           && elems[i].endOfTimedOutRange == elems[i + 1].endOfTimedOutRange) {
        ghost var before := elems[..n];
        elems[n] := elems[i];
        n := n + 1;
        assert elems[..n] == before + [was[i]];
      }
    }
    assert was[|was|..] == [] && MergeMarkers([]) == [] by { MergeEmpty(); }
  }

  lemma {:induction false} MergeEmpty()
    ensures MergeMarkers([]) == []
  {
  }

  /** Adds the markers of rs to elems, one for each of its contiguous stretches. */
  method AppendMarkers(elems: seq<CachedObject>, rs: seq<LocRange>, timedOut: bool, order: GroupOrder)
    returns (out: seq<CachedObject>)
    requires AllValid(rs)
    ensures out == elems + Markers(rs, timedOut, order)
  {
    hide RunEnds, Marker, ValidRange;
    out := elems;
    for i := 0 to |rs|
      invariant out == elems + Markers(rs[..i], timedOut, order)
    {
      var ends := RunEnds(rs[i], order);
      ghost var was := out;
      for j := 0 to |ends|
        invariant out == was + MarkersAt(ends[..j], timedOut)
      {
        assert ends[..j + 1][..j] == ends[..j];
        out := out + [Marker(ends[j], timedOut)];
      }
      assert ends[..|ends|] == ends;
      assert rs[..i + 1][..i] == rs[..i];
    }
    assert rs[..|rs|] == rs;
  }

  /** objs and the End of Range markers of unknown and timedOut, in the order a response carries them. */
  method FetchElements(
    objs: seq<CachedObject>,
    unknown: seq<LocRange>,
    timedOut: seq<LocRange>,
    order: GroupOrder
  ) returns (out: seq<CachedObject>)
    requires AllValid(unknown) && AllValid(timedOut)
    ensures out == Elements(objs, unknown, timedOut, order)
  {
    var elems := AppendMarkers(objs, unknown, false, order);
    elems := AppendMarkers(elems, timedOut, true, order);
    elems := StableSort(elems, StreamKey(order));
    var a := new CachedObject[|elems|](i requires 0 <= i < |elems| => elems[i]);
    assert a[..] == elems;
    var n := MergeInPlace(a);
    out := a[..n];
  }

  // ---------------------------------------------------------------------------
  // What the elements say
  // ---------------------------------------------------------------------------

  /** Distinct Objects, and disjoint unknown and timed out Locations holding none of them. */
  ghost predicate Classified(objs: seq<CachedObject>, unknown: seq<LocRange>, timedOut: seq<LocRange>) {
    && AllValid(unknown) && AllValid(timedOut)
    && (forall i, j :: 0 <= i < j < |objs| ==> objs[i].Loc() != objs[j].Loc())
    && (forall o :: o in objs ==>
          !o.IsRangeMarker() && !InAny(o.Loc(), unknown) && !InAny(o.Loc(), timedOut))
    && (forall l :: !(InAny(l, unknown) && InAny(l, timedOut)))
  }

  /** Ordered, and elements at one Location are markers of one kind. */
  ghost predicate Mergeable(s: seq<CachedObject>, order: GroupOrder) {
    && (forall i, j :: 0 <= i < j < |s| ==> !Before(s[j].Loc(), s[i].Loc(), order))
    && (forall i, j :: 0 <= i < j < |s| && s[i].Loc() == s[j].Loc() ==>
          s[i].IsRangeMarker() && s[j].IsRangeMarker() && s[i].endOfTimedOutRange == s[j].endOfTimedOutRange)
  }

  lemma {:induction false} MergeKeepsObjects(s: seq<CachedObject>)
    ensures forall o :: o in MergeMarkers(s) ==> o in s
    ensures forall o :: o in s && !o.IsRangeMarker() ==> o in MergeMarkers(s)
  {
    if s != [] {
      MergeKeepsObjects(s[1..]);
    }
  }

  /** Merging markers changes what the response says about no Location. */
  lemma {:induction false} MergeKeepsMeaning(s: seq<CachedObject>, l: Location, order: GroupOrder)
    requires Mergeable(s, order)
    ensures Meaning(View(MergeMarkers(s)), l, order) == Meaning(View(s), l, order)
  {
    if s != [] {
      var rest := s[1..];
      MergeKeepsMeaning(rest, l, order);
      assert View(s)[1..] == View(rest);
      if SameKindMarkers(s, 0) {
        assert View(rest)[0] == ElemOf(s[1]);
        if !Before(s[0].Loc(), l, order) {
          assert !Before(s[1].Loc(), l, order);
        }
      } else {
        assert View([s[0]] + MergeMarkers(rest))[1..] == View(MergeMarkers(rest));
      }
    }
  }

  lemma {:induction false} MergeIsOrdered(s: seq<CachedObject>, order: GroupOrder)
    requires Mergeable(s, order)
    ensures InStreamOrder(View(MergeMarkers(s)), order)
  {
    if s != [] {
      var rest := MergeMarkers(s[1..]);
      MergeIsOrdered(s[1..], order);
      if !SameKindMarkers(s, 0) {
        forall k | 0 <= k < |rest| ensures Before(s[0].Loc(), rest[k].Loc(), order) {
          MergeKeepsObjects(s[1..]);
          assert rest[k] in s[1..];
          assert Before(s[0].Loc(), s[1].Loc(), order);
        }
        var m := View([s[0]] + rest);
        forall i, j | 0 <= i < j < |m| ensures Before(m[i].at, m[j].at, order) {
          assert m[j] == View(rest)[j - 1];
          if i > 0 {
            assert m[i] == View(rest)[i - 1];
          }
        }
      }
    }
  }

  lemma {:induction false} UnmergedMembers(
    objs: seq<CachedObject>, unknown: seq<LocRange>, timedOut: seq<LocRange>, order: GroupOrder, o: CachedObject)
    requires AllValid(unknown) && AllValid(timedOut)
    ensures o in Unmerged(objs, unknown, timedOut, order) <==>
            o in objs || o in Markers(unknown, false, order) || o in Markers(timedOut, true, order)
  {
    SortKeepsMembers(objs + Markers(unknown, false, order) + Markers(timedOut, true, order), StreamKey(order));
  }

  lemma {:induction false} UnmergedIsSorted(
    objs: seq<CachedObject>, unknown: seq<LocRange>, timedOut: seq<LocRange>, order: GroupOrder, i: nat, j: nat)
    requires AllValid(unknown) && AllValid(timedOut)
    requires i < j < |Unmerged(objs, unknown, timedOut, order)|
    ensures var s := Unmerged(objs, unknown, timedOut, order); !Before(s[j].Loc(), s[i].Loc(), order)
  {
    var s := Unmerged(objs, unknown, timedOut, order);
    StableSortSpec(objs + Markers(unknown, false, order) + Markers(timedOut, true, order), StreamKey(order));
    assert StreamKey(order)(s[i]) <= StreamKey(order)(s[j]);
    PositionOrders(s[j].Loc(), s[i].Loc(), order);
  }

  /** An element of the unmerged list is an Object outside both sets, or the marker of one. */
  lemma {:induction false} UnmergedKind(
    objs: seq<CachedObject>, unknown: seq<LocRange>, timedOut: seq<LocRange>, order: GroupOrder, o: CachedObject)
    requires Classified(objs, unknown, timedOut)
    requires o in Unmerged(objs, unknown, timedOut, order)
    ensures o == UnknownRangeMarker(o.Loc()) <==> InAny(o.Loc(), unknown)
    ensures o == TimedOutRangeMarker(o.Loc()) <==> InAny(o.Loc(), timedOut)
    ensures o in objs <==> !InAny(o.Loc(), unknown) && !InAny(o.Loc(), timedOut)
  {
    UnmergedMembers(objs, unknown, timedOut, order, o);
    MarkersMembers(unknown, false, order);
    MarkersMembers(timedOut, true, order);
  }

  lemma {:induction false} UnmergedIsMergeable(
    objs: seq<CachedObject>, unknown: seq<LocRange>, timedOut: seq<LocRange>, order: GroupOrder)
    requires Classified(objs, unknown, timedOut)
    ensures Mergeable(Unmerged(objs, unknown, timedOut, order), order)
  {
    hide Unmerged;
    var s := Unmerged(objs, unknown, timedOut, order);
    forall i, j | 0 <= i < j < |s| ensures !Before(s[j].Loc(), s[i].Loc(), order) {
      UnmergedIsSorted(objs, unknown, timedOut, order, i, j);
    }
    forall i, j | 0 <= i < j < |s| && s[i].Loc() == s[j].Loc()
      ensures s[i].IsRangeMarker() && s[j].IsRangeMarker() && s[i].endOfTimedOutRange == s[j].endOfTimedOutRange
    {
      UnmergedTwice(objs, unknown, timedOut, order, i, j);
    }
  }

  lemma {:induction false} ObjectsOnce(
    objs: seq<CachedObject>, unknown: seq<LocRange>, timedOut: seq<LocRange>, order: GroupOrder, i: nat, j: nat)
    requires Classified(objs, unknown, timedOut)
    requires i < j < |Unmerged(objs, unknown, timedOut, order)| && Unmerged(objs, unknown, timedOut, order)[i] in objs
    ensures Unmerged(objs, unknown, timedOut, order)[i] != Unmerged(objs, unknown, timedOut, order)[j]
  {
    hide InAny;
    var markers := Markers(unknown, false, order) + Markers(timedOut, true, order);
    assert objs + markers == objs + Markers(unknown, false, order) + Markers(timedOut, true, order);
    MarkersMembers(unknown, false, order);
    MarkersMembers(timedOut, true, order);
    SortKeepsDistinct(objs, markers, StreamKey(order), i, j);
  }

  /** Two elements at one Location are markers of one kind. */
  lemma {:induction false} UnmergedTwice(
    objs: seq<CachedObject>, unknown: seq<LocRange>, timedOut: seq<LocRange>, order: GroupOrder, i: nat, j: nat)
    requires Classified(objs, unknown, timedOut)
    requires i < j < |Unmerged(objs, unknown, timedOut, order)|
    requires Unmerged(objs, unknown, timedOut, order)[i].Loc() == Unmerged(objs, unknown, timedOut, order)[j].Loc()
    ensures var s := Unmerged(objs, unknown, timedOut, order);
      s[i].IsRangeMarker() && s[j].IsRangeMarker() && s[i].endOfTimedOutRange == s[j].endOfTimedOutRange
  {
    hide Unmerged, InAny;
    var s := Unmerged(objs, unknown, timedOut, order);
    UnmergedKind(objs, unknown, timedOut, order, s[i]);
    UnmergedKind(objs, unknown, timedOut, order, s[j]);
    if s[i] in objs {
      assert s[i] == s[j] by {
        var p :| 0 <= p < |objs| && objs[p] == s[i];
        var q :| 0 <= q < |objs| && objs[q] == s[j];
        assert p == q;
      }
      ObjectsOnce(objs, unknown, timedOut, order, i, j);
      assert false;
    }
  }

  /** The first element at or after an unknown or timed out Location is a marker of its kind. */
  lemma {:induction false} UnmergedMarks(
    objs: seq<CachedObject>, unknown: seq<LocRange>, timedOut: seq<LocRange>, order: GroupOrder,
    l: Location, late: bool)
    requires Classified(objs, unknown, timedOut)
    requires InAny(l, if late then timedOut else unknown)
    ensures Meaning(View(Unmerged(objs, unknown, timedOut, order)), l, order) == if late then TimedOut else Unknown
  {
    hide ValidRange, Unmerged, Markers, StableSort, Meaning, Compare, InRange;
    var s := Unmerged(objs, unknown, timedOut, order);
    var rs := if late then timedOut else unknown;
    var k :| 0 <= k < |rs| && InRange(l, rs[k]);
    var i := FirstInRun(objs, unknown, timedOut, order, l, late, rs[k]);
    UnmergedKind(objs, unknown, timedOut, order, s[i]);
    assert InAny(s[i].Loc(), rs);
  }

  /** From a Location of r on, the first element still lies in r: r's runs end in markers. */
  lemma {:induction false} FirstInRun(
    objs: seq<CachedObject>, unknown: seq<LocRange>, timedOut: seq<LocRange>, order: GroupOrder,
    l: Location, late: bool, r: LocRange)
    returns (i: nat)
    requires AllValid(unknown) && AllValid(timedOut)
    requires r in (if late then timedOut else unknown) && InRange(l, r)
    ensures var s := Unmerged(objs, unknown, timedOut, order);
            && i < |s| && InRange(s[i].Loc(), r)
            && Meaning(View(s), l, order) == Verdict(ElemOf(s[i]), l)
  {
    hide Unmerged, Markers, StableSort, RunEnds;
    var s := Unmerged(objs, unknown, timedOut, order);
    var rs := if late then timedOut else unknown;
    var end := RunReachesEnd(r, order, l);
    MarkersMembers(rs, late, order);
    UnmergedMembers(objs, unknown, timedOut, order, Marker(end, late));
    var e :| 0 <= e < |s| && s[e] == Marker(end, late);
    i := FirstFrom(View(s), l, order);
    assert i <= e;
    if i < e {
      UnmergedIsSorted(objs, unknown, timedOut, order, i, e);
    } else {
      PositionOrders(end, end, order);
    }
  }

  /** A response only leaves a plain gap over Locations neither unknown nor timed out. */
  lemma {:induction false} ElementsSound(
    objs: seq<CachedObject>, unknown: seq<LocRange>, timedOut: seq<LocRange>, order: GroupOrder)
    requires Classified(objs, unknown, timedOut)
    ensures InStreamOrder(View(Elements(objs, unknown, timedOut, order)), order)
    ensures forall o: CachedObject :: !o.IsRangeMarker() ==>
      (o in objs <==> o in Elements(objs, unknown, timedOut, order))
    ensures forall l ::
              var m := Meaning(View(Elements(objs, unknown, timedOut, order)), l, order);
              && (InAny(l, unknown) ==> m == Unknown)
              && (InAny(l, timedOut) ==> m == TimedOut)
              && (m == Present <==> exists o :: o in objs && o.Loc() == l)
  {
    var s := Unmerged(objs, unknown, timedOut, order);
    var es := Elements(objs, unknown, timedOut, order);
    UnmergedIsMergeable(objs, unknown, timedOut, order);
    MergeIsOrdered(s, order);
    MergeKeepsObjects(s);
    forall o: CachedObject | !o.IsRangeMarker() ensures o in objs <==> o in es {
      UnmergedMembers(objs, unknown, timedOut, order, o);
      MarkersMembers(unknown, false, order);
      MarkersMembers(timedOut, true, order);
    }
    forall l
      ensures InAny(l, unknown) ==> Meaning(View(es), l, order) == Unknown
      ensures InAny(l, timedOut) ==> Meaning(View(es), l, order) == TimedOut
      ensures Meaning(View(es), l, order) == Present <==> exists o :: o in objs && o.Loc() == l
    {
      MergeKeepsMeaning(s, l, order);
      if InAny(l, unknown) {
        UnmergedMarks(objs, unknown, timedOut, order, l, false);
      }
      if InAny(l, timedOut) {
        UnmergedMarks(objs, unknown, timedOut, order, l, true);
      }
      PresentAtObjects(es, objs, l, order);
    }
  }

  lemma {:induction false} PresentAtObjects(
    es: seq<CachedObject>, objs: seq<CachedObject>, l: Location, order: GroupOrder)
    requires InStreamOrder(View(es), order)
    requires forall o :: o in objs ==> !o.IsRangeMarker()
    requires forall o: CachedObject :: !o.IsRangeMarker() ==> (o in objs <==> o in es)
    ensures Meaning(View(es), l, order) == Present <==> exists o :: o in objs && o.Loc() == l
  {
    PresentIffElement(View(es), l, order);
    if Elem(l, ObjectElem) in View(es) {
      var i :| 0 <= i < |es| && View(es)[i] == Elem(l, ObjectElem);
      assert es[i] in objs;
    }
    if o :| o in objs && o.Loc() == l {
      var i :| 0 <= i < |es| && es[i] == o;
      assert View(es)[i] == Elem(l, ObjectElem);
    }
  }
}
