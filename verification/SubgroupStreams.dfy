/**
 Which Objects of a Subgroup share an outbound stream (section 11.3.2): one goes on after another only if the
 relay can tell that nothing lies between them, and a stream with Objects on it is given up only if it cannot.
 */
module SubgroupStreams {
  import opened Uint64
  import opened SubgroupWriter

  /**
   Nothing can lie between a and b: their IDs are consecutive, or b, taken from the queue right after a, was
   read right after it or says that no Object is between them. atOnce: nothing was taken between the two.
   */
  ghost predicate Continues(a: Fwd, b: Fwd, atOnce: bool) {
    || b.absID == a.absID + 1
    || (atOnce && b.absID > a.absID && (b.follows || (b.gap.Some? && b.absID == a.absID + 1 + b.gap.value)))
  }

  /** The loop's test is that, but for an ID that wraps. */
  lemma {:induction false} NextExact(a: Fwd, b: Fwd, dropped: bool)
    ensures IsNextObject(b, a.absID, dropped) <==> Continues(a, b, !dropped) || (a.absID == MAX_U64 && b.absID == 0)
  {
  }

  // ---------------------------------------------------------------------------
  // Streams and the queue they came from
  // ---------------------------------------------------------------------------

  /** s was opened for one of taken, and carries it and then Objects that each continue the one before. */
  ghost predicate Shares(s: OutStream, p: Placed, taken: seq<Fwd>) {
    && 1 <= p.opener <= |taken| && |p.at| == |s.objs| && (p.at != [] ==> p.at[0] == p.opener)
    && (forall n :: 0 <= n < |p.at| ==> 1 <= p.at[n] <= |taken| && taken[p.at[n] - 1] == s.objs[n])
    && (forall n :: 0 < n < |p.at| ==> GoesOn(s.objs, p.at, n))
  }

  /** The n-th Object was taken after the one before it, and continues it. */
  ghost predicate GoesOn(objs: seq<Fwd>, at: seq<nat>, n: nat) {
    0 < n < |at| && n < |objs| && at[n - 1] < at[n] && Continues(objs[n - 1], objs[n], at[n] == at[n - 1] + 1)
  }

  /** The Object that opened the stream after s could not go on s: it does not continue s, or has Properties. */
  ghost predicate Breaks(s: OutStream, p: Placed, opener: nat, taken: seq<Fwd>) {
    && p.opener < opener <= |taken|
    && (s.objs != [] && |p.at| == |s.objs| ==>
          && p.at[|p.at| - 1] < opener
          && (|| !Continues(s.objs[|s.objs| - 1], taken[opener - 1], opener == p.at[|p.at| - 1] + 1)
              || (taken[opener - 1].hasProps && !s.withProps)))
  }

  ghost predicate PlacedWell(streams: seq<OutStream>, placed: seq<Placed>, taken: seq<Fwd>) {
    && |streams| == |placed|
    && (forall i :: 0 <= i < |streams| ==> Shares(streams[i], placed[i], taken))
    && (forall i :: 0 < i < |streams| ==> Breaks(streams[i - 1], placed[i - 1], placed[i].opener, taken))
  }

  /** s and t carry the same, whichever way they end. */
  predicate SameLoad(s: OutStream, t: OutStream) {
    s.objs == t.objs && s.withProps == t.withProps
  }

  lemma {:induction false} PlacedMore(streams: seq<OutStream>, placed: seq<Placed>, taken: seq<Fwd>, fwd: Fwd)
    requires PlacedWell(streams, placed, taken)
    ensures PlacedWell(streams, placed, taken + [fwd])
  {
    hide Continues;
    var more := taken + [fwd];
    assert forall n :: 0 <= n < |taken| ==> more[n] == taken[n];
    forall i | 0 <= i < |streams|
      ensures Shares(streams[i], placed[i], more)
    {
      assert Shares(streams[i], placed[i], taken);
    }
    forall i | 0 < i < |streams|
      ensures Breaks(streams[i - 1], placed[i - 1], placed[i].opener, more)
    {
      assert Breaks(streams[i - 1], placed[i - 1], placed[i].opener, taken);
    }
  }

  lemma {:induction false} PlacedSame(
    streams: seq<OutStream>, others: seq<OutStream>, placed: seq<Placed>, taken: seq<Fwd>)
    requires PlacedWell(streams, placed, taken) && |others| == |streams|
    requires forall i :: 0 <= i < |streams| ==> SameLoad(others[i], streams[i])
    ensures PlacedWell(others, placed, taken)
  {
    hide Continues;
    forall i | 0 <= i < |streams|
      ensures Shares(others[i], placed[i], taken)
    {
      assert Shares(streams[i], placed[i], taken) && SameLoad(others[i], streams[i]);
    }
    forall i | 0 < i < |streams|
      ensures Breaks(others[i - 1], placed[i - 1], placed[i].opener, taken)
    {
      assert Breaks(streams[i - 1], placed[i - 1], placed[i].opener, taken) && SameLoad(others[i - 1], streams[i - 1]);
    }
  }

  /** One more stream, opened for the last Object taken. */
  lemma {:induction false} PlaceStream(streams: seq<OutStream>, placed: seq<Placed>, taken: seq<Fwd>, s: OutStream)
    requires PlacedWell(streams, placed, taken) && taken != [] && s.objs == []
    requires streams != [] ==> Breaks(streams[|streams| - 1], placed[|streams| - 1], |taken|, taken)
    ensures PlacedWell(streams + [s], placed + [Placed(|taken|, [])], taken)
  {
    hide Continues;
    var more, ps := streams + [s], placed + [Placed(|taken|, [])];
    assert forall i :: 0 <= i < |streams| ==> more[i] == streams[i] && ps[i] == placed[i];
    forall i | 0 <= i < |more|
      ensures Shares(more[i], ps[i], taken)
    {
      assert i < |streams| ==> Shares(streams[i], placed[i], taken);
    }
    forall i | 0 < i < |more|
      ensures Breaks(more[i - 1], ps[i - 1], ps[i].opener, taken)
    {
      assert i < |streams| ==> Breaks(streams[i - 1], placed[i - 1], placed[i].opener, taken);
    }
  }

  lemma {:induction false} SharesMore(s: OutStream, t: OutStream, p: Placed, taken: seq<Fwd>)
    requires Shares(s, p, taken) && taken != [] && t.objs == s.objs + [taken[|taken| - 1]]
    requires if s.objs == [] then p.opener == |taken|
             else p.at[|p.at| - 1] < |taken|
                  && Continues(s.objs[|s.objs| - 1], taken[|taken| - 1], |taken| == p.at[|p.at| - 1] + 1)
    ensures Shares(t, p.(at := p.at + [|taken|]), taken)
  {
    hide Continues;
    var q := p.(at := p.at + [|taken|]);
    assert forall n :: 0 <= n < |p.at| ==> q.at[n] == p.at[n] && t.objs[n] == s.objs[n];
    forall n | 0 < n < |q.at|
      ensures GoesOn(t.objs, q.at, n)
    {
      assert n < |p.at| ==> GoesOn(s.objs, p.at, n);
    }
  }

  /** The last Object taken goes on the last stream. */
  lemma {:induction false} PlaceObject(
    streams: seq<OutStream>, others: seq<OutStream>, placed: seq<Placed>, taken: seq<Fwd>)
    requires PlacedWell(streams, placed, taken) && taken != [] && streams != [] && |others| == |streams|
    requires forall i :: 0 <= i < |streams| - 1 ==> SameLoad(others[i], streams[i])
    requires var s, t, p := streams[|streams| - 1], others[|streams| - 1], placed[|streams| - 1];
      && t.objs == s.objs + [taken[|taken| - 1]]
      && (if s.objs == [] then p.opener == |taken|
          else p.at[|p.at| - 1] < |taken|
               && Continues(s.objs[|s.objs| - 1], taken[|taken| - 1], |taken| == p.at[|p.at| - 1] + 1))
    ensures var n := |streams| - 1;
      PlacedWell(others, placed[n := placed[n].(at := placed[n].at + [|taken|])], taken)
  {
    hide Continues;
    var n := |streams| - 1;
    var ps := placed[n := placed[n].(at := placed[n].at + [|taken|])];
    assert Shares(streams[n], placed[n], taken);
    SharesMore(streams[n], others[n], placed[n], taken);
    forall i | 0 <= i < n
      ensures Shares(others[i], ps[i], taken)
    {
      assert Shares(streams[i], placed[i], taken) && SameLoad(others[i], streams[i]);
    }
    hide Shares;
    forall i | 0 < i < |others|
      ensures Breaks(others[i - 1], ps[i - 1], ps[i].opener, taken)
    {
      assert Breaks(streams[i - 1], placed[i - 1], placed[i].opener, taken) && SameLoad(others[i - 1], streams[i - 1]);
    }
  }

  // ---------------------------------------------------------------------------
  // Steps of the loop
  // ---------------------------------------------------------------------------

  /**
   While the loop goes on, an open stream has an Object on it, and dropped tells whether any was taken since;
   and a stream with Objects on it is closed only once writes have failed or the loop has ended.
   */
  ghost predicate Cursor(lp: Loop) {
    && (lp.open && !lp.lagExceeded ==>
          var n := |lp.placed| - 1;
          n >= 0 && lp.placed[n].at != [] && (lp.dropped <==> lp.placed[n].at[|lp.placed[n].at| - 1] < |lp.taken|))
    && (!lp.open && lp.streams != [] && lp.streams[|lp.streams| - 1].objs != [] ==> lp.writeFailed || lp.ended)
  }

  ghost predicate ShareInv(lp: Loop) {
    PlacedWell(lp.streams, lp.placed, lp.taken) && Cursor(lp)
  }

  predicate Opens(lp: Loop, h: Loop) {
    |h.streams| > |lp.streams|
  }

  predicate Wrote(lp: Loop, h: Loop) {
    |h.written| > |lp.written|
  }

  /** What handling one Object does to the streams: nothing, or one more Object, or one more stream, or both. */
  ghost predicate Handled(lp: Loop, h: Loop, fwd: Fwd) {
    var n := |lp.streams|;
    && |h.streams| == n + (if Opens(lp, h) then 1 else 0)
    && (forall i :: 0 <= i < n - 1 ==> SameLoad(h.streams[i], lp.streams[i]))
    && (n > 0 && (Opens(lp, h) || !Wrote(lp, h)) ==> SameLoad(h.streams[n - 1], lp.streams[n - 1]))
    && (Opens(lp, h) ==> NeedsOpen(lp, fwd) && !lp.writeFailed
                         && h.streams[n].objs == if Wrote(lp, h) then [fwd] else [])
    && (!Opens(lp, h) && Wrote(lp, h) ==> lp.open && n > 0 && !Stale(lp, fwd)
                                          && h.streams[n - 1].objs == lp.streams[n - 1].objs + [fwd])
    && (h.open && !h.lagExceeded ==> h.streams != [] && h.streams[|h.streams| - 1].objs != []
                                     && (h.dropped <==> !Wrote(lp, h)))
    && (!h.open && h.streams != [] && h.streams[|h.streams| - 1].objs != [] ==>
          h.writeFailed || h.ended || (!Opens(lp, h) && !lp.open))
    && (lp.writeFailed ==> h.writeFailed) && h.ended == lp.ended
  }

  lemma {:induction false} StaleBreaks(lp: Loop, fwd: Fwd)
    requires StreamInv(lp) && ShareInv(lp) && !lp.lagExceeded && !lp.writeFailed && !lp.ended
    requires NeedsOpen(lp, fwd) && lp.streams != []
    ensures Breaks(lp.streams[|lp.streams| - 1], lp.placed[|lp.streams| - 1], |lp.taken| + 1, lp.taken + [fwd])
  {
    hide IsNextObject, Continues, WellFormed, Concat;
    var n := |lp.streams| - 1;
    var s, p := lp.streams[n], lp.placed[n];
    assert Shares(s, p, lp.taken);
    if s.objs != [] {
      assert lp.open && AtCursor(s, lp);
      NextExact(s.objs[|s.objs| - 1], fwd, lp.dropped);
    }
  }

  lemma {:induction false} FreshContinues(lp: Loop, fwd: Fwd)
    requires StreamInv(lp) && ShareInv(lp) && !lp.lagExceeded && lp.open
    requires !Stale(lp, fwd) && !WrapsToZero(lp, fwd)
    ensures var s, p := lp.streams[|lp.streams| - 1], lp.placed[|lp.streams| - 1];
      && s.objs != [] && p.at != [] && p.at[|p.at| - 1] <= |lp.taken|
      && Continues(s.objs[|s.objs| - 1], fwd, |lp.taken| + 1 == p.at[|p.at| - 1] + 1)
  {
    hide IsNextObject, Continues, WellFormed, Concat;
    var n := |lp.streams| - 1;
    var s, p := lp.streams[n], lp.placed[n];
    assert Shares(s, p, lp.taken) && AtCursor(s, lp);
    NextExact(s.objs[|s.objs| - 1], fwd, lp.dropped);
  }

  /** Handling one Object keeps every stream to Objects that continue each other. */
  lemma {:induction false} HandledShares(lp: Loop, h: Loop, fwd: Fwd)
    requires StreamInv(lp) && ShareInv(lp) && !lp.lagExceeded && !lp.ended && (lp.open ==> !lp.writeFailed)
    requires !WrapsToZero(lp, fwd) && Handled(lp, h, fwd)
    ensures PlacedWell(h.streams, Placements(lp, h, |lp.taken| + 1), lp.taken + [fwd])
  {
    hide StreamInv, Continues, Shares, Breaks, Cursor, NeedsOpen, Stale;
    var n, taken := |lp.streams|, lp.taken + [fwd];
    PlacedMore(lp.streams, lp.placed, lp.taken, fwd);
    if Opens(lp, h) {
      if n > 0 {
        StaleBreaks(lp, fwd);
      }
      var s := h.streams[n].(objs := []);
      PlaceStream(lp.streams, lp.placed, taken, s);
      var streams, placed := lp.streams + [s], lp.placed + [Placed(|taken|, [])];
      if Wrote(lp, h) {
        assert streams[n] == s && placed[n] == Placed(|taken|, []);
        PlaceObject(streams, h.streams, placed, taken);
      } else {
        PlacedSame(streams, h.streams, placed, taken);
      }
    } else if Wrote(lp, h) {
      FreshContinues(lp, fwd);
      PlaceObject(lp.streams, h.streams, lp.placed, taken);
      assert lp.placed + [] == lp.placed;
    } else {
      PlacedSame(lp.streams, h.streams, lp.placed, taken);
      assert lp.placed + [] == lp.placed;
    }
  }

  /** The streams with one open that fwd may go on: those there were, or one more. */
  ghost predicate Prepared(lp: Loop, r: Loop, fwd: Fwd) {
    var n := |lp.streams|;
    && r.open && r.streams != [] && r.written == lp.written && r.ended == lp.ended
    && r.writeFailed == lp.writeFailed && r.lagExceeded == lp.lagExceeded
    && (if NeedsOpen(lp, fwd) then
          && |r.streams| == n + 1 && (forall i :: 0 <= i < n ==> SameLoad(r.streams[i], lp.streams[i]))
          && r.streams[n].objs == [] && !r.hasWritten
        else r.streams == lp.streams && r.hasWritten && lp.open && r.streams[n - 1].objs != [])
  }

  lemma {:induction false} PrepareIs(lp: Loop, fwd: Fwd, code: ResetCode)
    requires StreamInv(lp)
    ensures Prepared(lp, Prepare(lp, fwd, code), fwd)
  {
    hide IsNextObject, WellFormed, Concat;
  }

  lemma {:induction false} SettleHandles(w: Writer, lp: Loop, fwd: Fwd, fate: Fate)
    requires Prepared(lp, w.loop, fwd) && !lp.writeFailed && !lp.lagExceeded
    ensures Handled(lp, Settle(w, fwd, fate).loop, fwd)
  {
    hide IsNextObject, Wrap, MarkIncomplete;
  }

  lemma {:induction false} HandleHandles(w: Writer, fwd: Fwd, fate: Fate)
    requires StreamInv(w.loop) && !w.loop.lagExceeded && (w.loop.open ==> !w.loop.writeFailed)
    ensures Handled(w.loop, Handle(w, fwd, fate).loop, fwd)
  {
    hide IsNextObject, WellFormed, Concat, Prepare, Settle;
    if !fate.Lags? && !w.loop.writeFailed && !(NeedsOpen(w.loop, fwd) && fate.OpenFails?) {
      var code := CodeForReset(w.shared);
      PrepareIs(w.loop, fwd, code);
      SettleHandles(w.(loop := Prepare(w.loop, fwd, code)), w.loop, fwd, fate);
    }
  }

  lemma {:induction false} LastPlaced(lp: Loop, h: Loop, n: nat)
    requires Placements(lp, h, n) != []
    ensures var ps := Placements(lp, h, n); var p := ps[|ps| - 1];
      && (Wrote(lp, h) ==> p.at != [] && p.at[|p.at| - 1] == n)
      && (!Wrote(lp, h) && !Opens(lp, h) ==> ps == lp.placed)
  {
  }

  lemma {:induction false} LastTaken(streams: seq<OutStream>, placed: seq<Placed>, taken: seq<Fwd>)
    requires PlacedWell(streams, placed, taken) && streams != [] && streams[|streams| - 1].objs != []
    ensures var p := placed[|streams| - 1]; p.at != [] && p.at[|p.at| - 1] <= |taken|
  {
    hide Continues;
    assert Shares(streams[|streams| - 1], placed[|streams| - 1], taken);
  }

  lemma {:induction false} CursorAfter(lp: Loop, h: Loop, fwd: Fwd)
    requires ShareInv(lp) && !lp.lagExceeded && !lp.ended && Handled(lp, h, fwd)
    requires PlacedWell(h.streams, Placements(lp, h, |lp.taken| + 1), lp.taken + [fwd])
    ensures Cursor(h.(taken := lp.taken + [fwd], placed := Placements(lp, h, |lp.taken| + 1)))
  {
    hide Continues, Shares, Breaks, NeedsOpen, Stale, Placements;
    if h.streams != [] {
      LastPlaced(lp, h, |lp.taken| + 1);
    }
    if h.open && !h.lagExceeded && !Wrote(lp, h) {
      assert !Opens(lp, h) && SameLoad(h.streams[|h.streams| - 1], lp.streams[|lp.streams| - 1]);
      LastTaken(lp.streams, lp.placed, lp.taken);
    }
  }

  lemma {:induction false} TakeShares(w: Writer, fate: Fate)
    requires StreamRunInv(w) && ShareInv(w.loop) && Enabled(w, TakeStep(fate))
    ensures ShareInv(TakeNext(w, fate).loop)
  {
    hide Handle, PlacedWell, QueueInv, StreamsGood, AtCursor;
    var fwd := w.shared.inbox[0];
    var v := w.(shared := w.shared.(inbox := w.shared.inbox[1..]));
    var h := Handle(v, fwd, fate).loop;
    HeadDoesNotWrap(w);
    HandleHandles(v, fwd, fate);
    HandledShares(w.loop, h, fwd);
    CursorAfter(w.loop, h, fwd);
  }

  lemma {:induction false} FinishShares(w: Writer)
    requires ShareInv(w.loop)
    ensures ShareInv(Finish(w).loop)
  {
    hide PlacedWell, FinishEnding;
    PlacedAgain(w.loop, FinishEnding(w));
  }

  lemma {:induction false} PlacedAgain(lp: Loop, end: Ending)
    requires PlacedWell(lp.streams, lp.placed, lp.taken)
    ensures PlacedWell(CloseOut(lp, end).streams, lp.placed, lp.taken)
  {
    PlacedSame(lp.streams, CloseOut(lp, end).streams, lp.placed, lp.taken);
  }

  // ---------------------------------------------------------------------------
  // The queue and what was admitted
  // ---------------------------------------------------------------------------

  /** b came right after a in s. */
  ghost predicate Neighbours(s: seq<Fwd>, a: Fwd, b: Fwd) {
    exists m :: 0 < m < |s| && s[m - 1] == a && s[m] == b
  }

  function Entered(w: Writer): seq<Fwd> {
    w.loop.taken + w.shared.inbox
  }

  /** What is said to follow came into the queue right after what was admitted right before it. */
  ghost predicate FollowInv(w: Writer) {
    var q, a := Entered(w), w.gate.admitted;
    && (forall i :: 0 < i < |q| && q[i].follows ==> Neighbours(a, q[i - 1], q[i]))
    && (!w.shared.closed && w.gate.lastPos.Some? ==> q != [] && a != [] && q[|q| - 1] == a[|a| - 1])
  }

  lemma {:induction false} NeighboursMore(s: seq<Fwd>, x: Fwd, a: Fwd, b: Fwd)
    requires Neighbours(s, a, b)
    ensures Neighbours(s + [x], a, b)
  {
    var m :| 0 < m < |s| && s[m - 1] == a && s[m] == b;
    assert (s + [x])[m - 1] == a && (s + [x])[m] == b;
  }

  lemma {:induction false} LastNeighbours(s: seq<Fwd>, x: Fwd)
    requires s != []
    ensures Neighbours(s + [x], s[|s| - 1], x)
  {
    assert (s + [x])[|s| - 1] == s[|s| - 1] && (s + [x])[|s|] == x;
  }

  lemma {:induction false} AdmittedFollows(w: Writer, r: Writer, x: Fwd, entered: bool)
    requires FollowInv(w) && !w.shared.closed
    requires r.gate.admitted == w.gate.admitted + [x] && Entered(r) == Entered(w) + if entered then [x] else []
    requires x.follows ==> w.gate.lastPos.Some?
    requires !r.shared.closed && r.gate.lastPos.Some? ==> entered
    ensures FollowInv(r)
  {
    hide Neighbours, Entered;
    var q, a := Entered(w), w.gate.admitted;
    forall i | 0 < i < |Entered(r)| && Entered(r)[i].follows
      ensures Neighbours(r.gate.admitted, Entered(r)[i - 1], Entered(r)[i])
    {
      if i < |q| {
        assert Entered(r)[i] == q[i] && Entered(r)[i - 1] == q[i - 1];
        NeighboursMore(a, x, q[i - 1], q[i]);
      } else {
        LastNeighbours(a, x);
      }
    }
  }

  lemma {:induction false} ClosedFollows(w: Writer, r: Writer)
    requires FollowInv(w) && Entered(r) == Entered(w)
    requires r.gate.admitted == w.gate.admitted || exists x :: r.gate.admitted == w.gate.admitted + [x]
    requires r.shared.closed || (r.gate.admitted == w.gate.admitted && !w.shared.closed
                                 && (r.gate.lastPos.Some? ==> w.gate.lastPos.Some?))
    ensures FollowInv(r)
  {
    hide Neighbours, Entered;
    var q := Entered(w);
    forall i | 0 < i < |q| && q[i].follows
      ensures Neighbours(r.gate.admitted, q[i - 1], q[i])
    {
      if r.gate.admitted != w.gate.admitted {
        var x :| r.gate.admitted == w.gate.admitted + [x];
        NeighboursMore(w.gate.admitted, x, q[i - 1], q[i]);
      }
    }
  }

  lemma {:induction false} OfferFollows(w: Writer, pos: Pos, fwd: Fwd, v: Verdict)
    requires FollowInv(w)
    ensures FollowInv(Offer(w, pos, fwd, v))
  {
    hide FollowInv;
    var r := Offer(w, pos, fwd, v);
    var x := fwd.(follows := Follows(w.gate, pos));
    if v.Forward? {
      if w.shared.closed {
        assert r.gate.admitted == w.gate.admitted + [x];
        ClosedFollows(w, r);
      } else {
        var entered := |w.shared.inbox| < w.cfg.capacity;
        assert w.loop.taken + (w.shared.inbox + [x]) == (w.loop.taken + w.shared.inbox) + [x];
        assert entered || Entered(w) + [] == Entered(r);
        AdmittedFollows(w, r, x, entered);
      }
    } else {
      ClosedFollows(w, r);
    }
  }

  lemma {:induction false} FollowStep(w: Writer, s: Step)
    requires FollowInv(w) && FinInv(w) && Enabled(w, s)
    ensures FollowInv(Next(w, s))
  {
    hide FollowInv, Offer, Handle, FinishEnding, MarkIncomplete, Close;
    if s.OfferStep? {
      OfferFollows(w, s.pos, s.fwd, s.verdict);
    } else {
      var r := Next(w, s);
      QueueAfter(w, s);
      ClosedAfter(w, s);
      if s.TakeStep? {
        assert w.loop.taken + w.shared.inbox == (w.loop.taken + [w.shared.inbox[0]]) + w.shared.inbox[1..];
        assert r.loop.taken == w.loop.taken + [w.shared.inbox[0]];
      }
      ClosedFollows(w, r);
    }
  }

  lemma {:induction false} ClosedAfter(w: Writer, s: Step)
    requires FinInv(w) && Enabled(w, s) && !s.OfferStep?
    ensures var r := Next(w, s);
      && r.gate == w.gate.(tornDown := r.gate.tornDown, declined := r.gate.declined)
      && (w.shared.closed ==> r.shared.closed)
  {
    hide FinishEnding, Prepare;
  }

  // ---------------------------------------------------------------------------
  // Whole runs
  // ---------------------------------------------------------------------------

  /** No stream ends in a FIN but, once the loop has ended, the last. */
  ghost predicate LastFins(lp: Loop) {
    (forall i :: 0 <= i < |lp.streams| - 1 ==> !lp.streams[i].end.Fin?) && (lp.ended || NoFin(lp))
  }

  lemma {:induction false} LastFinsStep(w: Writer, s: Step)
    requires LastFins(w.loop) && Enabled(w, s)
    ensures LastFins(Next(w, s).loop)
  {
    hide Offer, AgedOut, TearDown, TakeNext, FinishEnding;
    match s
    case OfferStep(_, _, _) => LoopStays(w, s);
    case AgedOutStep(_, _) => LoopStays(w, s);
    case TearDownStep(_) => LoopStays(w, s);
    case TakeStep(fate) => TakeAddsNoFin(w, fate);
    case FinishStep =>
  }

  /** What every step keeps, so long as no ID wraps. */
  ghost predicate TogetherInv(w: Writer) {
    StreamRunInv(w) && ShareInv(w.loop) && FollowInv(w) && LastFins(w.loop)
  }

  lemma {:induction false} TogetherStep(w: Writer, s: Step)
    requires TogetherInv(w) && Enabled(w, s) && NoWrap(Next(w, s).gate.admitted)
    ensures TogetherInv(Next(w, s))
  {
    StreamRunInvStep(w, s);
    FollowStep(w, s);
    LastFinsStep(w, s);
    hide StreamRunInv, LastFins, FollowInv, ShareInv, NoWrap, Offer, AgedOut, TearDown, TakeNext, Finish;
    match s
    case OfferStep(_, _, _) => LoopStays(w, s);
    case AgedOutStep(_, _) => LoopStays(w, s);
    case TearDownStep(_) => LoopStays(w, s);
    case TakeStep(fate) => TakeShares(w, fate);
    case FinishStep => FinishShares(w);
  }

  lemma {:induction false} LoopStays(w: Writer, s: Step)
    requires Enabled(w, s) && !s.TakeStep? && !s.FinishStep?
    ensures Next(w, s).loop == w.loop
  {
  }

  lemma {:induction false} NewTogether(cfg: Config, withProps: bool)
    ensures TogetherInv(NewWriter(cfg, withProps))
  {
    NewWriterStreams(cfg, withProps);
  }

  lemma {:induction false} TogetherRun(ws: seq<Writer>, ss: seq<Step>)
    requires IsRun(ws, ss) && NoWrap(ws[|ss|].gate.admitted)
    ensures TogetherInv(ws[|ss|])
    decreases |ss|
  {
    if ss == [] {
      NewTogether(ws[0].cfg, ws[0].loop.withProps);
    } else {
      var n := |ss| - 1;
      AdmittedGrows(ws[n], ss[n]);
      hide TogetherInv, Enabled, Next, NoWrap;
      TogetherRun(ws[..n + 1], ss[..n]);
      TogetherStep(ws[n], ss[n]);
    }
  }

  /** b, right after a on a stream of w: nothing can lie between them, as far as w's own record of them goes. */
  ghost predicate SharesRightly(w: Writer, a: Fwd, b: Fwd) {
    || b.absID == a.absID + 1
    || (&& b.absID > a.absID && Neighbours(w.loop.taken, a, b)
        && (|| (b.follows && Neighbours(w.gate.admitted, a, b))
            || (b.gap.Some? && b.absID == a.absID + 1 + b.gap.value)))
  }

  lemma {:induction false} SharedPair(w: Writer, i: nat, n: nat)
    requires ShareInv(w.loop) && FollowInv(w) && i < |w.loop.streams| && 0 < n < |w.loop.streams[i].objs|
    ensures SharesRightly(w, w.loop.streams[i].objs[n - 1], w.loop.streams[i].objs[n])
  {
    var s, p := w.loop.streams[i], w.loop.placed[i];
    assert Shares(s, p, w.loop.taken);
    var m := p.at[n] - 1;
    assert w.loop.taken[m] == s.objs[n] && w.loop.taken[p.at[n - 1] - 1] == s.objs[n - 1];
    assert Entered(w)[m] == w.loop.taken[m];
    assert GoesOn(s.objs, p.at, n);
    if p.at[n] == p.at[n - 1] + 1 {
      assert m > 0 && w.loop.taken[m - 1] == s.objs[n - 1];
      assert Neighbours(w.loop.taken, s.objs[n - 1], s.objs[n]);
      assert Entered(w)[m - 1] == w.loop.taken[m - 1];
    }
  }

  /**
   In every run without an ID wrap, neighbours on an outbound stream have consecutive IDs, or were taken from
   the queue one right after the other, and then either the later one was also admitted right after the
   earlier and read right after it, or its Prior Object ID Gap reaches down to the one above the earlier.
   */
  lemma {:induction false} SharedStream(ws: seq<Writer>, ss: seq<Step>, i: nat, n: nat)
    requires IsRun(ws, ss) && NoWrap(ws[|ss|].gate.admitted)
    requires i < |ws[|ss|].loop.streams| && 0 < n < |ws[|ss|].loop.streams[i].objs|
    ensures var w := ws[|ss|]; SharesRightly(w, w.loop.streams[i].objs[n - 1], w.loop.streams[i].objs[n])
  {
    TogetherRun(ws, ss);
    SharedPair(ws[|ss|], i, n);
  }

  /** The Object stream i of w was opened for does not continue the stream before, or has Properties it lacks. */
  ghost predicate OpenedRightly(w: Writer, i: nat)
    requires 0 < i < |w.loop.streams|
  {
    var s := w.loop.streams[i - 1];
    s.objs != [] ==> exists m, o ::
      && 0 <= m < o < |w.loop.taken| && w.loop.taken[m] == s.objs[|s.objs| - 1]
      && (w.loop.streams[i].objs != [] ==> w.loop.streams[i].objs[0] == w.loop.taken[o])
      && (|| !Continues(s.objs[|s.objs| - 1], w.loop.taken[o], o == m + 1)
          || (w.loop.taken[o].hasProps && !s.withProps))
  }

  lemma {:induction false} OpenedNext(w: Writer, i: nat)
    requires ShareInv(w.loop) && 0 < i < |w.loop.streams|
    ensures OpenedRightly(w, i)
  {
    hide Continues;
    var s, p, q := w.loop.streams[i - 1], w.loop.placed[i - 1], w.loop.placed[i];
    assert Shares(s, p, w.loop.taken) && Shares(w.loop.streams[i], q, w.loop.taken);
    assert Breaks(s, p, q.opener, w.loop.taken);
    if s.objs != [] {
      var m, o := p.at[|p.at| - 1] - 1, q.opener - 1;
      assert w.loop.taken[m] == s.objs[|s.objs| - 1];
    }
  }

  /** And a stream with Objects on it gives way to another only for an Object that does not continue it. */
  lemma {:induction false} NewStream(ws: seq<Writer>, ss: seq<Step>, i: nat)
    requires IsRun(ws, ss) && NoWrap(ws[|ss|].gate.admitted) && 0 < i < |ws[|ss|].loop.streams|
    ensures OpenedRightly(ws[|ss|], i) && ws[|ss|].loop.streams[i - 1].end.Reset?
  {
    TogetherRun(ws, ss);
    OpenedNext(ws[|ss|], i);
    assert StreamsGood(ws[|ss|].loop);
  }
}
