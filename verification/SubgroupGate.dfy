/**
 What a writer's gate remembers of the Objects offered to it: whether one declined was above the last one
 admitted, and whether one admitted follows the one before on its inbound stream.
 */
module SubgroupGate {
  import opened Uint64
  import opened SubgroupWriter

  // ---------------------------------------------------------------------------
  // Declined Objects
  // ---------------------------------------------------------------------------

  /** Each Object declined is marked above exactly if its ID was above that of the last one admitted before it. */
  ghost predicate DeclinesRight(g: Gate) {
    && g.lastAdmitted == (if g.admitted == [] then None else Some(g.admitted[|g.admitted| - 1].absID))
    && (forall n :: 0 <= n < |g.declined| ==>
          var d := g.declined[n];
          d.after <= |g.admitted| && (d.above <==> d.after > 0 && d.absID > g.admitted[d.after - 1].absID))
  }

  lemma {:induction false} DeclinesStep(w: Writer, s: Step)
    requires DeclinesRight(w.gate) && Enabled(w, s)
    ensures DeclinesRight(Next(w, s).gate)
  {
    hide Prepare, CloseOut, WriteOn, DropExpired, NeedsOpen, FinishEnding, MarkIncomplete, Close, Follows, Overflows;
  }

  lemma {:induction false} DeclinesExact(ws: seq<Writer>, ss: seq<Step>)
    requires IsRun(ws, ss)
    ensures DeclinesRight(ws[|ss|].gate)
    decreases |ss|
  {
    if ss != [] {
      hide Enabled, Next, DeclinesRight;
      var n := |ss| - 1;
      DeclinesExact(ws[..n + 1], ss[..n]);
      DeclinesStep(ws[n], ss[n]);
    }
  }

  // ---------------------------------------------------------------------------
  // Objects that follow
  // ---------------------------------------------------------------------------

  /** The Objects of each inbound stream were offered in the order they were read. */
  ghost predicate InOrder(hs: seq<Heard>) {
    forall i, j :: 0 <= i < j < |hs| && hs[i].pos.src == hs[j].pos.src ==> hs[i].pos.seqNo < hs[j].pos.seqNo
  }

  /** Number i is the last of hs that was taken. */
  ghost predicate LastTake(hs: seq<Heard>, i: int) {
    0 <= i < |hs| && hs[i].take && forall k :: i < k < |hs| ==> !hs[k].take
  }

  /** pos was offered after number i. */
  ghost predicate HeardSince(hs: seq<Heard>, i: int, pos: Pos) {
    exists k :: 0 <= i < k < |hs| && hs[k].pos == pos
  }

  /**
   The Object read at pos follows the last one taken: that one was read earlier on the same stream and went
   into the queue, and every Object read there between them has been offered since, and declined.
   */
  ghost predicate IsFollower(hs: seq<Heard>, pos: Pos) {
    exists i ::
      && LastTake(hs, i) && !hs[i].lost && hs[i].pos.src == pos.src && hs[i].pos.seqNo < pos.seqNo
      && forall q :: hs[i].pos.seqNo < q < pos.seqNo ==> HeardSince(hs, i, Pos(pos.src, q))
  }

  /** at is how far the stream of number i has been offered since without a gap. */
  ghost predicate ReachedFrom(hs: seq<Heard>, i: int, at: Pos) {
    && LastTake(hs, i) && !hs[i].lost && hs[i].pos.src == at.src && hs[i].pos.seqNo <= at.seqNo
    && (forall q :: hs[i].pos.seqNo < q <= at.seqNo ==> HeardSince(hs, i, Pos(at.src, q)))
    && !HeardSince(hs, i, Pos(at.src, at.seqNo + 1))
  }

  ghost predicate PosRight(g: Gate) {
    match g.lastPos
    case Some(at) => exists i :: ReachedFrom(g.offered, i, at)
    case None => forall i :: LastTake(g.offered, i) ==> g.offered[i].lost
  }

  lemma {:induction false} OneLastTake(hs: seq<Heard>, i: int, j: int)
    requires LastTake(hs, i) && LastTake(hs, j)
    ensures i == j
  {
  }

  lemma {:induction false} HeardMore(hs: seq<Heard>, h: Heard, i: int, pos: Pos)
    ensures HeardSince(hs + [h], i, pos) <==> HeardSince(hs, i, pos) || (0 <= i < |hs| && h.pos == pos)
  {
    var all := hs + [h];
    if k :| 0 <= i < k < |hs| && hs[k].pos == pos {
      assert all[k].pos == pos;
    }
    if 0 <= i < |hs| && h.pos == pos {
      assert all[|hs|].pos == pos;
    }
    if k :| 0 <= i < k < |all| && all[k].pos == pos {
      assert k < |hs| ==> hs[k].pos == pos;
    }
  }

  lemma {:induction false} DeclineKeepsTake(hs: seq<Heard>, h: Heard, i: int)
    requires !h.take
    ensures LastTake(hs + [h], i) <==> LastTake(hs, i)
  {
    var all := hs + [h];
    assert all[|hs|] == h && forall k :: 0 <= k < |hs| ==> all[k] == hs[k];
  }

  /** The test is what it stands for. */
  lemma {:induction false} FollowsIs(g: Gate, pos: Pos, h: Heard)
    requires PosRight(g) && h.pos == pos && InOrder(g.offered + [h])
    ensures Follows(g, pos) <==> IsFollower(g.offered, pos)
  {
    var hs := g.offered;
    if Follows(g, pos) {
      var i :| ReachedFrom(hs, i, g.lastPos.value);
      assert LastTake(hs, i);
    }
    if i :| LastTake(hs, i) && !hs[i].lost && hs[i].pos.src == pos.src && hs[i].pos.seqNo < pos.seqNo
            && forall q :: hs[i].pos.seqNo < q < pos.seqNo ==> HeardSince(hs, i, Pos(pos.src, q)) {
      assert g.lastPos.Some?;
      var at := g.lastPos.value;
      var j :| ReachedFrom(hs, j, at);
      OneLastTake(hs, i, j);
      BeforeNext(hs, h, i, at);
    }
  }

  /** Whatever was reached was read before what is offered next. */
  lemma {:induction false} BeforeNext(hs: seq<Heard>, h: Heard, i: int, at: Pos)
    requires ReachedFrom(hs, i, at) && InOrder(hs + [h]) && h.pos.src == at.src
    ensures at.seqNo < h.pos.seqNo
  {
    var all := hs + [h];
    assert all[|hs|] == h && all[i] == hs[i];
    if hs[i].pos.seqNo < at.seqNo {
      assert HeardSince(hs, i, at);
      var k :| 0 <= i < k < |hs| && hs[k].pos == at;
      assert all[k] == hs[k];
    }
  }

  lemma {:induction false} TakePos(g: Gate, r: Gate, h: Heard)
    requires h.take && r.offered == g.offered + [h] && r.lastPos == if h.lost then None else Some(h.pos)
    ensures PosRight(r)
  {
    var n := |g.offered|;
    assert r.offered[n] == h && LastTake(r.offered, n);
    if h.lost {
      forall i | LastTake(r.offered, i)
        ensures r.offered[i].lost
      {
        OneLastTake(r.offered, i, n);
      }
    } else {
      assert ReachedFrom(r.offered, n, h.pos);
    }
  }

  lemma {:induction false} DeclinePos(g: Gate, r: Gate, h: Heard)
    requires PosRight(g) && !h.take && r.offered == g.offered + [h] && InOrder(r.offered)
    requires r.lastPos == if Follows(g, h.pos) then Some(h.pos) else g.lastPos
    ensures PosRight(r)
  {
    hide LastTake, HeardSince, InOrder;
    forall i
      ensures LastTake(r.offered, i) <==> LastTake(g.offered, i)
      ensures LastTake(g.offered, i) ==> 0 <= i < |g.offered| && r.offered[i] == g.offered[i]
    {
      DeclineKeepsTake(g.offered, h, i);
      TakeInBounds(g.offered, i);
    }
    if g.lastPos.Some? {
      var at := g.lastPos.value;
      var i :| ReachedFrom(g.offered, i, at);
      TakeInBounds(g.offered, i);
      forall q: nat
        ensures HeardSince(r.offered, i, Pos(at.src, q))
           <==> HeardSince(g.offered, i, Pos(at.src, q)) || h.pos == Pos(at.src, q)
      {
        HeardMore(g.offered, h, i, Pos(at.src, q));
      }
      if Follows(g, h.pos) {
        NotYet(g.offered, h, i, at);
        assert ReachedFrom(r.offered, i, h.pos);
      } else {
        assert ReachedFrom(r.offered, i, at);
      }
    }
  }

  lemma {:induction false} TakeInBounds(hs: seq<Heard>, i: int)
    ensures LastTake(hs, i) ==> 0 <= i < |hs|
  {
  }

  /** What comes after what is offered next has not been offered. */
  lemma {:induction false} NotYet(hs: seq<Heard>, h: Heard, i: int, at: Pos)
    requires InOrder(hs + [h]) && h.pos == Pos(at.src, at.seqNo + 1)
    ensures !HeardSince(hs, i, Pos(at.src, at.seqNo + 2))
  {
    var all := hs + [h];
    assert all[|hs|] == h && forall k :: 0 <= k < |hs| ==> all[k] == hs[k];
  }

  lemma {:induction false} PosStep(w: Writer, s: Step)
    requires PosRight(w.gate) && Enabled(w, s) && InOrder(Next(w, s).gate.offered)
    ensures PosRight(Next(w, s).gate)
  {
    hide PosRight, InOrder;
    OfferedAfter(w, s);
    hide Next, Enabled;
    if s.OfferStep? {
      if s.verdict.Forward? {
        TakePos(w.gate, Next(w, s).gate, Heard(s.pos, true, Overflows(w.shared, w.cfg)));
      } else {
        DeclinePos(w.gate, Next(w, s).gate, Heard(s.pos, false, false));
      }
    } else {
      SamePos(w.gate, Next(w, s).gate);
    }
  }

  lemma {:induction false} SamePos(g: Gate, r: Gate)
    requires PosRight(g) && r.offered == g.offered && r.lastPos == g.lastPos
    ensures PosRight(r)
  {
  }

  lemma {:induction false} OfferedAfter(w: Writer, s: Step)
    requires Enabled(w, s)
    ensures var g, r := w.gate, Next(w, s).gate;
      if !s.OfferStep? then r.offered == g.offered && r.lastPos == g.lastPos
      else if s.verdict.Forward? then
        var lost := Overflows(w.shared, w.cfg);
        r.offered == g.offered + [Heard(s.pos, true, lost)] && r.lastPos == if lost then None else Some(s.pos)
      else
        && r.offered == g.offered + [Heard(s.pos, false, false)]
        && r.lastPos == if Follows(g, s.pos) then Some(s.pos) else g.lastPos
  {
    hide Prepare, CloseOut, WriteOn, DropExpired, NeedsOpen, FinishEnding, MarkIncomplete, Close, Follows, Overflows;
  }

  lemma {:induction false} OrderBefore(hs: seq<Heard>, more: seq<Heard>)
    requires InOrder(more) && hs <= more
    ensures InOrder(hs)
  {
    assert forall i :: 0 <= i < |hs| ==> hs[i] == more[i];
  }

  lemma {:induction false} PosRun(ws: seq<Writer>, ss: seq<Step>)
    requires IsRun(ws, ss) && InOrder(ws[|ss|].gate.offered)
    ensures PosRight(ws[|ss|].gate)
    decreases |ss|
  {
    if ss != [] {
      var n := |ss| - 1;
      OfferedAfter(ws[n], ss[n]);
      hide Enabled, Next, PosRight, InOrder, Follows, Overflows;
      OrderBefore(ws[n].gate.offered, ws[n + 1].gate.offered);
      PosRun(ws[..n + 1], ss[..n]);
      PosStep(ws[n], ss[n]);
    }
  }

  /**
   In every run that is offered each inbound stream's Objects in order, an Object taken is said to follow
   exactly if it does: everything read between it and the last one taken was declined, and none was dropped.
   */
  lemma {:induction false} FollowsExact(ws: seq<Writer>, ss: seq<Step>, pos: Pos, fwd: Fwd)
    requires IsRun(ws, ss) && Enabled(ws[|ss|], OfferStep(pos, fwd, Forward))
    requires InOrder(ws[|ss|].gate.offered + [Heard(pos, true, false)])
    ensures var a := Next(ws[|ss|], OfferStep(pos, fwd, Forward)).gate.admitted;
      a != [] && (a[|a| - 1].follows <==> IsFollower(ws[|ss|].gate.offered, pos))
  {
    var w := ws[|ss|];
    OrderBefore(w.gate.offered, w.gate.offered + [Heard(pos, true, false)]);
    PosRun(ws, ss);
    GateAfter(w, OfferStep(pos, fwd, Forward));
    hide Next;
    FollowsIs(w.gate, pos, Heard(pos, true, false));
  }
}
