/**
 The Subgroup writer as the relay holds it: fields updated in place, some under the Subgroup's lock, some
 under the queue's, some by the loop alone, and the loop's own variables.
 */
module SubgroupWriterObject {
  import opened Uint64
  import W = SubgroupWriter

  /** The variables of the loop. */
  datatype Locals = Locals(prevID: u64, hasWritten: bool, writeFailed: bool, dropped: bool, lagExceeded: bool)

  /** What the relay keeps no record of: what the gate was offered and did with it. */
  datatype GateHistory = GateHistory(
    tornDown: bool, admitted: seq<W.Fwd>, declined: seq<W.Declined>, offered: seq<W.Heard>)

  /** What the loop took from the queue and wrote, and the streams that have ended. */
  datatype LoopHistory = LoopHistory(
    written: seq<W.Fwd>, past: seq<W.OutStream>, taken: seq<W.Fwd>, placed: seq<W.Placed>)

  ghost function GateOf(lastAdmitted: u64, hasAdmitted: bool, lastPos: Option<W.Pos>, h: GateHistory): W.Gate {
    W.Gate(if hasAdmitted then Some(lastAdmitted) else None, lastPos, h.tornDown, h.admitted, h.declined, h.offered)
  }

  ghost function SharedOf(
    drops: nat, incomplete: bool, incompleteCode: W.ResetCode, closed: bool, closeCalled: bool, inboundReset: bool,
    inboundResetCode: W.ResetCode, inbox: seq<W.Fwd>): W.Shared
  {
    var closing := if inboundReset then W.Reset(inboundResetCode) else W.Fin;
    W.Shared(drops, if incomplete then Some(incompleteCode) else None, closed,
             if closeCalled then Some(closing) else None, inbox)
  }

  ghost function LoopOf(x: Locals, withProps: bool, out: Option<W.OutStream>, done: bool, h: LoopHistory): W.Loop {
    W.Loop(x.prevID, x.hasWritten, x.writeFailed, x.dropped, withProps, out.Some?, x.lagExceeded, done, h.written,
           h.past + (if out.Some? then [out.value] else []), h.taken, h.placed)
  }

  /** Writing fwd on the current stream. */
  lemma {:induction false} WriteIs(
    x: Locals, withProps: bool, out: Option<W.OutStream>, done: bool, h: LoopHistory, fwd: W.Fwd, delta: u64)
    requires out.Some? && delta == if !x.hasWritten then fwd.absID else Wrap(fwd.absID - x.prevID - 1)
    ensures LoopOf(x.(prevID := fwd.absID, hasWritten := true, dropped := false), withProps,
                   Some(W.Extended(out.value, fwd, delta)), done, h.(written := h.written + [fwd]))
         == W.WriteOn(LoopOf(x, withProps, out, done, h), fwd)
  {
    hide W.Extended, Wrap;
    var more := W.Extended(out.value, fwd, delta);
    assert (h.past + [out.value])[|h.past| := more] == h.past + [more];
  }

  lemma {:induction false} NothingToClose(lp: W.Loop, end: W.Ending)
    requires !lp.open
    ensures W.CloseOut(lp, end) == lp
  {
  }

  class SubgroupWriter {
    const seqNo: nat
    const capacity: nat
    const maxDrops: nat

    var lastAdmitted: u64
    var hasAdmitted: bool
    var lastPos: Option<W.Pos>

    var inbox: seq<W.Fwd>
    var drops: nat
    var incomplete: bool
    var incompleteCode: W.ResetCode
    var closed: bool
    var closeCalled: bool
    var inboundReset: bool
    var inboundResetCode: W.ResetCode

    var out: Option<W.OutStream>
    var withProps: bool
    var run: Locals
    var done: bool

    ghost var gated: GateHistory
    ghost var looped: LoopHistory

    ghost function GateState(): W.Gate
      reads this
    {
      GateOf(lastAdmitted, hasAdmitted, lastPos, gated)
    }

    ghost function SharedState(): W.Shared
      reads this
    {
      SharedOf(drops, incomplete, incompleteCode, closed, closeCalled, inboundReset, inboundResetCode, inbox)
    }

    ghost function LoopState(): W.Loop
      reads this
    {
      LoopOf(run, withProps, out, done, looped)
    }

    /** The state of the machine the fields stand for. */
    ghost function State(): W.Writer
      reads this
    {
      W.Writer(W.Config(seqNo, capacity, maxDrops), GateState(), SharedState(), LoopState())
    }

    /** A writer whose writes have failed has let go of its stream. */
    ghost predicate Valid()
      reads this
    {
      run.writeFailed ==> out.None?
    }

    constructor (seqNo: nat, capacity: nat, maxDrops: nat, withProps: bool)
      ensures Valid() && State() == W.NewWriter(W.Config(seqNo, capacity, maxDrops), withProps)
    {
      this.seqNo, this.capacity, this.maxDrops := seqNo, capacity, maxDrops;
      lastAdmitted, hasAdmitted, lastPos := 0, false, None;
      inbox, drops, incomplete, incompleteCode := [], 0, false, 0;
      closed, closeCalled, inboundReset, inboundResetCode := false, false, false, 0;
      out, this.withProps, run, done := None, withProps, Locals(0, false, false, false, false), false;
      gated, looped := GateHistory(false, [], [], []), LoopHistory([], [], [], []);
    }

    method MarkIncomplete(code: W.ResetCode)
      modifies `incomplete, `incompleteCode
      ensures SharedState() == W.MarkIncomplete(old(SharedState()), code)
    {
      if !incomplete || code == W.EXCESSIVE_LOAD {
        incomplete, incompleteCode := true, code;
      }
    }

    method Close(reset: bool, code: W.ResetCode)
      modifies `closed, `closeCalled, `inboundReset, `inboundResetCode
      ensures SharedState() == W.Close(old(SharedState()), if reset then W.Reset(code) else W.Fin)
    {
      if !closeCalled {
        closed, closeCalled, inboundReset, inboundResetCode := true, true, reset, code;
      }
    }

    method Skip(v: W.Verdict, id: u64, ghost at: Option<nat>)
      modifies `gated, `incomplete, `incompleteCode, `closed, `closeCalled, `inboundReset, `inboundResetCode
      ensures State() == W.Skip(old(State()), v, id, at)
    {
      hide LoopOf;
      var above := hasAdmitted && id > lastAdmitted;
      gated := gated.(declined := gated.declined + [W.Declined(id, v, above, at, |gated.admitted|)]);
      if v.SkipObject? || v.SkipPaused? || (v.SkipBeforeStart? && above) {
        MarkIncomplete(W.CANCELLED);
      } else if v.SkipGroup? || v.SkipEnded? {
        Close(true, W.CANCELLED);
      }
    }

    method Publish(fwd: W.Fwd)
      modifies `lastPos, `inbox, `drops, `incomplete, `incompleteCode
      modifies `closed, `closeCalled, `inboundReset, `inboundResetCode
      ensures SharedState() == W.Publish(old(SharedState()), State().cfg, fwd)
      ensures lastPos == if W.Overflows(old(SharedState()), State().cfg) then None else old(lastPos)
    {
      if closed {
        return;
      }
      if |inbox| < capacity {
        inbox := inbox + [fwd];
        return;
      }
      lastPos := None;
      drops := drops + 1;
      MarkIncomplete(W.EXCESSIVE_LOAD);
      if maxDrops > 0 && drops > maxDrops {
        Close(true, W.EXCESSIVE_LOAD);
      }
    }

    /** Decides whether the Object read at pos is taken, and whether it follows the last one taken. */
    method Admit(pos: W.Pos, id: u64, v: W.Verdict, ghost at: nat) returns (take: bool, follows: bool)
      modifies `lastAdmitted, `hasAdmitted, `lastPos
      modifies `gated, `incomplete, `incompleteCode, `closed, `closeCalled, `inboundReset, `inboundResetCode
      ensures take <==> v.Forward?
      ensures take ==> follows == W.Follows(old(GateState()), pos) && gated == old(gated)
      ensures take ==> GateState() == old(GateState()).(lastAdmitted := Some(id), lastPos := Some(pos))
      ensures take ==> SharedState() == old(SharedState())
      ensures !take ==> State() == W.Decline(old(State()), pos, id, v, at)
    {
      hide W.Skip, LoopOf, SharedOf;
      follows := lastPos.Some? && lastPos.value.src == pos.src && lastPos.value.seqNo + 1 == pos.seqNo;
      if v.Forward? {
        lastAdmitted, hasAdmitted, lastPos := id, true, Some(pos);
        return true, follows;
      }
      Skip(v, id, Some(at));
      gated := gated.(offered := gated.offered + [W.Heard(pos, false, false)]);
      if follows {
        lastPos := Some(pos);
      }
      return false, false;
    }

    method Offer(pos: W.Pos, fwd: W.Fwd, v: W.Verdict)
      modifies `lastAdmitted, `hasAdmitted, `lastPos, `inbox, `drops
      modifies `gated, `incomplete, `incompleteCode, `closed, `closeCalled, `inboundReset, `inboundResetCode
      ensures State() == W.Offer(old(State()), pos, fwd, v)
    {
      assert GateState().admitted == gated.admitted && GateState().lastPos == lastPos
          && GateState().offered == gated.offered;
      hide W.Publish, W.Decline, W.Follows, W.Overflows, LoopOf, SharedOf;
      var take, follows := Admit(pos, fwd.absID, v, fwd.at);
      if take {
        PublishTaken(pos, fwd.(follows := follows));
      }
    }

    method PublishTaken(ghost pos: W.Pos, fwd: W.Fwd)
      modifies `lastPos, `inbox, `drops
      modifies `gated, `incomplete, `incompleteCode, `closed, `closeCalled, `inboundReset, `inboundResetCode
      ensures SharedState() == W.Publish(old(SharedState()), State().cfg, fwd) && LoopState() == old(LoopState())
      ensures var lost := W.Overflows(old(SharedState()), State().cfg);
        GateState() == old(GateState()).(
          admitted := old(gated.admitted) + [fwd], offered := old(gated.offered) + [W.Heard(pos, true, lost)],
          lastPos := if lost then None else old(lastPos))
    {
      hide W.Publish, W.Overflows, LoopOf, SharedOf;
      gated := gated.(admitted := gated.admitted + [fwd],
                      offered := gated.offered + [W.Heard(pos, true, W.Overflows(SharedState(), State().cfg))]);
      Publish(fwd);
    }

    /** A late copy that is lost: one the subscriber would have had leaves its stream incomplete. */
    method AgedOut(id: u64, v: W.Verdict)
      modifies `gated, `incomplete, `incompleteCode, `closed, `closeCalled, `inboundReset, `inboundResetCode
      ensures State() == W.AgedOut(old(State()), id, v)
    {
      hide W.Skip, W.MarkIncomplete, LoopOf, SharedOf, GateOf;
      if v.Forward? {
        MarkIncomplete(W.INTERNAL_ERROR);
      } else {
        Skip(v, id, None);
      }
    }

    /** Ends the current stream, if there is one. */
    method CloseOut(end: W.Ending)
      modifies `out, `looped
      ensures LoopState() == W.CloseOut(old(LoopState()), end) && out.None? && GateState() == old(GateState())
    {
      hide GateOf;
      if out.Some? {
        looped := looped.(past := looped.past + [out.value.(end := end)]);
        out := None;
      }
    }

    method Reopen(first: bool, code: W.ResetCode)
      modifies `out, `looped, `run
      ensures LoopState() == W.Reopen(old(LoopState()), first, code) && out.Some? && GateState() == old(GateState())
      ensures run == old(run).(hasWritten := false)
    {
      hide GateOf;
      CloseOut(W.Reset(code));
      out := Some(W.OutStream(first, withProps, [], [], W.Open));
      run := run.(hasWritten := false);
    }

    method WriteObject(fwd: W.Fwd)
      requires out.Some?
      modifies `out, `run, `looped
      ensures LoopState() == W.WriteOn(old(LoopState()), fwd) && GateState() == old(GateState())
      ensures run.writeFailed == old(run.writeFailed)
    {
      var delta := if !run.hasWritten then fwd.absID else Wrap(fwd.absID - run.prevID - 1);
      WriteIs(run, withProps, out, done, looped, fwd, delta);
      hide W.WriteOn, W.Extended, LoopOf, GateOf, Wrap;
      out := Some(W.Extended(out.value, fwd, delta));
      run := run.(prevID := fwd.absID, hasWritten := true, dropped := false);
      looped := looped.(written := looped.written + [fwd]);
    }

    method FailWrites()
      modifies `run, `closed
      ensures State() == W.FailWrites(old(State()), old(LoopState()))
    {
      hide GateOf;
      run, closed := run.(writeFailed := true), true;
    }

    /** Opens the stream fwd needs, if any. */
    method Prepare(fwd: W.Fwd, code: W.ResetCode)
      modifies `out, `looped, `run, `withProps
      ensures LoopState() == W.Prepare(old(LoopState()), fwd, code) && out.Some? && GateState() == old(GateState())
      ensures run.writeFailed == old(run.writeFailed)
    {
      hide W.Reopen, W.IsNextObject, GateOf, SharedOf;
      var needProps := !withProps && fwd.hasProps;
      var stale := run.hasWritten && (needProps || !W.IsNextObject(fwd, run.prevID, run.dropped));
      if needProps {
        withProps := true;
      }
      if out.None? || stale {
        Reopen(fwd.first, code);
      }
    }

    /** The write of fwd, its stream open: it may have expired, or the write may fail. */
    method Settle(fwd: W.Fwd, fate: W.Fate)
      requires out.Some? && !run.writeFailed
      modifies `out, `looped, `run, `closed, `incomplete, `incompleteCode
      ensures Valid() && State() == W.Settle(old(State()), fwd, fate)
    {
      hide W.CloseOut, W.WriteOn, W.MarkIncomplete, GateOf, SharedOf;
      if fate.Expires? {
        MarkIncomplete(W.CANCELLED);
        run := run.(dropped := true);
        if !run.hasWritten {
          CloseOut(W.Reset(W.CANCELLED));
        }
      } else if fate.TimesOut? {
        CloseOut(W.Reset(W.DELIVERY_TIMEOUT));
        FailWrites();
      } else if fate.WriteFails? {
        CloseOut(W.Reset(W.INTERNAL_ERROR));
        FailWrites();
      } else {
        WriteObject(fwd);
      }
    }

    /** The code a stream not ended by a FIN is reset with. */
    function ResetCode(): W.ResetCode
      reads this
    {
      if incomplete then incompleteCode else W.CANCELLED
    }

    predicate NeedsOpen(fwd: W.Fwd)
      reads this
    {
      || out.None?
      || (run.hasWritten && ((!withProps && fwd.hasProps) || !W.IsNextObject(fwd, run.prevID, run.dropped)))
    }

    lemma {:induction false} ReadsState(fwd: W.Fwd)
      ensures ResetCode() == W.CodeForReset(SharedState()) && NeedsOpen(fwd) == W.NeedsOpen(LoopState(), fwd)
    {
    }

    /** What the loop does with an Object it has dequeued. */
    method Handle(fwd: W.Fwd, fate: W.Fate)
      requires Valid()
      modifies `out, `looped, `run, `withProps, `closed, `incomplete, `incompleteCode
      ensures Valid() && State() == W.Handle(old(State()), fwd, fate)
    {
      ReadsState(fwd);
      hide W.CloseOut, W.Prepare, W.Settle, W.NeedsOpen, W.CodeForReset, NeedsOpen, ResetCode, GateOf, SharedOf;
      if fate.Lags? {
        run := run.(lagExceeded := true);
        return;
      }
      if run.writeFailed {
        return;
      }
      hide LoopOf;
      var code := ResetCode();
      if NeedsOpen(fwd) && fate.OpenFails? {
        CloseOut(W.Reset(code));
        FailWrites();
        return;
      }
      Prepare(fwd, code);
      Settle(fwd, fate);
    }

    /** One pass of the loop, over the Object at the head of the queue. */
    method HandleNext(fate: W.Fate)
      requires Valid() && inbox != []
      modifies `inbox, `out, `looped, `run, `withProps, `closed, `incomplete, `incompleteCode
      ensures Valid() && State() == W.TakeNext(old(State()), fate)
    {
      hide W.Handle, GateOf, LoopOf, W.Placements;
      ghost var before := LoopState();
      var fwd := inbox[0];
      inbox := inbox[1..];
      Handle(fwd, fate);
      Record(before, fwd);
    }

    /** Notes that fwd was taken, and where everything is since. */
    ghost method Record(before: W.Loop, fwd: W.Fwd)
      modifies `looped
      ensures LoopState() == old(LoopState()).(
          taken := before.taken + [fwd], placed := W.Placements(before, old(LoopState()), |before.taken| + 1))
    {
      hide W.Placements;
      looped := looped.(taken := before.taken + [fwd], placed := W.Placements(before, LoopState(), |before.taken| + 1));
    }

    /** How a stream still open ends, its reader not being slow. */
    function FinalEnding(): W.Ending
      reads this
    {
      if closeCalled && inboundReset then W.Reset(inboundResetCode)
      else if incomplete then W.Reset(incompleteCode)
      else W.Fin
    }

    method FinishStream()
      requires Valid()
      modifies `out, `looped, `closed, `done
      ensures Valid() && State() == W.Finish(old(State()))
    {
      assert W.FinishEnding(State()) ==
        if run.lagExceeded then W.Reset(W.TOO_FAR_BEHIND)
        else if maxDrops > 0 && drops > maxDrops then W.Reset(W.EXCESSIVE_LOAD) else FinalEnding();
      hide GateOf, FinalEnding, W.CloseOut, W.FinishEnding;
      if run.lagExceeded || (maxDrops > 0 && drops > maxDrops) {
        closed := true;
        CloseOut(W.Reset(if run.lagExceeded then W.TOO_FAR_BEHIND else W.EXCESSIVE_LOAD));
      } else if !run.writeFailed && out.Some? {
        CloseOut(FinalEnding());
      } else {
        NothingToClose(LoopState(), W.FinishEnding(State()));
      }
      done := true;
    }

    /** The loop once admission has stopped: handles what is queued, then ends the stream. */
    method RunClosed(fates: seq<W.Fate>)
      requires Valid() && |fates| == |inbox|
      modifies `inbox, `out, `looped, `run, `withProps, `closed, `incomplete, `incompleteCode, `done
      ensures Valid() && State() == W.Finish(W.Drain(old(State()), fates))
    {
      hide W.Handle, W.Finish;
      var i := 0;
      while inbox != [] && !run.lagExceeded
        invariant Valid() && 0 <= i <= |fates| && |fates| - i == |inbox|
        invariant W.Drain(State(), fates[i..]) == W.Drain(old(State()), fates)
        decreases |inbox|
      {
        assert fates[i..][1..] == fates[i + 1..];
        W.TakeShrinks(State(), fates[i]);
        HandleNext(fates[i]);
        i := i + 1;
      }
      FinishStream();
    }

    method Move(s: W.Step)
      requires Valid() && W.Enabled(State(), s)
      modifies this
      ensures Valid() && State() == W.Next(old(State()), s)
    {
      hide W.Offer, W.AgedOut, W.TakeNext, W.Finish, W.Close;
      match s {
        case OfferStep(pos, fwd, v) => Offer(pos, fwd, v);
        case AgedOutStep(id, v) => AgedOut(id, v);
        case TakeStep(fate) => HandleNext(fate);
        case TearDownStep(end) =>
          gated := gated.(tornDown := true);
          Close(end.Reset?, if end.Reset? then end.code else 0);
        case FinishStep => FinishStream();
      }
    }

    /** Publishers and the loop, in whatever order moves interleaves them, take the writer through the run. */
    method Run(moves: seq<W.Step>, ghost ws: seq<W.Writer>)
      requires Valid() && W.IsRun(ws, moves) && State() == ws[0]
      modifies this
      ensures Valid() && State() == ws[|moves|]
    {
      hide W.Enabled, W.Next;
      for i := 0 to |moves|
        invariant Valid() && State() == ws[i]
      {
        Move(moves[i]);
      }
    }
  }
}
