/** The subscribers' writers within the fanout: what each was offered, what it FINs, and what that means. */
module FanoutWriters {
  import opened Uint64
  import opened SubgroupSet
  import opened Fanout
  import W = SubgroupWriter
  import T = SubgroupStreams

  // ---------------------------------------------------------------------------
  // A step of the fanout is at most one step of each writer
  // ---------------------------------------------------------------------------

  /** The step writer k takes, if any. */
  function StepOf(f: Fanout, objects: set<u64>, e: Event, k: nat): Option<W.Step>
    requires Enabled(f, objects, e) && k in f.writers
  {
    match e
    case Deliver(c, vs, hasProps, gap) =>
      var x := f.contributors[c];
      var id := x.phase.id;
      (match AdmissionOf(f.set_, x.phase.claim, id)
       case Repeat => None
       case Lost => Some(W.AgedOutStep(id, vs[k]))
       case Admitted =>
         if f.writers[k].cfg.seqNo > x.phase.heard then None
         else
           var fwd := W.Fwd(id, x.phase.first && LowersLowest(f.set_, id), false, hasProps, gap, |f.log|);
           Some(W.OfferStep(W.Pos(c, x.seqNo), fwd, vs[k])))
    case LeaveSet(c, reset, code, outOfRange) =>
      if !IsLast(f, c) then None
      else
        var end := Outcome(Leave(f.set_, reset, code, f.contributors[c].covers, f.contributors[c].coverFrom));
        Some(W.TearDownStep(if end.Fin? && k in outOfRange then W.Reset(W.CANCELLED) else end))
    case LoopStep(j, step) => if j == k then Some(step) else None
    case _ => None
  }

  ghost predicate TornDownInv(f: Fanout) {
    forall k :: k in f.writers ==> (f.writers[k].gate.tornDown <==> f.ended.Some?)
  }

  lemma {:induction false} DeliverMoves(f: Fanout, objects: set<u64>, e: Event, k: nat)
    requires e.Deliver? && Enabled(f, objects, e) && k in f.writers && !f.writers[k].gate.tornDown
    ensures k in Next(f, objects, e).writers
    ensures var s := StepOf(f, objects, e, k); var w := Next(f, objects, e).writers[k];
      if s.None? then w == f.writers[k] else W.Enabled(f.writers[k], s.value) && w == W.Next(f.writers[k], s.value)
  {
    hide W.Offer, W.AgedOut, Widened, Released;
  }

  lemma {:induction false} WriterMoves(f: Fanout, objects: set<u64>, e: Event, k: nat)
    requires Enabled(f, objects, e) && k in f.writers && TornDownInv(f) && EndInv(f)
    ensures k in Next(f, objects, e).writers
    ensures var s := StepOf(f, objects, e, k); var w := Next(f, objects, e).writers[k];
      if s.None? then w == f.writers[k] else W.Enabled(f.writers[k], s.value) && w == W.Next(f.writers[k], s.value)
  {
    if e.Deliver? {
      DeliverMoves(f, objects, e, k);
    } else {
      hide W.TearDown, W.TakeNext, W.Finish, Noted, Delivered, Released;
    }
  }

  lemma {:induction false} NewWriters(f: Fanout, objects: set<u64>, e: Event, k: nat)
    requires Enabled(f, objects, e) && k in Next(f, objects, e).writers && k !in f.writers
    ensures f.ended.None? && Next(f, objects, e).ended.None?
    ensures var r := Next(f, objects, e);
      && r.writers[k] == W.NewWriter(r.writers[k].cfg, r.writers[k].loop.withProps)
      && r.log == f.log && r.lost == f.lost
  {
    hide W.Next, W.Enabled, W.Offer, W.AgedOut, W.TearDown, Outcome, AdmissionOf, Released, Noted;
  }

  ghost predicate WritersSound(f: Fanout) {
    forall k :: k in f.writers ==> W.FinInv(f.writers[k]) && W.FinIsFinal(f.writers[k])
  }

  lemma {:induction false} WritersSoundStep(f: Fanout, objects: set<u64>, e: Event)
    requires WritersSound(f) && TornDownInv(f) && EndInv(f) && Enabled(f, objects, e)
    ensures WritersSound(Next(f, objects, e))
  {
    var r := Next(f, objects, e);
    forall k | k in r.writers
      ensures W.FinInv(r.writers[k]) && W.FinIsFinal(r.writers[k])
    {
      hide Next, Enabled, W.Next, W.Enabled, W.FinInv, W.FinIsFinal, StepOf, EndInv;
      if k in f.writers {
        WriterMoves(f, objects, e, k);
        var s := StepOf(f, objects, e, k);
        if s.Some? {
          W.FinInvStep(f.writers[k], s.value);
          W.FinIsFinalStep(f.writers[k], s.value);
        }
      } else {
        NewWriters(f, objects, e, k);
        W.NewWriterIsFin(r.writers[k].cfg, r.writers[k].loop.withProps);
      }
    }
  }

  lemma {:induction false} EndsWhen(f: Fanout, objects: set<u64>, e: Event)
    requires Enabled(f, objects, e)
    ensures Next(f, objects, e).ended.Some? <==> f.ended.Some? || (e.LeaveSet? && IsLast(f, e.c))
  {
    hide W.Next, W.Enabled, Outcome, AdmissionOf;
  }

  lemma {:induction false} TornDownWhen(f: Fanout, objects: set<u64>, e: Event, k: nat)
    requires Enabled(f, objects, e) && k in f.writers && TornDownInv(f) && EndInv(f)
    ensures k in Next(f, objects, e).writers
    ensures Next(f, objects, e).writers[k].gate.tornDown
      <==> f.writers[k].gate.tornDown || (e.LeaveSet? && IsLast(f, e.c))
  {
    WriterMoves(f, objects, e, k);
    hide Next, Outcome, AdmissionOf, EndInv;
    var s := StepOf(f, objects, e, k);
    if s.Some? {
      W.TornDownOnlyBy(f.writers[k], s.value);
    }
  }

  lemma {:induction false} TornDownInvStep(f: Fanout, objects: set<u64>, e: Event)
    requires TornDownInv(f) && EndInv(f) && Enabled(f, objects, e)
    ensures TornDownInv(Next(f, objects, e))
  {
    var r := Next(f, objects, e);
    hide Next, Enabled, EndInv;
    EndsWhen(f, objects, e);
    forall k | k in r.writers
      ensures r.writers[k].gate.tornDown <==> r.ended.Some?
    {
      if k in f.writers {
        TornDownWhen(f, objects, e, k);
      } else {
        NewWriters(f, objects, e, k);
      }
    }
  }

  /** A writer is closed for anything but a reset only by the end of the merged streams, and then for a FIN. */
  ghost predicate ClosingInv(f: Fanout) {
    forall k :: k in f.writers && f.writers[k].shared.closing.Some? ==>
      f.writers[k].shared.closing.value.Reset? || f.ended == Some(W.Fin)
  }

  lemma {:induction false} EndedAfter(f: Fanout, objects: set<u64>, e: Event)
    requires Enabled(f, objects, e) && EndInv(f)
    ensures Next(f, objects, e).ended ==
      if e.LeaveSet? && IsLast(f, e.c)
      then Some(Outcome(Leave(f.set_, e.reset, e.code, f.contributors[e.c].covers, f.contributors[e.c].coverFrom)))
      else f.ended
    ensures e.LeaveSet? && IsLast(f, e.c) ==> f.ended.None?
  {
    hide W.Next, W.Enabled, Outcome, AdmissionOf, Widened, Noted, Released, OfferAll, AgeOutAll, TearDownAll, Vouches;
  }

  lemma {:induction false} ClosingInvStep(f: Fanout, objects: set<u64>, e: Event)
    requires ClosingInv(f) && TornDownInv(f) && EndInv(f) && Enabled(f, objects, e)
    ensures ClosingInv(Next(f, objects, e))
  {
    var r := Next(f, objects, e);
    EndedAfter(f, objects, e);
    forall k | k in r.writers && r.writers[k].shared.closing.Some?
      ensures r.writers[k].shared.closing.value.Reset? || r.ended == Some(W.Fin)
    {
      hide Next, EndInv, TornDownInv, Leave, AdmissionOf, W.Next;
      if k in f.writers {
        WriterMoves(f, objects, e, k);
        var s := StepOf(f, objects, e, k);
        if s.Some? {
          W.ClosingAfter(f.writers[k], s.value);
        }
      } else {
        NewWriters(f, objects, e, k);
      }
    }
  }

  /** A writer FINs only if the merged streams did. */
  lemma {:induction false} WriterFinIsSetFin(f: Fanout, k: nat)
    requires ClosingInv(f) && WritersSound(f) && k in f.writers && !W.NoFin(f.writers[k].loop)
    ensures f.ended == Some(W.Fin)
  {
    hide W.NoFin, W.FinInv;
    assert W.FinIsFinal(f.writers[k]);
  }

  // ---------------------------------------------------------------------------
  // What a writer was offered
  // ---------------------------------------------------------------------------

  /** Object i of the log was offered to the writer with this gate. */
  ghost predicate WasOffered(g: W.Gate, i: nat) {
    || (exists n :: 0 <= n < |g.admitted| && g.admitted[n].at == i)
    || (exists n :: 0 <= n < |g.declined| && g.declined[n].at == Some(i))
  }

  /** entry is writer k's to be offered: k existed at the forward and was open early enough. */
  predicate Due(f: Fanout, k: nat, entry: LogEntry)
    requires k in f.writers
  {
    k in entry.present && OpenBy(f, k, entry.since)
  }

  /** a is entry a.at of the log; one said to start the Subgroup is below everything forwarded before. */
  ghost predicate Recorded(log: seq<LogEntry>, a: W.Fwd) {
    && a.at < |log| && log[a.at].id == a.absID
    && (a.first ==> forall j :: 0 <= j < a.at ==> a.absID < log[j].id)
  }

  ghost predicate OfferInv(f: Fanout, k: nat)
    requires k in f.writers
  {
    var g := f.writers[k].gate;
    && (forall n :: 0 <= n < |g.admitted| ==> Recorded(f.log, g.admitted[n]))
    && (forall n :: 0 <= n < |g.declined| && g.declined[n].at.Some? ==>
          g.declined[n].at.value < |f.log| && f.log[g.declined[n].at.value].id == g.declined[n].absID)
    && (forall m, n :: 0 <= m < n < |g.admitted| ==> g.admitted[m].at < g.admitted[n].at)
    && (forall i :: 0 <= i < |f.log| ==> (WasOffered(g, i) <==> Due(f, k, f.log[i])))
  }

  ghost predicate PresentInv(f: Fanout) {
    && (forall i :: 0 <= i < |f.log| ==> f.log[i].present <= f.writers.Keys)
    && (forall i :: 0 <= i < |f.lost| ==> f.lost[i].present <= f.writers.Keys)
  }

  predicate Forwards(f: Fanout, objects: set<u64>, e: Event)
    requires Enabled(f, objects, e)
  {
    e.Deliver? && AdmissionOf(f.set_, f.contributors[e.c].phase.claim, f.contributors[e.c].phase.id).Admitted?
  }

  predicate Loses(f: Fanout, objects: set<u64>, e: Event)
    requires Enabled(f, objects, e)
  {
    e.Deliver? && AdmissionOf(f.set_, f.contributors[e.c].phase.claim, f.contributors[e.c].phase.id).Lost?
  }

  lemma {:induction false} HistoryAfter(f: Fanout, objects: set<u64>, e: Event)
    requires Enabled(f, objects, e)
    ensures var r := Next(f, objects, e);
      && f.writers.Keys <= r.writers.Keys
      && r.log == (if Forwards(f, objects, e)
                   then f.log + [LogEntry(f.contributors[e.c].phase.id, SinceOf(f, f.contributors[e.c].phase.id),
                                          f.writers.Keys)]
                   else f.log)
      && r.lost == (if Loses(f, objects, e)
                    then f.lost + [LostEntry(f.contributors[e.c].phase.id, f.writers.Keys)]
                    else f.lost)
  {
    hide W.Next, W.Enabled, W.Offer, W.AgedOut, W.TearDown, Outcome, Widened, Released, Noted;
  }

  lemma {:induction false} PresentInvStep(f: Fanout, objects: set<u64>, e: Event)
    requires PresentInv(f) && Enabled(f, objects, e)
    ensures PresentInv(Next(f, objects, e))
  {
    hide Next, Enabled;
    HistoryAfter(f, objects, e);
  }

  lemma {:induction false} OpenByStays(f: Fanout, objects: set<u64>, e: Event, k: nat, since: nat)
    requires Enabled(f, objects, e) && k in f.writers
    ensures k in Next(f, objects, e).writers
    ensures OpenBy(Next(f, objects, e), k, since) == OpenBy(f, k, since)
  {
    WritersKeepConfig(f, objects, e, k);
    if !OpensOrHears(e) {
      OpeningFrame(f, objects, e);
      hide Next, Enabled;
    }
  }

  lemma {:induction false} OfferedAfter(g: W.Gate, r: W.Gate, i: nat)
    requires g.admitted <= r.admitted && g.declined <= r.declined
    requires forall n :: |g.admitted| <= n < |r.admitted| ==> r.admitted[n].at != i
    requires forall n :: |g.declined| <= n < |r.declined| ==> r.declined[n].at != Some(i)
    ensures WasOffered(r, i) <==> WasOffered(g, i)
  {
    if n :| 0 <= n < |g.admitted| && g.admitted[n].at == i {
      assert r.admitted[n].at == i;
    }
    if n :| 0 <= n < |g.declined| && g.declined[n].at == Some(i) {
      assert r.declined[n].at == Some(i);
    }
    if n :| 0 <= n < |r.admitted| && r.admitted[n].at == i {
      assert g.admitted[n].at == i;
    }
    if n :| 0 <= n < |r.declined| && r.declined[n].at == Some(i) {
      assert g.declined[n].at == Some(i);
    }
  }

  /** An offer of Object |log| is the only way for a writer to have been offered it. */
  lemma {:induction false} OfferOf(w: W.Writer, s: W.Step, i: nat)
    requires W.Enabled(w, s)
    ensures WasOffered(W.Next(w, s).gate, i) <==> WasOffered(w.gate, i) || (s.OfferStep? && s.fwd.at == i)
  {
    W.GateAfter(w, s);
    hide W.Next, W.Enabled;
    var g, r := w.gate, W.Next(w, s).gate;
    if s.OfferStep? && s.fwd.at == i {
      if s.verdict.Forward? {
        assert r.admitted[|g.admitted|].at == i;
      } else {
        assert r.declined[|g.declined|].at == Some(i);
      }
    } else {
      OfferedAfter(g, r, i);
    }
  }

  /** The steps that offer writer k an Object, and the Object offered. */
  lemma {:induction false} StepOffers(f: Fanout, objects: set<u64>, e: Event, k: nat)
    requires Enabled(f, objects, e) && k in f.writers && CutInv(f) && RunInv(f)
    ensures var s := StepOf(f, objects, e, k);
      && (s.Some? && s.value.OfferStep? <==>
            Forwards(f, objects, e) && OpenBy(f, k, SinceOf(f, f.contributors[e.c].phase.id)))
      && (s.Some? && s.value.OfferStep? ==>
            && s.value.fwd.at == |f.log| && s.value.fwd.absID == f.contributors[e.c].phase.id
            && (s.value.fwd.first ==> forall j :: 0 <= j < |f.log| ==> s.value.fwd.absID < f.log[j].id))
  {
    hide Outcome, W.Enabled;
    if Forwards(f, objects, e) {
      var x := f.contributors[e.c].phase;
      assert CutFor(f, x, k);
      FirstIsLowest(f.set_, IdsOf(f.log), x.id);
      assert forall j :: 0 <= j < |f.log| ==> f.log[j].id in IdsOf(f.log) by {
        assert forall j :: 0 <= j < |f.log| ==> IdsOf(f.log)[j] == f.log[j].id;
      }
    }
  }

  lemma {:induction false} RecordedStays(log: seq<LogEntry>, more: seq<LogEntry>, a: W.Fwd)
    requires Recorded(log, a) && log <= more
    ensures Recorded(more, a)
  {
    assert forall j :: 0 <= j < |log| ==> more[j] == log[j];
  }

  lemma {:induction false} OfferInvOld(f: Fanout, objects: set<u64>, e: Event, k: nat)
    requires Enabled(f, objects, e) && k in f.writers && OfferInv(f, k)
    requires TornDownInv(f) && EndInv(f) && CutInv(f) && RunInv(f)
    ensures k in Next(f, objects, e).writers && OfferInv(Next(f, objects, e), k)
  {
    hide Next, Enabled, EndInv, TornDownInv, RunInv, CutInv, StepOf, W.Next, W.Enabled, Forwards, Loses, OpenBy,
         SinceOf;
    var r := Next(f, objects, e);
    WriterMoves(f, objects, e, k);
    StepOffers(f, objects, e, k);
    HistoryAfter(f, objects, e);
    var s := StepOf(f, objects, e, k);
    if s.Some? {
      W.GateAfter(f.writers[k], s.value);
    }
    AdmittedRecorded(f.writers[k], s, f.log, r.log, r.writers[k]);
    forall i | 0 <= i < |r.log|
      ensures WasOffered(r.writers[k].gate, i) <==> Due(r, k, r.log[i])
    {
      OpenByStays(f, objects, e, k, r.log[i].since);
      if s.Some? {
        OfferOf(f.writers[k], s.value, i);
      }
    }
  }

  lemma {:induction false} AdmittedRecorded(
    w: W.Writer, s: Option<W.Step>, log: seq<LogEntry>, more: seq<LogEntry>, r: W.Writer)
    requires log <= more
    requires if s.None? then r == w else W.Enabled(w, s.value) && r == W.Next(w, s.value)
    requires s.Some? && s.value.OfferStep? ==>
      && |more| == |log| + 1 && s.value.fwd.at == |log| && s.value.fwd.absID == more[|log|].id
      && (s.value.fwd.first ==> forall j :: 0 <= j < |log| ==> s.value.fwd.absID < log[j].id)
    requires forall n :: 0 <= n < |w.gate.admitted| ==> Recorded(log, w.gate.admitted[n])
    requires forall n :: 0 <= n < |w.gate.declined| && w.gate.declined[n].at.Some? ==>
      w.gate.declined[n].at.value < |log| && log[w.gate.declined[n].at.value].id == w.gate.declined[n].absID
    requires forall m, n :: 0 <= m < n < |w.gate.admitted| ==> w.gate.admitted[m].at < w.gate.admitted[n].at
    ensures forall n :: 0 <= n < |r.gate.admitted| ==> Recorded(more, r.gate.admitted[n])
    ensures forall n :: 0 <= n < |r.gate.declined| && r.gate.declined[n].at.Some? ==>
      r.gate.declined[n].at.value < |more| && more[r.gate.declined[n].at.value].id == r.gate.declined[n].absID
    ensures forall m, n :: 0 <= m < n < |r.gate.admitted| ==> r.gate.admitted[m].at < r.gate.admitted[n].at
  {
    if s.Some? {
      W.GateAfter(w, s.value);
    }
    hide W.Next, W.Enabled;
    forall n | 0 <= n < |r.gate.admitted|
      ensures Recorded(more, r.gate.admitted[n])
    {
      if n < |w.gate.admitted| {
        RecordedStays(log, more, w.gate.admitted[n]);
      }
    }
    forall n | 0 <= n < |r.gate.declined| && r.gate.declined[n].at.Some?
      ensures r.gate.declined[n].at.value < |more| && more[r.gate.declined[n].at.value].id == r.gate.declined[n].absID
    {
      if n < |w.gate.declined| {
        assert r.gate.declined[n] == w.gate.declined[n];
      }
    }
    assert forall n :: 0 <= n < |w.gate.admitted| ==> r.gate.admitted[n] == w.gate.admitted[n];
    assert forall n :: 0 <= n < |w.gate.admitted| ==> Recorded(log, w.gate.admitted[n]);
  }

  ghost predicate OffersInv(f: Fanout) {
    forall k :: k in f.writers ==> OfferInv(f, k)
  }

  lemma {:induction false} OffersInvStep(f: Fanout, objects: set<u64>, e: Event)
    requires OffersInv(f) && PresentInv(f) && TornDownInv(f) && EndInv(f) && CutInv(f) && RunInv(f)
    requires Enabled(f, objects, e)
    ensures OffersInv(Next(f, objects, e))
  {
    var r := Next(f, objects, e);
    hide Next, Enabled, EndInv, TornDownInv, RunInv, CutInv;
    forall k | k in r.writers
      ensures OfferInv(r, k)
    {
      if k in f.writers {
        OfferInvOld(f, objects, e, k);
      } else {
        NewWriters(f, objects, e, k);
      }
    }
  }

  // ---------------------------------------------------------------------------
  // Objects lost to the dedup window
  // ---------------------------------------------------------------------------

  /** w can no longer FIN, or it declined Object id. */
  ghost predicate Marked(w: W.Writer, id: u64) {
    !W.Lossless(w.shared, w.loop) || (exists n :: 0 <= n < |w.gate.declined| && w.gate.declined[n].absID == id)
  }

  lemma {:induction false} MarkedStays(w: W.Writer, s: W.Step, id: u64)
    requires W.FinInv(w) && W.Enabled(w, s) && Marked(w, id)
    ensures Marked(W.Next(w, s), id)
  {
    W.LosslessStep(w, s);
    W.GateAfter(w, s);
    hide W.Next, W.Enabled, W.FinInv, W.Lossless;
    if n :| 0 <= n < |w.gate.declined| && w.gate.declined[n].absID == id {
      assert W.Next(w, s).gate.declined[n].absID == id;
    }
  }

  lemma {:induction false} AgedOutMarks(w: W.Writer, id: u64, v: W.Verdict)
    requires W.Enabled(w, W.AgedOutStep(id, v))
    ensures Marked(W.Next(w, W.AgedOutStep(id, v)), id)
  {
    var r := W.Next(w, W.AgedOutStep(id, v));
    if !v.Forward? {
      assert r.gate.declined[|w.gate.declined|].absID == id;
    }
  }

  ghost predicate LostInv(f: Fanout) {
    forall i, k :: 0 <= i < |f.lost| && k in f.lost[i].present && k in f.writers ==> Marked(f.writers[k], f.lost[i].id)
  }

  lemma {:induction false} LostInvStep(f: Fanout, objects: set<u64>, e: Event)
    requires LostInv(f) && WritersSound(f) && PresentInv(f) && TornDownInv(f) && EndInv(f) && Enabled(f, objects, e)
    ensures LostInv(Next(f, objects, e))
  {
    var r := Next(f, objects, e);
    HistoryAfter(f, objects, e);
    forall i, k | 0 <= i < |r.lost| && k in r.lost[i].present && k in r.writers
      ensures Marked(r.writers[k], r.lost[i].id)
    {
      hide Next, Enabled, EndInv, TornDownInv, W.Next, W.Enabled, W.FinInv, Marked;
      if i < |f.lost| {
        assert k in f.writers && Marked(f.writers[k], f.lost[i].id);
        WriterMoves(f, objects, e, k);
        var s := StepOf(f, objects, e, k);
        if s.Some? {
          MarkedStays(f.writers[k], s.value, f.lost[i].id);
        }
      } else {
        WriterMoves(f, objects, e, k);
        var s := StepOf(f, objects, e, k);
        AgedOutMarks(f.writers[k], s.value.id, s.value.verdict);
      }
    }
  }

  // ---------------------------------------------------------------------------
  // Whole runs
  // ---------------------------------------------------------------------------

  ghost predicate Inv(f: Fanout, objects: set<u64>) {
    && CoverInv(f, objects) && RunInv(f) && EndInv(f)
    && ReadingInv(f) && OpenInv(f) && HeardInv(f) && CutInv(f)
    && TornDownInv(f) && WritersSound(f) && ClosingInv(f) && PresentInv(f) && OffersInv(f) && LostInv(f)
  }

  lemma {:induction false} InvStep(f: Fanout, objects: set<u64>, e: Event)
    requires Inv(f, objects) && Enabled(f, objects, e)
    ensures Inv(Next(f, objects, e), objects)
  {
    hide Next, Enabled, CoverInv, RunInv, EndInv, ReadingInv, OpenInv, HeardInv, CutInv;
    hide TornDownInv, WritersSound, ClosingInv, PresentInv, OffersInv, LostInv;
    CoverInvStep(f, objects, e);
    RunInvStep(f, objects, e);
    EndInvStep(f, objects, e);
    ReadingInvStep(f, objects, e);
    OpenInvStep(f, objects, e);
    HeardInvStep(f, objects, e);
    CutInvStep(f, objects, e);
    TornDownInvStep(f, objects, e);
    WritersSoundStep(f, objects, e);
    ClosingInvStep(f, objects, e);
    PresentInvStep(f, objects, e);
    OffersInvStep(f, objects, e);
    LostInvStep(f, objects, e);
  }

  /** fs are the states of a fanout taking the steps es, over a Subgroup whose existing Objects are objects. */
  ghost predicate IsRun(fs: seq<Fanout>, objects: set<u64>, es: seq<Event>) {
    && |fs| == |es| + 1
    && fs[0] == NewFanout(fs[0].ledger.elsewhere, fs[0].ledger.absent)
    && (forall i :: 0 <= i < |es| ==> Enabled(fs[i], objects, es[i]) && fs[i + 1] == Next(fs[i], objects, es[i]))
  }

  lemma {:induction false} RunKeeps(fs: seq<Fanout>, objects: set<u64>, es: seq<Event>)
    requires IsRun(fs, objects, es)
    ensures Inv(fs[|es|], objects)
    decreases |es|
  {
    if es == [] {
      NewIsInv(fs[0], objects);
    } else {
      hide Next, Enabled, Inv;
      var n := |es| - 1;
      RunKeeps(fs[..n + 1], objects, es[..n]);
      InvStep(fs[n], objects, es[n]);
    }
  }

  lemma {:induction false} NewIsInv(f: Fanout, objects: set<u64>)
    requires f == NewFanout(f.ledger.elsewhere, f.ledger.absent)
    ensures Inv(f, objects)
  {
    assert IdsOf(f.log) == [];
    forall id
      ensures PartWay(f.contributors, id) == {}
    {
    }
  }

  /**
   FIN safety: in every run, if the merged streams end in a FIN then each existing Object at or above the
   lowest one forwarded was forwarded, claimed elsewhere, announced absent, or lost; and each writer there
   was when it was lost either ends in a reset or declined it.
   */
  lemma {:induction false} FinSafety(fs: seq<Fanout>, objects: set<u64>, es: seq<Event>, id: u64)
    requires IsRun(fs, objects, es) && fs[|es|].ended == Some(W.Fin)
    requires id in objects && id >= fs[|es|].set_.lowest
    ensures Accounted(fs[|es|], id)
    ensures forall i, k :: 0 <= i < |fs[|es|].lost| && k in fs[|es|].lost[i].present ==>
      k in fs[|es|].writers && Marked(fs[|es|].writers[k], fs[|es|].lost[i].id)
  {
    RunKeeps(fs, objects, es);
    FinCovers(fs[|es|], objects, id);
  }

  /** In every run the end is a FIN exactly if a contributor that vouches joins what was forwarded. */
  lemma {:induction false} FinOutcome(fs: seq<Fanout>, objects: set<u64>, es: seq<Event>)
    requires IsRun(fs, objects, es) && fs[|es|].ended.Some?
    ensures var f := fs[|es|];
      f.ended == Some(W.Fin) <==>
      exists c :: c in f.contributors && Vouches(f.contributors[c])
                  && Joins(IdsOf(f.log), f.set_.lowest, f.contributors[c].coverFrom)
  {
    RunKeeps(fs, objects, es);
    FinExact(fs[|es|]);
  }

  /** The code of the last contributor that left with a reset; INTERNAL_ERROR if none did. */
  function LastResetCode(es: seq<Event>): W.ResetCode {
    if es == [] then 0x0
    else
      var e := es[|es| - 1];
      if e.LeaveSet? && e.reset then e.code else LastResetCode(es[..|es| - 1])
  }

  lemma {:induction false} ResetCodeAfter(f: Fanout, objects: set<u64>, e: Event)
    requires Enabled(f, objects, e)
    ensures Next(f, objects, e).set_.resetCode == if e.LeaveSet? && e.reset then e.code else f.set_.resetCode
  {
    hide W.Next, W.Enabled, Outcome, AdmissionOf, Widened, Noted, Released, OfferAll, AgeOutAll, TearDownAll;
  }

  lemma {:induction false} ResetCodeRun(fs: seq<Fanout>, objects: set<u64>, es: seq<Event>)
    requires IsRun(fs, objects, es)
    ensures fs[|es|].set_.resetCode == LastResetCode(es)
    decreases |es|
  {
    if es != [] {
      hide Next, Enabled;
      var n := |es| - 1;
      ResetCodeRun(fs[..n + 1], objects, es[..n]);
      ResetCodeAfter(fs[n], objects, es[n]);
    }
  }

  /** Merged streams that do not FIN reset: with CANCELLED if a contributor vouches, else as the last that reset. */
  lemma {:induction false} ResetExact(fs: seq<Fanout>, objects: set<u64>, es: seq<Event>)
    requires IsRun(fs, objects, es) && fs[|es|].ended.Some? && fs[|es|].ended != Some(W.Fin)
    ensures var f := fs[|es|];
      f.ended == Some(W.Reset(if exists c :: c in f.contributors && Vouches(f.contributors[c]) then 0x1
                              else LastResetCode(es)))
  {
    RunKeeps(fs, objects, es);
    ResetCodeRun(fs, objects, es);
  }

  /** Object IDs an earlier set of the Subgroup is known to have forwarded. */
  predicate WasSeeded(es: seq<Event>, id: u64) {
    exists i :: 0 <= i < |es| && es[i] == Seed(id)
  }

  lemma {:induction false} LowestAfter(f: Fanout, objects: set<u64>, e: Event)
    requires Enabled(f, objects, e)
    ensures var r := Next(f, objects, e);
      var ids := (if e.Seed? then [e.lowest]
                  else if Forwards(f, objects, e) then [f.contributors[e.c].phase.id] else []);
      && (r.set_.forwarded <==> f.set_.forwarded || ids != [])
      && (ids == [] ==> r.set_.lowest == f.set_.lowest)
      && (ids != [] ==> r.set_.lowest <= ids[0])
      && (ids != [] && f.set_.forwarded ==> r.set_.lowest <= f.set_.lowest)
      && (ids != [] ==> r.set_.lowest == ids[0] || (f.set_.forwarded && r.set_.lowest == f.set_.lowest))
  {
    hide W.Next, W.Enabled, Outcome, Widened, Noted, Released, OfferAll, AgeOutAll, TearDownAll;
  }

  /** Once something was forwarded or seeded, lowest is the least ID that was. */
  ghost predicate LowestIs(f: Fanout, es: seq<Event>) {
    && (f.set_.forwarded <==> f.log != [] || exists id :: WasSeeded(es, id))
    && (f.set_.forwarded ==> f.set_.lowest in IdsOf(f.log) || WasSeeded(es, f.set_.lowest))
    && (forall id :: id in IdsOf(f.log) || WasSeeded(es, id) ==> f.set_.lowest <= id)
  }

  lemma {:induction false} SeededMore(es: seq<Event>, e: Event, id: u64)
    ensures WasSeeded(es + [e], id) <==> WasSeeded(es, id) || e == Seed(id)
  {
    if i :| 0 <= i < |es| && es[i] == Seed(id) {
      assert (es + [e])[i] == Seed(id);
    }
    assert (es + [e])[|es|] == e;
  }

  lemma {:induction false} LowestStep(f: Fanout, objects: set<u64>, es: seq<Event>, e: Event)
    requires Enabled(f, objects, e) && LowestIs(f, es)
    ensures LowestIs(Next(f, objects, e), es + [e])
  {
    hide Next, W.Enabled, WasSeeded;
    var r := Next(f, objects, e);
    LowestAfter(f, objects, e);
    HistoryAfter(f, objects, e);
    forall id
      ensures WasSeeded(es + [e], id) <==> WasSeeded(es, id) || e == Seed(id)
    {
      SeededMore(es, e, id);
    }
    if Forwards(f, objects, e) {
      assert IdsOf(r.log) == IdsOf(f.log) + [f.contributors[e.c].phase.id];
    }
  }

  lemma {:induction false} NothingYet(f: Fanout)
    requires f == NewFanout(f.ledger.elsewhere, f.ledger.absent)
    ensures LowestIs(f, [])
  {
  }

  /** In every run the lowest ID kept is the least of those forwarded, now or through an earlier set. */
  lemma {:induction false} LowestExact(fs: seq<Fanout>, objects: set<u64>, es: seq<Event>)
    requires IsRun(fs, objects, es)
    ensures LowestIs(fs[|es|], es)
    decreases |es|
  {
    if es == [] {
      NothingYet(fs[0]);
      return;
    }
    hide Next, Enabled, LowestIs;
    var n := |es| - 1;
    LowestExact(fs[..n + 1], objects, es[..n]);
    LowestStep(fs[n], objects, es[..n], es[n]);
    assert es == es[..n] + [es[n]];
  }

  /**
   In every run, a late copy comes after everything forwarded and is forwarded too, or changes nothing for any
   writer if it was forwarded and is an end of what was or everything was forwarded one by one, or else is lost.
   */
  lemma {:induction false} LateCopies(fs: seq<Fanout>, objects: set<u64>, es: seq<Event>, e: Event)
    requires IsRun(fs, objects, es) && Enabled(fs[|es|], objects, e) && e.Deliver?
    requires fs[|es|].contributors[e.c].phase.claim.Late?
    ensures var f, r, ids := fs[|es|], Next(fs[|es|], objects, e), IdsOf(fs[|es|].log);
      var id := f.contributors[e.c].phase.id;
      if ids != [] && (forall x :: x in ids ==> x < id) then IdsOf(r.log) == ids + [id] && r.lost == f.lost
      else if id in ids && (OneByOne(ids) || AtEnd(ids, id)) then
        r.writers == f.writers && r.log == f.log && r.lost == f.lost
      else r.log == f.log && r.lost == f.lost + [LostEntry(id, f.writers.Keys)]
  {
    hide OneByOne, AtEnd, W.Offer, W.AgedOut, Widened, Released;
    RunKeeps(fs, objects, es);
    var f := fs[|es|];
    AdmissionExact(DoneReading(f.set_, f.contributors[e.c].phase.id), IdsOf(f.log), Late, f.contributors[e.c].phase.id);
    assert forall i :: 0 <= i < |f.log| ==> IdsOf(f.log)[i] == f.log[i].id;
  }

  /**
   Joiner cut-off: in every run, a forwarded Object was offered to exactly the writers there that were
   opened with the set or no later than the first of its overlapping header reads. That differs from "open
   at that header read" exactly for a writer opened with the set after it. The list of Objects being read
   has one entry per Object, counting the contributors part way through it.
   */
  lemma {:induction false} JoinerCutOff(fs: seq<Fanout>, objects: set<u64>, es: seq<Event>, k: nat, i: nat)
    requires IsRun(fs, objects, es) && k in fs[|es|].writers && i < |fs[|es|].log|
    ensures var f := fs[|es|]; var entry := f.log[i];
      && (WasOffered(f.writers[k].gate, i) <==> Due(f, k, entry))
      && (WasOffered(f.writers[k].gate, i) != (k in entry.present && OpenAt(f, k, entry.since)) <==>
            k in entry.present && f.writers[k].cfg.seqNo == 0 && !OpenAt(f, k, entry.since))
      && k in f.times.openedAt
    ensures Distinct(fs[|es|].set_.reading)
    ensures forall id :: ReadersOf(fs[|es|].set_.reading, id) == |PartWay(fs[|es|].contributors, id)|
  {
    RunKeeps(fs, objects, es);
    assert OfferInv(fs[|es|], k);
  }

  /** Writer k has done right by Object i of the log: written it, or declined it as before its Start. */
  ghost predicate Served(f: Fanout, k: nat, i: nat)
    requires k in f.writers && i < |f.log|
  {
    var w := f.writers[k];
    || (exists n :: 0 <= n < |w.loop.written| && w.loop.written[n].at == i && w.loop.written[n].absID == f.log[i].id)
    || (exists n :: 0 <= n < |w.gate.declined| && w.gate.declined[n].at == Some(i)
                    && w.gate.declined[n].absID == f.log[i].id && W.Harmless(w.gate.declined[n]))
  }

  ghost predicate DeclinedHarmlessly(w: W.Writer, id: u64) {
    exists n :: 0 <= n < |w.gate.declined| && w.gate.declined[n].absID == id && W.Harmless(w.gate.declined[n])
  }

  lemma {:induction false} FinServes(f: Fanout, objects: set<u64>, k: nat, i: nat)
    requires Inv(f, objects) && k in f.writers && i < |f.log| && !W.NoFin(f.writers[k].loop)
    requires Due(f, k, f.log[i])
    ensures Served(f, k, i)
  {
    hide CoverInv, RunInv, EndInv, ReadingInv, OpenInv, HeardInv, CutInv, TornDownInv, PresentInv, LostInv;
    var w := f.writers[k];
    assert OfferInv(f, k) && W.FinInv(w) && W.FinIsFinal(w);
    assert w.loop.written == w.gate.admitted;
    assert WasOffered(w.gate, i);
    if n :| 0 <= n < |w.gate.admitted| && w.gate.admitted[n].at == i {
      assert Recorded(f.log, w.gate.admitted[n]);
    } else {
      var n :| 0 <= n < |w.gate.declined| && w.gate.declined[n].at == Some(i);
      assert w.gate.declined[n] in w.gate.declined;
    }
  }

  lemma {:induction false} FinDeclines(f: Fanout, objects: set<u64>, k: nat, i: nat)
    requires Inv(f, objects) && k in f.writers && i < |f.lost| && !W.NoFin(f.writers[k].loop)
    requires k in f.lost[i].present
    ensures DeclinedHarmlessly(f.writers[k], f.lost[i].id)
  {
    var w := f.writers[k];
    assert W.FinInv(w) && W.FinIsFinal(w) && Marked(w, f.lost[i].id);
    var n :| 0 <= n < |w.gate.declined| && w.gate.declined[n].absID == f.lost[i].id;
    assert w.gate.declined[n] in w.gate.declined;
  }

  /**
   End to end: in every run, if a subscriber's writer FINs a stream, then the merged streams ended in a FIN
   and each existing Object at or above the lowest one forwarded was forwarded, claimed elsewhere, announced
   absent or lost; every Object forwarded that was due to the subscriber, each time it was, was written to
   it or was before its Start; and so was every Object lost while the subscriber was there.
   */
  lemma {:induction false} SubscriberFin(fs: seq<Fanout>, objects: set<u64>, es: seq<Event>, k: nat)
    requires IsRun(fs, objects, es)
    requires k in fs[|es|].writers && !W.NoFin(fs[|es|].writers[k].loop)
    ensures var f := fs[|es|];
      && f.ended == Some(W.Fin)
      && (forall id :: id in objects && id >= f.set_.lowest ==> Accounted(f, id))
      && (forall i :: 0 <= i < |f.log| && Due(f, k, f.log[i]) ==> Served(f, k, i))
      && (forall i :: 0 <= i < |f.lost| && k in f.lost[i].present ==> DeclinedHarmlessly(f.writers[k], f.lost[i].id))
  {
    var f := fs[|es|];
    RunKeeps(fs, objects, es);
    WriterFinIsSetFin(f, k);
    forall id | id in objects && id >= f.set_.lowest ensures Accounted(f, id) {
      FinCovers(f, objects, id);
    }
    hide Inv;
    forall i | 0 <= i < |f.log| && Due(f, k, f.log[i]) ensures Served(f, k, i) {
      FinServes(f, objects, k, i);
    }
    forall i | 0 <= i < |f.lost| && k in f.lost[i].present ensures DeclinedHarmlessly(f.writers[k], f.lost[i].id) {
      FinDeclines(f, objects, k, i);
    }
  }

  // ---------------------------------------------------------------------------
  // Outbound streams
  // ---------------------------------------------------------------------------

  /** No Object 0 is forwarded after an Object 2^64 - 1. */
  ghost predicate NoWrapLog(log: seq<LogEntry>) {
    forall i, j :: 0 <= i < j < |log| && log[i].id == MAX_U64 ==> log[j].id != 0
  }

  lemma {:induction false} AdmittedNoWrap(f: Fanout, k: nat)
    requires k in f.writers && OfferInv(f, k) && NoWrapLog(f.log)
    ensures W.NoWrap(f.writers[k].gate.admitted)
  {
    var a := f.writers[k].gate.admitted;
    forall i, j | 0 <= i < j < |a| && a[i].absID == MAX_U64
      ensures a[j].absID != 0
    {
      assert Recorded(f.log, a[i]) && Recorded(f.log, a[j]) && a[i].at < a[j].at;
    }
  }

  ghost predicate StreamsInv(f: Fanout) {
    forall k :: k in f.writers ==> T.TogetherInv(f.writers[k]) && W.FromAdmitted(f.writers[k])
  }

  lemma {:induction false} StreamsInvFor(f: Fanout, objects: set<u64>, e: Event, k: nat)
    requires k in f.writers ==> T.TogetherInv(f.writers[k]) && W.FromAdmitted(f.writers[k])
    requires TornDownInv(f) && EndInv(f) && Enabled(f, objects, e) && k in Next(f, objects, e).writers
    requires W.NoWrap(Next(f, objects, e).writers[k].gate.admitted)
    ensures T.TogetherInv(Next(f, objects, e).writers[k]) && W.FromAdmitted(Next(f, objects, e).writers[k])
  {
    hide Next, Enabled, W.Next, W.Enabled, EndInv, TornDownInv, StepOf, W.FinInv, W.FromAdmitted;
    hide W.StreamInv, W.QueueInv, W.NoWrap, T.ShareInv, T.FollowInv, T.LastFins;
    var r := Next(f, objects, e);
    if k in f.writers {
      WriterMoves(f, objects, e, k);
      var s := StepOf(f, objects, e, k);
      if s.Some? {
        T.TogetherStep(f.writers[k], s.value);
        W.FromAdmittedStep(f.writers[k], s.value);
      }
    } else {
      NewWriters(f, objects, e, k);
      W.NewWriterStreams(r.writers[k].cfg, r.writers[k].loop.withProps);
      T.NewTogether(r.writers[k].cfg, r.writers[k].loop.withProps);
    }
  }

  lemma {:induction false} StreamsInvStep(f: Fanout, objects: set<u64>, e: Event)
    requires StreamsInv(f) && Inv(f, objects) && Enabled(f, objects, e) && NoWrapLog(Next(f, objects, e).log)
    ensures StreamsInv(Next(f, objects, e))
  {
    hide Next, Enabled, CoverInv, RunInv, EndInv, ReadingInv, OpenInv, HeardInv, CutInv, TornDownInv;
    hide WritersSound, PresentInv, LostInv, OfferInv, NoWrapLog, T.TogetherInv, W.FromAdmitted;
    var r := Next(f, objects, e);
    InvStep(f, objects, e);
    forall k | k in r.writers
      ensures T.TogetherInv(r.writers[k]) && W.FromAdmitted(r.writers[k])
    {
      assert OfferInv(r, k);
      AdmittedNoWrap(r, k);
      StreamsInvFor(f, objects, e, k);
    }
  }

  lemma {:induction false} LogBefore(f: Fanout, objects: set<u64>, e: Event)
    requires Enabled(f, objects, e) && NoWrapLog(Next(f, objects, e).log)
    ensures NoWrapLog(f.log)
  {
    HistoryGrows(f, objects, e);
    hide Next, Enabled;
    assert forall i :: 0 <= i < |f.log| ==> Next(f, objects, e).log[i] == f.log[i];
  }

  lemma {:induction false} StreamsRun(fs: seq<Fanout>, objects: set<u64>, es: seq<Event>)
    requires IsRun(fs, objects, es) && NoWrapLog(fs[|es|].log)
    ensures StreamsInv(fs[|es|])
    decreases |es|
  {
    if es == [] {
    } else {
      hide Next, Enabled, Inv, StreamsInv, NoWrapLog;
      var n := |es| - 1;
      LogBefore(fs[n], objects, es[n]);
      StreamsRun(fs[..n + 1], objects, es[..n]);
      RunKeeps(fs[..n + 1], objects, es[..n]);
      StreamsInvStep(fs[n], objects, es[n]);
    }
  }

  lemma {:induction false} WriterStreams(w: W.Writer, i: nat)
    requires T.TogetherInv(w) && i < |w.loop.streams|
    ensures var s := w.loop.streams[i];
      && W.WellFormed(s) && W.Concat(w.loop.streams) == w.loop.written
      && (forall n :: 0 < n < |s.objs| ==> T.SharesRightly(w, s.objs[n - 1], s.objs[n]))
      && (i > 0 ==> T.OpenedRightly(w, i) && w.loop.streams[i - 1].end.Reset?)
  {
    hide T.ShareInv, T.FollowInv, W.WellFormed, W.Concat, T.SharesRightly, T.OpenedRightly, W.QueueInv;
    forall n | 0 < n < |w.loop.streams[i].objs|
      ensures T.SharesRightly(w, w.loop.streams[i].objs[n - 1], w.loop.streams[i].objs[n])
    {
      T.SharedPair(w, i, n);
    }
    if i > 0 {
      T.OpenedNext(w, i);
    }
  }

  /**
   In every run that forwards no Object 0 after an Object 2^64 - 1, each stream of each writer ascends and
   reads back to the IDs forwarded, goes on only with an Object that nothing can lie before, is given up only
   for one that something can, and if it says FIRST_OBJECT starts with an Object that was below everything
   the Subgroup had forwarded before it.
   */
  lemma {:induction false} OutboundStreams(fs: seq<Fanout>, objects: set<u64>, es: seq<Event>, k: nat, i: nat)
    requires IsRun(fs, objects, es) && NoWrapLog(fs[|es|].log)
    requires k in fs[|es|].writers && i < |fs[|es|].writers[k].loop.streams|
    ensures var w := fs[|es|].writers[k]; var s := w.loop.streams[i];
      && W.WellFormed(s)
      && (forall n :: 0 < n < |s.objs| ==> T.SharesRightly(w, s.objs[n - 1], s.objs[n]))
      && (i > 0 ==> T.OpenedRightly(w, i) && w.loop.streams[i - 1].end.Reset?)
      && (s.first && s.objs != [] ==>
            s.objs[0].at < |fs[|es|].log| && forall j :: 0 <= j < s.objs[0].at ==> s.objs[0].absID < fs[|es|].log[j].id)
  {
    var f := fs[|es|];
    StreamsRun(fs, objects, es);
    RunKeeps(fs, objects, es);
    var w := f.writers[k];
    var s := w.loop.streams[i];
    assert T.TogetherInv(w) && W.FromAdmitted(w) && OfferInv(f, k);
    WriterStreams(w, i);
    hide T.TogetherInv, T.SharesRightly, T.OpenedRightly;
    if s.first && s.objs != [] {
      W.StreamsHoldWritten(w.loop.streams, i, 0);
      assert s.objs[0] in w.gate.admitted;
      var n :| 0 <= n < |w.gate.admitted| && w.gate.admitted[n] == s.objs[0];
      assert Recorded(f.log, w.gate.admitted[n]);
    }
  }
}
