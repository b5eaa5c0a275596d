/** What makes a writer's stream incomplete, what closes a writer, and with which codes its streams end early. */
module SubgroupLosses {
  import opened Uint64
  import opened SubgroupWriter

  // ---------------------------------------------------------------------------
  // Causes
  // ---------------------------------------------------------------------------

  /** An Object the subscription wants finds the queue of an open writer full. */
  predicate DropsNow(w: Writer, s: Step) {
    s.OfferStep? && s.verdict.Forward? && !w.shared.closed && |w.shared.inbox| >= w.cfg.capacity
  }

  /** id is above the Object admitted last. */
  predicate AboveLast(w: Writer, id: u64) {
    w.gate.admitted != [] && id > w.gate.admitted[|w.gate.admitted| - 1].absID
  }

  predicate Declines(s: Step, v: Verdict) {
    (s.OfferStep? || s.AgedOutStep?) && s.verdict == v
  }

  function IdOf(s: Step): u64 {
    match s
    case OfferStep(_, fwd, _) => fwd.absID
    case AgedOutStep(id, _) => id
    case _ => 0
  }

  /** How this step would end the writer's stream, if nothing has decided that yet. */
  function CloseCause(w: Writer, s: Step): Option<Ending> {
    if s.TearDownStep? then Some(s.end)
    else if Declines(s, SkipGroup) || Declines(s, SkipEnded) then Some(Reset(0x1))
    else if DropsNow(w, s) && 0 < w.cfg.maxDrops <= w.shared.drops then Some(Reset(0x9))
    else None
  }

  /** Why this step leaves the stream incomplete, if it does. */
  function MarkCause(w: Writer, s: Step): Option<ResetCode> {
    if DropsNow(w, s) then Some(0x9)
    else if s.AgedOutStep? && s.verdict.Forward? then Some(0x0)
    else if Declines(s, SkipObject) || Declines(s, SkipPaused) then Some(0x1)
    else if Declines(s, SkipBeforeStart) && AboveLast(w, IdOf(s)) then Some(0x1)
    else if s == TakeStep(Expires) && !w.loop.writeFailed then Some(0x1)
    else None
  }

  // ---------------------------------------------------------------------------
  // Whole runs
  // ---------------------------------------------------------------------------

  /** How many Objects the first n steps dropped on a full queue. */
  function Dropped(ws: seq<Writer>, ss: seq<Step>, n: nat): nat
    requires n <= |ss| && n <= |ws|
  {
    if n == 0 then 0 else Dropped(ws, ss, n - 1) + if DropsNow(ws[n - 1], ss[n - 1]) then 1 else 0
  }

  /** The first thing among the first n steps that decided how the stream ends. */
  function FirstClose(ws: seq<Writer>, ss: seq<Step>, n: nat): Option<Ending>
    requires n <= |ss| && n <= |ws|
  {
    if n == 0 then None
    else if FirstClose(ws, ss, n - 1).Some? then FirstClose(ws, ss, n - 1)
    else CloseCause(ws[n - 1], ss[n - 1])
  }

  /** The reasons the first n steps gave, in order. */
  function Marks(ws: seq<Writer>, ss: seq<Step>, n: nat): seq<ResetCode>
    requires n <= |ss| && n <= |ws|
  {
    if n == 0 then []
    else
      var c := MarkCause(ws[n - 1], ss[n - 1]);
      Marks(ws, ss, n - 1) + if c.Some? then [c.value] else []
  }

  /** The reason kept of several: load if it is among them, else the first. */
  function Kept(codes: seq<ResetCode>): Option<ResetCode> {
    if codes == [] then None else Some(if 0x9 in codes then 0x9 else codes[0])
  }

  ghost predicate LastIsLast(w: Writer) {
    w.gate.lastAdmitted
    == if w.gate.admitted == [] then None else Some(w.gate.admitted[|w.gate.admitted| - 1].absID)
  }

  /** Publishers are turned away exactly if the writer was closed, cannot write, or ended behind its subscriber. */
  ghost predicate ClosedWhen(w: Writer) {
    w.shared.closed <==>
    || w.shared.closing.Some? || w.loop.writeFailed
    || (w.loop.ended && (w.loop.lagExceeded || TooManyDrops(w)))
  }

  ghost predicate SharedAfter(w: Writer, s: Step, r: Writer) {
    && r.shared.drops == w.shared.drops + (if DropsNow(w, s) then 1 else 0)
    && r.shared.closing == (if w.shared.closing.Some? then w.shared.closing else CloseCause(w, s))
    && r.shared.incomplete == (match MarkCause(w, s)
                               case None => w.shared.incomplete
                               case Some(c) => if w.shared.incomplete.None? || c == 0x9 then Some(c)
                                               else w.shared.incomplete)
  }

  lemma {:induction false} OfferShared(w: Writer, s: Step)
    requires Enabled(w, s) && LastIsLast(w) && ClosedWhen(w) && (s.OfferStep? || s.AgedOutStep? || s.TearDownStep?)
    ensures SharedAfter(w, s, Next(w, s)) && LastIsLast(Next(w, s)) && ClosedWhen(Next(w, s))
  {
  }

  lemma {:induction false} PrepareFlags(lp: Loop, fwd: Fwd, code: ResetCode)
    ensures var r := Prepare(lp, fwd, code);
      (r.writeFailed, r.lagExceeded, r.ended) == (lp.writeFailed, lp.lagExceeded, lp.ended)
  {
    hide Stale;
  }

  lemma {:induction false} HandleFrame(w: Writer, fwd: Fwd, fate: Fate)
    ensures var r := Handle(w, fwd, fate);
      && r.cfg == w.cfg && r.gate == w.gate && r.loop.ended == w.loop.ended
      && r.shared.drops == w.shared.drops && r.shared.closing == w.shared.closing
      && (w.loop.writeFailed ==> r.loop.writeFailed)
      && (r.shared.closed <==> w.shared.closed || (r.loop.writeFailed && !w.loop.writeFailed))
      && r.shared.incomplete
         == if fate.Expires? && !w.loop.writeFailed && w.shared.incomplete.None? then Some(0x1) else w.shared.incomplete
  {
    PrepareFlags(w.loop, fwd, CodeForReset(w.shared));
    hide Prepare, NeedsOpen, CodeForReset;
  }

  lemma {:induction false} TakeFrame(w: Writer, fate: Fate)
    requires w.shared.inbox != []
    ensures var r := TakeNext(w, fate);
      && r.cfg == w.cfg && r.gate == w.gate && r.loop.ended == w.loop.ended
      && r.shared.drops == w.shared.drops && r.shared.closing == w.shared.closing
      && (w.loop.writeFailed ==> r.loop.writeFailed)
      && (r.shared.closed <==> w.shared.closed || (r.loop.writeFailed && !w.loop.writeFailed))
      && r.shared.incomplete
         == if fate.Expires? && !w.loop.writeFailed && w.shared.incomplete.None? then Some(0x1) else w.shared.incomplete
  {
    HandleFrame(w.(shared := w.shared.(inbox := w.shared.inbox[1..])), w.shared.inbox[0], fate);
    hide Handle, Placements;
  }

  lemma {:induction false} TakeShared(w: Writer, s: Step)
    requires Enabled(w, s) && LastIsLast(w) && ClosedWhen(w) && s.TakeStep?
    ensures SharedAfter(w, s, Next(w, s)) && LastIsLast(Next(w, s)) && ClosedWhen(Next(w, s))
  {
    assert Next(w, s) == TakeNext(w, s.fate);
    TakeFrame(w, s.fate);
    hide Next, TakeNext;
  }

  lemma {:induction false} FinishShared(w: Writer)
    requires Enabled(w, FinishStep) && LastIsLast(w) && ClosedWhen(w)
    ensures var r := Next(w, FinishStep); SharedAfter(w, FinishStep, r) && LastIsLast(r) && ClosedWhen(r)
  {
  }

  lemma {:induction false} KeptMore(codes: seq<ResetCode>, c: ResetCode)
    ensures Kept(codes + [c]) == if Kept(codes).None? || c == 0x9 then Some(c) else Kept(codes)
    ensures Kept(codes + []) == Kept(codes)
  {
    assert codes + [] == codes;
  }

  /**
   In every run the drops are those on a full queue, the stream's end was decided by the first thing that did, the
   reason it is incomplete is load if that was ever one and else the first, and the writer is closed when it should.
   */
  lemma {:induction false} LossExact(ws: seq<Writer>, ss: seq<Step>, n: nat)
    requires IsRun(ws, ss) && n <= |ss|
    ensures ws[n].shared.drops == Dropped(ws, ss, n) && ws[n].shared.closing == FirstClose(ws, ss, n)
    ensures ws[n].shared.incomplete == Kept(Marks(ws, ss, n))
    ensures LastIsLast(ws[n]) && ClosedWhen(ws[n])
    decreases n
  {
    if n == 0 {
      return;
    }
    hide Next, Enabled, LastIsLast, ClosedWhen, DropsNow, CloseCause, MarkCause, Kept;
    LossExact(ws, ss, n - 1);
    var w, s := ws[n - 1], ss[n - 1];
    if s.TakeStep? {
      TakeShared(w, s);
    } else if s.FinishStep? {
      FinishShared(w);
    } else {
      OfferShared(w, s);
    }
    var codes := Marks(ws, ss, n - 1);
    KeptMore(codes, if MarkCause(w, s).Some? then MarkCause(w, s).value else 0);
  }

  // ---------------------------------------------------------------------------
  // What becomes of an Object taken from the queue
  // ---------------------------------------------------------------------------

  ghost predicate LastEnds(lp: Loop, end: Ending) {
    lp.streams != [] && lp.streams[|lp.streams| - 1].end == end
  }

  /** The reason a stream is given up for, before it is complete. */
  function GiveUpCode(w: Writer): ResetCode {
    if w.shared.incomplete.Some? then w.shared.incomplete.value else 0x1
  }

  /**
   In every run the fate of an Object taken decides: one that waited too long ends the loop, a write that is late
   or fails ends the stream with DELIVERY_TIMEOUT or INTERNAL_ERROR and the writing for good, as does an open that
   fails, an expired Object is left out and a stream opened for it reset, and any other is written.
   */
  lemma {:induction false} FateExact(ws: seq<Writer>, ss: seq<Step>, n: nat)
    requires IsRun(ws, ss) && n < |ss| && ss[n].TakeStep?
    ensures ws[n].shared.inbox != [] && ws[n + 1].shared.inbox == ws[n].shared.inbox[1..]
    ensures var w, r, fate := ws[n], ws[n + 1], ss[n].fate;
      && (r.loop.lagExceeded <==> fate.Lags?)
      && (fate.Lags? || w.loop.writeFailed ==> r.loop.streams == w.loop.streams && r.loop.written == w.loop.written)
      && (!fate.Lags? && !w.loop.writeFailed ==>
            && (fate.TimesOut? ==> LastEnds(r.loop, Reset(0x2)))
            && (fate.WriteFails? ==> LastEnds(r.loop, Reset(0x0)))
            && (fate.TimesOut? || fate.WriteFails? || (fate.OpenFails? && NeedsOpen(w.loop, w.shared.inbox[0]))
                <==> r.loop.writeFailed)
            && (r.loop.writeFailed ==> r.shared.closed && !r.loop.open)
            && (fate.Expires? ==> r.loop.dropped && (!r.loop.open ==> LastEnds(r.loop, Reset(0x1)))
                                  && (r.loop.open <==> w.loop.open && !NeedsOpen(w.loop, w.shared.inbox[0])
                                                       && w.loop.hasWritten))
            && r.loop.written == w.loop.written
               + (if !r.loop.writeFailed && !fate.Expires? then [w.shared.inbox[0]] else []))
  {
    FinRun(ws[..n + 1], ss[..n]);
    assert Enabled(ws[n], ss[n]) && ws[n + 1] == Next(ws[n], ss[n]);
    hide IsRun, Placements, Stale;
  }

  /** In every run a stream given up for another is reset for the reason it is incomplete, else CANCELLED. */
  lemma {:induction false} GivenUpExact(ws: seq<Writer>, ss: seq<Step>, n: nat)
    requires IsRun(ws, ss) && n < |ss| && ss[n].TakeStep? && !ss[n].fate.Lags?
    requires ws[n].loop.open && !ws[n].loop.writeFailed && NeedsOpen(ws[n].loop, ws[n].shared.inbox[0])
    ensures var w, r := ws[n], ws[n + 1];
      && |r.loop.streams| >= |w.loop.streams| > 0
      && r.loop.streams[|w.loop.streams| - 1].end == Reset(GiveUpCode(w))
  {
    FinRun(ws[..n + 1], ss[..n]);
    assert Enabled(ws[n], ss[n]) && ws[n + 1] == TakeNext(ws[n], ss[n].fate);
    var w, fwd := ws[n].(shared := ws[n].shared.(inbox := ws[n].shared.inbox[1..])), ws[n].shared.inbox[0];
    var code := CodeForReset(w.shared);
    PrepareEnds(w.loop, fwd, code);
    SettleKeeps(w.(loop := Prepare(w.loop, fwd, code)), fwd, ss[n].fate, |w.loop.streams| - 1);
    hide IsRun, Placements, NeedsOpen, Prepare, Settle;
  }

  lemma {:induction false} PrepareEnds(lp: Loop, fwd: Fwd, code: ResetCode)
    requires lp.open && lp.streams != [] && NeedsOpen(lp, fwd)
    ensures var r := Prepare(lp, fwd, code);
      |r.streams| == |lp.streams| + 1 && r.streams[|lp.streams| - 1].end == Reset(code)
  {
    hide NeedsOpen;
  }

  /** All streams but the last are as they were. */
  predicate KeepsEarlier(before: seq<OutStream>, after: seq<OutStream>) {
    |after| == |before| && before != [] && after[..|before| - 1] == before[..|before| - 1]
  }

  lemma {:induction false} OneStreamChanges(lp: Loop, fwd: Fwd, end: Ending)
    requires lp.streams != []
    ensures KeepsEarlier(lp.streams, CloseOut(lp, end).streams) && KeepsEarlier(lp.streams, WriteOn(lp, fwd).streams)
  {
    hide Extended, DeltaFor;
  }

  lemma {:induction false} SettleKeeps(w: Writer, fwd: Fwd, fate: Fate, i: nat)
    requires i + 1 < |w.loop.streams|
    ensures var r := Settle(w, fwd, fate).loop; |r.streams| == |w.loop.streams| && r.streams[i] == w.loop.streams[i]
  {
    OneStreamChanges(w.loop.(dropped := true), fwd, Reset(CANCELLED));
    OneStreamChanges(w.loop, fwd, Reset(DELIVERY_TIMEOUT));
    OneStreamChanges(w.loop, fwd, Reset(INTERNAL_ERROR));
    var r := Settle(w, fwd, fate).loop;
    assert KeepsEarlier(w.loop.streams, r.streams) by {
      hide CloseOut, WriteOn, MarkIncomplete, KeepsEarlier;
      KeepsItself(w.loop.streams);
    }
    hide Settle, CloseOut, WriteOn;
    assert r.streams[i] == r.streams[..|r.streams| - 1][i] && w.loop.streams[i] == w.loop.streams[..|r.streams| - 1][i];
  }

  lemma {:induction false} KeepsItself(streams: seq<OutStream>)
    requires streams != []
    ensures KeepsEarlier(streams, streams)
  {
  }
}
