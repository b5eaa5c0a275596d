/**
 The per-subscriber writer of a Subgroup: admission under the Subgroup's lock, a bounded queue, and a
 loop that writes the queued Objects onto outbound streams (sections 11.3.1 and 11.3.2).
 */
module SubgroupWriter {
  import opened Uint64

  type ResetCode = u64

  const INTERNAL_ERROR: ResetCode := 0x0
  const CANCELLED: ResetCode := 0x1
  const DELIVERY_TIMEOUT: ResetCode := 0x2
  const TOO_FAR_BEHIND: ResetCode := 0x5
  const EXCESSIVE_LOAD: ResetCode := 0x9

  /** A subscription's answer for one Object. */
  datatype Verdict = Forward | SkipBeforeStart | SkipObject | SkipPaused | SkipGroup | SkipEnded

  /** The inbound stream an Object came on, and its number there. */
  datatype Pos = Pos(src: nat, seqNo: nat)

  /** An Object handed to a writer; at is its place among all Objects the Subgroup forwarded. */
  datatype Fwd = Fwd(absID: u64, first: bool, follows: bool, hasProps: bool, gap: Option<u64>, at: nat)

  /**
   An Object a writer omits; above: its ID was above the last one admitted; at is as for Fwd, if the
   Subgroup forwarded it; after: how many had been admitted.
   */
  datatype Declined = Declined(absID: u64, verdict: Verdict, above: bool, at: Option<nat>, after: nat)

  /** An offer as the writer met it: where it was read, whether it was taken, and whether the queue was full. */
  datatype Heard = Heard(pos: Pos, take: bool, lost: bool)

  datatype Ending = Open | Fin | Reset(code: ResetCode)

  /** One outbound stream: the Objects written, with the deltas they were written with. */
  datatype OutStream = OutStream(first: bool, withProps: bool, objs: seq<Fwd>, deltas: seq<u64>, end: Ending)

  datatype Config = Config(seqNo: nat, capacity: nat, maxDrops: nat)

  /** Touched only under the Subgroup's lock. */
  datatype Gate = Gate(
    lastAdmitted: Option<u64>,
    lastPos: Option<Pos>,
    tornDown: bool,
    admitted: seq<Fwd>,
    declined: seq<Declined>,
    offered: seq<Heard>
  )

  /** Shared by publishers and the loop. */
  datatype Shared = Shared(
    drops: nat,
    incomplete: Option<ResetCode>,
    closed: bool,
    closing: Option<Ending>,
    inbox: seq<Fwd>
  )

  /**
   When a stream was opened and when each of its Objects was written, as numbers of Objects taken from the
   queue by then.
   */
  datatype Placed = Placed(opener: nat, at: seq<nat>)

  /** The loop's own, the streams it has opened, and what it took from the queue to get there. */
  datatype Loop = Loop(
    prevID: u64,
    hasWritten: bool,
    writeFailed: bool,
    dropped: bool,
    withProps: bool,
    open: bool,
    lagExceeded: bool,
    ended: bool,
    written: seq<Fwd>,
    streams: seq<OutStream>,
    taken: seq<Fwd>,
    placed: seq<Placed>
  )

  datatype Writer = Writer(cfg: Config, gate: Gate, shared: Shared, loop: Loop)

  function NewWriter(cfg: Config, withProps: bool): Writer {
    Writer(cfg, Gate(None, None, false, [], [], []), Shared(0, None, false, None, []),
           Loop(0, false, false, false, withProps, false, false, false, [], [], [], []))
  }

  // ---------------------------------------------------------------------------
  // Admission
  // ---------------------------------------------------------------------------

  /** Notes a reason for not ending in a FIN; load displaces any other reason, and no other displaces one. */
  function MarkIncomplete(sh: Shared, code: ResetCode): Shared {
    if sh.incomplete.None? || code == EXCESSIVE_LOAD then sh.(incomplete := Some(code)) else sh
  }

  /** Stops admission; the first call decides how the stream ends. */
  function Close(sh: Shared, end: Ending): Shared {
    if sh.closing.Some? then sh else sh.(closed := true, closing := Some(end))
  }

  function Marked(sh: Shared, codes: seq<ResetCode>): Shared {
    if codes == [] then sh else MarkIncomplete(Marked(sh, codes[..|codes| - 1]), codes[|codes| - 1])
  }

  /** Of all the reasons a complete writer was marked with, the code kept is load if any was, else the first. */
  lemma {:induction false} MarksExact(sh: Shared, codes: seq<ResetCode>)
    requires sh.incomplete.None?
    ensures Marked(sh, codes) ==
      if codes == [] then sh
      else sh.(incomplete := Some(if EXCESSIVE_LOAD in codes then EXCESSIVE_LOAD else codes[0]))
    decreases |codes|
  {
    if codes != [] {
      var n := |codes| - 1;
      MarksExact(sh, codes[..n]);
      assert codes == codes[..n] + [codes[n]];
    }
  }

  function Closed(sh: Shared, ends: seq<Ending>): Shared {
    if ends == [] then sh else Close(Closed(sh, ends[..|ends| - 1]), ends[|ends| - 1])
  }

  /** However often a writer is closed, the first close decides and nothing else changes. */
  lemma {:induction false} FirstCloseDecides(sh: Shared, ends: seq<Ending>)
    requires sh.closing.None? && ends != []
    ensures Closed(sh, ends) == sh.(closed := true, closing := Some(ends[0]))
    decreases |ends|
  {
    var n := |ends| - 1;
    if n > 0 {
      FirstCloseDecides(sh, ends[..n]);
    } else {
      assert ends[..n] == [];
    }
  }

  predicate AboveAdmitted(g: Gate, id: u64) {
    g.lastAdmitted.Some? && id > g.lastAdmitted.value
  }

  /** What omitting an Object for verdict v does; above: its ID is above the last admitted. */
  function SkipEffect(sh: Shared, v: Verdict, above: bool): Shared {
    match v
    case SkipObject => MarkIncomplete(sh, CANCELLED)
    case SkipPaused => MarkIncomplete(sh, CANCELLED)
    case SkipGroup => Close(sh, Reset(CANCELLED))
    case SkipEnded => Close(sh, Reset(CANCELLED))
    case SkipBeforeStart => if above then MarkIncomplete(sh, CANCELLED) else sh
    case Forward => sh
  }

  function Skip(w: Writer, v: Verdict, id: u64, at: Option<nat>): Writer {
    var above := AboveAdmitted(w.gate, id);
    w.(gate := w.gate.(declined := w.gate.declined + [Declined(id, v, above, at, |w.gate.admitted|)]),
       shared := SkipEffect(w.shared, v, above))
  }

  predicate DropCapped(sh: Shared, cfg: Config) {
    cfg.maxDrops > 0 && sh.drops > cfg.maxDrops
  }

  predicate Overflows(sh: Shared, cfg: Config) {
    !sh.closed && |sh.inbox| >= cfg.capacity
  }

  /** Enqueues fwd without blocking, drops it on overflow, and does nothing once closed. */
  function Publish(sh: Shared, cfg: Config, fwd: Fwd): Shared {
    if sh.closed then sh
    else if |sh.inbox| < cfg.capacity then sh.(inbox := sh.inbox + [fwd])
    else
      var sh := MarkIncomplete(sh.(drops := sh.drops + 1), EXCESSIVE_LOAD);
      if DropCapped(sh, cfg) then Close(sh, Reset(EXCESSIVE_LOAD)) else sh
  }

  predicate Follows(g: Gate, pos: Pos) {
    g.lastPos.Some? && g.lastPos.value.src == pos.src && g.lastPos.value.seqNo + 1 == pos.seqNo
  }

  /** Offers the Object fwd, read at pos, to w, whose subscription answers v. */
  function Offer(w: Writer, pos: Pos, fwd: Fwd, v: Verdict): Writer {
    if v.Forward? then
      var taken := fwd.(follows := Follows(w.gate, pos));
      var lost := Overflows(w.shared, w.cfg);
      w.(gate := w.gate.(lastAdmitted := Some(fwd.absID), lastPos := if lost then None else Some(pos),
                         admitted := w.gate.admitted + [taken], offered := w.gate.offered + [Heard(pos, true, lost)]),
         shared := Publish(w.shared, w.cfg, taken))
    else Decline(w, pos, fwd.absID, v, fwd.at)
  }

  /** As Skip, and the next Object on the same inbound stream still counts as the next one. */
  function Decline(w: Writer, pos: Pos, id: u64, v: Verdict, at: nat): Writer {
    var r := Skip(w, v, id, Some(at));
    r.(gate := r.gate.(lastPos := if Follows(w.gate, pos) then Some(pos) else r.gate.lastPos,
                       offered := r.gate.offered + [Heard(pos, false, false)]))
  }

  /** w learns of an Object nobody will be sent: a loss if w wanted it, else as if declined. */
  function AgedOut(w: Writer, id: u64, v: Verdict): Writer {
    if v.Forward? then w.(shared := MarkIncomplete(w.shared, INTERNAL_ERROR)) else Skip(w, v, id, None)
  }

  /** The last contributor's leave: the writers close as the merged streams ended. */
  function TearDown(w: Writer, end: Ending): Writer {
    w.(gate := w.gate.(tornDown := true), shared := Close(w.shared, end))
  }

  // ---------------------------------------------------------------------------
  // The loop
  // ---------------------------------------------------------------------------

  /** Nothing can lie between the Object prevID and fwd, as far as the relay can tell. */
  predicate IsNextObject(fwd: Fwd, prevID: u64, dropped: bool) {
    || fwd.absID == Wrap(prevID + 1)
    || (!dropped && fwd.absID > prevID
        && (fwd.follows || (fwd.gap.Some? && Wrap(fwd.absID - fwd.gap.value) == Wrap(prevID + 1))))
  }

  predicate Stale(lp: Loop, fwd: Fwd) {
    lp.hasWritten && ((!lp.withProps && fwd.hasProps) || !IsNextObject(fwd, lp.prevID, lp.dropped))
  }

  /** The current stream, if any, ended. */
  function CloseOut(lp: Loop, end: Ending): Loop {
    if !lp.open || lp.streams == [] then lp
    else
      var n := |lp.streams| - 1;
      lp.(open := false, streams := lp.streams[n := lp.streams[n].(end := end)])
  }

  /** A new current stream; the one before it, if still open, ends in a reset. */
  function Reopen(lp: Loop, first: bool, code: ResetCode): Loop {
    var lp := CloseOut(lp, Reset(code));
    lp.(open := true, hasWritten := false, streams := lp.streams + [OutStream(first, lp.withProps, [], [], Open)])
  }

  function CodeForReset(sh: Shared): ResetCode {
    if sh.incomplete.Some? then sh.incomplete.value else CANCELLED
  }

  /** The loop stops writing, and publishers stop enqueueing. */
  function FailWrites(w: Writer, lp: Loop): Writer {
    w.(loop := lp.(writeFailed := true), shared := w.shared.(closed := true))
  }

  /** The Object ID Delta fwd is written with, against the last Object on its stream. */
  function DeltaFor(lp: Loop, fwd: Fwd): u64 {
    if !lp.hasWritten then fwd.absID else Wrap(fwd.absID - lp.prevID - 1)
  }

  function Extended(s: OutStream, fwd: Fwd, delta: u64): OutStream {
    s.(objs := s.objs + [fwd], deltas := s.deltas + [delta])
  }

  /** Writes fwd on the current stream. */
  function WriteOn(lp: Loop, fwd: Fwd): Loop {
    if lp.streams == [] then lp
    else
      var n := |lp.streams| - 1;
      lp.(streams := lp.streams[n := Extended(lp.streams[n], fwd, DeltaFor(lp, fwd))],
          prevID := fwd.absID, hasWritten := true, dropped := false, written := lp.written + [fwd])
  }

  /** An expired Object is dropped; a stream opened for it alone is reset. */
  function DropExpired(lp: Loop): Loop {
    var lp := lp.(dropped := true);
    if lp.hasWritten then lp else CloseOut(lp, Reset(CANCELLED))
  }

  /** What the transport and the clock do to one queued Object. */
  datatype Fate = Lags | OpenFails | Expires | TimesOut | WriteFails | Writes

  /** fwd needs a stream opened: none is open, or it is not the next Object of the one that is. */
  predicate NeedsOpen(lp: Loop, fwd: Fwd) {
    !lp.open || Stale(lp, fwd)
  }

  /** The loop with a stream open that fwd may go on; an Object with Properties turns them on for good. */
  function Prepare(lp: Loop, fwd: Fwd, code: ResetCode): Loop {
    var lp' := lp.(withProps := lp.withProps || fwd.hasProps);
    if NeedsOpen(lp, fwd) then Reopen(lp', fwd.first, code) else lp'
  }

  /** Handles one dequeued Object. */
  function Handle(w: Writer, fwd: Fwd, fate: Fate): Writer {
    var code := CodeForReset(w.shared);
    if fate.Lags? then w.(loop := w.loop.(lagExceeded := true))
    else if w.loop.writeFailed then w
    else if NeedsOpen(w.loop, fwd) && fate.OpenFails? then FailWrites(w, CloseOut(w.loop, Reset(code)))
    else Settle(w.(loop := Prepare(w.loop, fwd, code)), fwd, fate)
  }

  /** The write of fwd, its stream open: it may have expired, or the write may fail. */
  function Settle(w: Writer, fwd: Fwd, fate: Fate): Writer {
    if fate.Expires? then w.(loop := DropExpired(w.loop), shared := MarkIncomplete(w.shared, CANCELLED))
    else if fate.TimesOut? then FailWrites(w, CloseOut(w.loop, Reset(DELIVERY_TIMEOUT)))
    else if fate.WriteFails? then FailWrites(w, CloseOut(w.loop, Reset(INTERNAL_ERROR)))
    else w.(loop := WriteOn(w.loop, fwd))
  }

  function TakeNext(w: Writer, fate: Fate): Writer
    requires w.shared.inbox != []
  {
    var fwd, taken := w.shared.inbox[0], w.loop.taken + [w.shared.inbox[0]];
    var r := Handle(w.(shared := w.shared.(inbox := w.shared.inbox[1..])), fwd, fate);
    r.(loop := r.loop.(taken := taken, placed := Placements(w.loop, r.loop, |taken|)))
  }

  /** The record of where everything is, once the n-th Object taken has made before into after. */
  function Placements(before: Loop, after: Loop, n: nat): seq<Placed> {
    var ps := before.placed + if |after.streams| > |before.streams| then [Placed(n, [])] else [];
    if |after.written| > |before.written| && ps != [] then
      ps[|ps| - 1 := ps[|ps| - 1].(at := ps[|ps| - 1].at + [n])]
    else ps
  }

  /** How the current stream ends once the queue has drained. */
  function FinishEnding(w: Writer): Ending {
    if w.loop.lagExceeded then Reset(TOO_FAR_BEHIND)
    else if DropCapped(w.shared, w.cfg) then Reset(EXCESSIVE_LOAD)
    else if w.shared.closing.Some? && w.shared.closing.value.Reset? then w.shared.closing.value
    else if w.shared.incomplete.Some? then Reset(w.shared.incomplete.value)
    else Fin
  }

  function Finish(w: Writer): Writer {
    var slow := w.loop.lagExceeded || DropCapped(w.shared, w.cfg);
    w.(loop := CloseOut(w.loop, FinishEnding(w)).(ended := true),
       shared := if slow then w.shared.(closed := true) else w.shared)
  }

  // ---------------------------------------------------------------------------
  // Steps
  // ---------------------------------------------------------------------------

  datatype Step =
    | OfferStep(pos: Pos, fwd: Fwd, verdict: Verdict)
    | AgedOutStep(id: u64, verdict: Verdict)
    | TakeStep(fate: Fate)
    | TearDownStep(end: Ending)
    | FinishStep

  /** When each step can happen: no Object is offered once the last contributor has left. */
  predicate Enabled(w: Writer, s: Step) {
    match s
    case OfferStep(_, _, _) => !w.gate.tornDown
    case AgedOutStep(_, _) => !w.gate.tornDown
    case TakeStep(_) => w.shared.inbox != [] && !w.loop.lagExceeded && !w.loop.ended
    case TearDownStep(end) => !w.gate.tornDown && !end.Open?
    case FinishStep =>
      !w.loop.ended && (w.loop.lagExceeded || (w.shared.inbox == [] && w.shared.closing.Some?))
  }

  function Next(w: Writer, s: Step): Writer
    requires Enabled(w, s)
  {
    match s
    case OfferStep(pos, fwd, v) => Offer(w, pos, fwd, v)
    case AgedOutStep(id, v) => AgedOut(w, id, v)
    case TakeStep(fate) => TakeNext(w, fate)
    case TearDownStep(end) => TearDown(w, end)
    case FinishStep => Finish(w)
  }

  lemma {:induction false} StepKeepsConfig(w: Writer, s: Step)
    requires Enabled(w, s)
    ensures Next(w, s).cfg == w.cfg
  {
  }

  lemma {:induction false} TornDownOnlyBy(w: Writer, s: Step)
    requires Enabled(w, s)
    ensures Next(w, s).gate.tornDown <==> w.gate.tornDown || s.TearDownStep?
  {
  }

  /** A step closes the writer for a reset, unless it tears it down. */
  lemma {:induction false} ClosingAfter(w: Writer, s: Step)
    requires Enabled(w, s)
    ensures var r := Next(w, s).shared.closing;
      || r == w.shared.closing
      || (r.Some? && (r.value.Reset? || (s.TearDownStep? && r.value == s.end)))
  {
  }

  /** Only an offer adds to what a writer admitted, or to the forwarded Objects it declined. */
  lemma {:induction false} GateAfter(w: Writer, s: Step)
    requires Enabled(w, s)
    ensures var g, r := w.gate, Next(w, s).gate;
      if s.OfferStep? && s.verdict.Forward? then
        r.admitted == g.admitted + [s.fwd.(follows := Follows(g, s.pos))] && r.declined == g.declined
      else
        && r.admitted == g.admitted && r.lastAdmitted == g.lastAdmitted
        && ((r.declined == g.declined && !s.OfferStep?)
            || (|r.declined| == |g.declined| + 1 && r.declined[..|g.declined|] == g.declined
                && r.declined[|g.declined|].at == (if s.OfferStep? then Some(s.fwd.at) else None)
                && (s.OfferStep? ==> r.declined[|g.declined|].absID == s.fwd.absID)))
  {
  }

  // ---------------------------------------------------------------------------
  // FIN means everything was written
  // ---------------------------------------------------------------------------

  /** Nothing so far forces the stream to end in a reset. */
  predicate Lossless(sh: Shared, lp: Loop) {
    && sh.incomplete.None? && !lp.writeFailed && !lp.lagExceeded
    && !(sh.closing.Some? && sh.closing.value.Reset?)
  }

  /** A declined Object that still allows a FIN. */
  predicate Harmless(d: Declined) {
    d.verdict.SkipBeforeStart? && !d.above
  }

  /** While a FIN is possible everything admitted is written or queued, and nothing else was due. */
  ghost predicate NothingLost(g: Gate, sh: Shared, lp: Loop) {
    && lp.written + sh.inbox == g.admitted
    && (forall d :: d in g.declined ==> Harmless(d))
    && (sh.closed ==> g.tornDown)
  }

  ghost predicate FinInv(w: Writer) {
    && (Lossless(w.shared, w.loop) ==> NothingLost(w.gate, w.shared, w.loop))
    && (w.gate.tornDown ==> w.shared.closing.Some?)
    && (w.shared.closing.Some? ==> w.shared.closed)
    && (w.shared.drops > 0 ==> w.shared.incomplete.Some?)
    && (w.loop.open ==> w.loop.streams != [] && !w.loop.writeFailed && !w.loop.ended)
  }

  lemma {:induction false} SkipKeepsFin(w: Writer, v: Verdict, id: u64, at: Option<nat>)
    requires FinInv(w) && !w.gate.tornDown && !v.Forward?
    ensures FinInv(Skip(w, v, id, at))
  {
    var d := Declined(id, v, AboveAdmitted(w.gate, id), at, |w.gate.admitted|);
    var r := Skip(w, v, id, at);
    if Lossless(r.shared, r.loop) {
      assert v.SkipBeforeStart? && Harmless(d);
      assert forall e :: e in r.gate.declined ==> e in w.gate.declined || e == d;
    }
  }

  lemma {:induction false} OfferKeepsFin(w: Writer, pos: Pos, fwd: Fwd, v: Verdict)
    requires FinInv(w) && !w.gate.tornDown
    ensures FinInv(Offer(w, pos, fwd, v))
  {
    if v.Forward? {
      var taken := fwd.(follows := Follows(w.gate, pos));
      assert w.loop.written + (w.shared.inbox + [taken]) == (w.loop.written + w.shared.inbox) + [taken];
    } else {
      SkipKeepsFin(w, v, fwd.absID, Some(fwd.at));
    }
  }

  lemma {:induction false} PrepareOpens(lp: Loop, fwd: Fwd, code: ResetCode)
    requires lp.open ==> lp.streams != []
    ensures var r := Prepare(lp, fwd, code);
      && r.open && r.streams != [] && r.written == lp.written
      && (r.writeFailed, r.lagExceeded, r.ended) == (lp.writeFailed, lp.lagExceeded, lp.ended)
  {
  }

  lemma {:induction false} TakeKeepsFin(w: Writer, fate: Fate)
    requires FinInv(w) && Enabled(w, TakeStep(fate))
    ensures FinInv(TakeNext(w, fate))
  {
    hide Prepare;
    var fwd, rest := w.shared.inbox[0], w.shared.inbox[1..];
    assert w.loop.written + w.shared.inbox == (w.loop.written + [fwd]) + rest;
    PrepareOpens(w.loop, fwd, CodeForReset(w.shared.(inbox := rest)));
  }

  lemma {:induction false} FinInvStep(w: Writer, s: Step)
    requires FinInv(w) && Enabled(w, s)
    ensures FinInv(Next(w, s))
  {
    hide Offer, TakeNext;
    match s
    case OfferStep(pos, fwd, v) => OfferKeepsFin(w, pos, fwd, v);
    case AgedOutStep(id, v) =>
      if !v.Forward? {
        SkipKeepsFin(w, v, id, None);
      }
    case TakeStep(fate) => TakeKeepsFin(w, fate);
    case TearDownStep(end) =>
    case FinishStep =>
  }

  /** What a step does that rules a FIN out. */
  predicate Loses(w: Writer, s: Step) {
    match s
    case OfferStep(_, fwd, v) =>
      if v.Forward? then Overflows(w.shared, w.cfg) else SkipLoses(w, v, fwd.absID)
    case AgedOutStep(id, v) => v.Forward? || SkipLoses(w, v, id)
    case TakeStep(fate) =>
      || fate.Lags?
      || (!w.loop.writeFailed
          && (fate.Expires? || fate.TimesOut? || fate.WriteFails?
              || (fate.OpenFails? && w.shared.inbox != [] && NeedsOpen(w.loop, w.shared.inbox[0]))))
    case TearDownStep(end) => end.Reset?
    case FinishStep => false
  }

  predicate SkipLoses(w: Writer, v: Verdict, id: u64) {
    !v.SkipBeforeStart? || AboveAdmitted(w.gate, id)
  }

  /** Exactly the steps that lose something rule a FIN out, and nothing ever rules it in again. */
  lemma {:induction false} LosslessStep(w: Writer, s: Step)
    requires FinInv(w) && Enabled(w, s)
    ensures Lossless(Next(w, s).shared, Next(w, s).loop) <==> Lossless(w.shared, w.loop) && !Loses(w, s)
  {
  }

  /** The queue drained, an open stream FINs exactly if nothing was lost. */
  lemma {:induction false} FinishExact(w: Writer)
    requires FinInv(w) && Enabled(w, FinishStep) && w.loop.open
    ensures FinishEnding(w).Fin? <==> Lossless(w.shared, w.loop)
  {
  }

  /** Past the drop cap: more Objects were dropped than the subscription may lose. */
  predicate TooManyDrops(w: Writer) {
    w.cfg.maxDrops > 0 && w.shared.drops > w.cfg.maxDrops
  }

  /**
   How the loop ends an open stream: TOO_FAR_BEHIND for lag, EXCESSIVE_LOAD for drops past the cap, then as the
   merged streams reset, then for the reason the stream is incomplete, and else a FIN.
   */
  lemma {:induction false} EndingExact(w: Writer)
    requires w.loop.open && w.loop.streams != []
    ensures var n := |w.loop.streams| - 1;
      Finish(w).loop.streams == w.loop.streams[n := w.loop.streams[n].(end :=
        if w.loop.lagExceeded then Reset(0x5)
        else if TooManyDrops(w) then Reset(0x9)
        else match (w.shared.closing, w.shared.incomplete)
             case (Some(Reset(code)), _) => Reset(code)
             case (_, Some(code)) => Reset(code)
             case _ => Fin)]
    ensures Finish(w).shared == w.shared.(closed := w.shared.closed || w.loop.lagExceeded || TooManyDrops(w))
    ensures Finish(w).loop.ended
  {
  }

  // ---------------------------------------------------------------------------
  // Outbound streams are well formed
  // ---------------------------------------------------------------------------

  /** prev + delta + 1, or None past 2^64 - 1. */
  function NextSubgroupObjectID(prev: u64, delta: u64): Option<u64> {
    if prev + delta + 1 <= MAX_U64 then Some(prev + delta + 1) else None
  }

  /** The Object IDs a reader of a Subgroup stream resolves; the first delta is the ID itself. */
  function ReadIDs(deltas: seq<u64>): (r: Option<seq<u64>>)
    ensures r.Some? ==> |r.value| == |deltas|
  {
    if deltas == [] then Some([])
    else
      var n := |deltas| - 1;
      var before := ReadIDs(deltas[..n]);
      if before.None? then None
      else if n == 0 then Some([deltas[0]])
      else
        var id := NextSubgroupObjectID(before.value[n - 1], deltas[n]);
        if id.None? then None else Some(before.value + [id.value])
  }

  function IDs(objs: seq<Fwd>): (r: seq<u64>)
    ensures |r| == |objs|
    ensures forall i :: 0 <= i < |objs| ==> r[i] == objs[i].absID
  {
    seq(|objs|, i requires 0 <= i < |objs| => objs[i].absID)
  }

  ghost predicate Ascending(ids: seq<u64>) {
    forall i, j :: 0 <= i < j < |ids| ==> ids[i] < ids[j]
  }

  ghost predicate WellFormed(s: OutStream) {
    && Ascending(IDs(s.objs))
    && ReadIDs(s.deltas) == Some(IDs(s.objs))
    && (s.objs != [] ==> (s.first <==> s.objs[0].first))
    && (forall i :: 0 <= i < |s.objs| && s.objs[i].hasProps ==> s.withProps)
  }

  lemma {:induction false} IDsExtend(objs: seq<Fwd>, fwd: Fwd)
    ensures IDs(objs + [fwd]) == IDs(objs) + [fwd.absID]
  {
  }

  /** The delta of one more Object reads back to its ID exactly if that is above the last. */
  lemma {:induction false} ReadExtend(deltas: seq<u64>, ids: seq<u64>, id: u64)
    requires ReadIDs(deltas) == Some(ids)
    ensures var delta := if ids == [] then id else Wrap(id - ids[|ids| - 1] - 1);
      ReadIDs(deltas + [delta]) == Some(ids + [id]) <==> ids == [] || id > ids[|ids| - 1]
  {
    hide Wrap, NextSubgroupObjectID;
    var n := |deltas|;
    var delta := if ids == [] then id else Wrap(id - ids[n - 1] - 1);
    assert (deltas + [delta])[..n] == deltas;
    if n > 0 {
      DeltaExact(ids[n - 1], id);
      var next := NextSubgroupObjectID(ids[n - 1], delta);
      if next.Some? {
        assert (ids + [next.value])[n] == next.value && (ids + [id])[n] == id;
      }
    }
  }

  lemma {:induction false} DeltaExact(prev: u64, id: u64)
    ensures NextSubgroupObjectID(prev, Wrap(id - prev - 1)) == Some(id) <==> id > prev
  {
  }

  lemma {:induction false} AscendingExtend(ids: seq<u64>, id: u64)
    requires Ascending(ids)
    ensures Ascending(ids + [id]) <==> ids == [] || id > ids[|ids| - 1]
  {
    var r, n := ids + [id], |ids|;
    assert r[n] == id && forall i :: 0 <= i < n ==> r[i] == ids[i];
  }

  /** One more Object on a well-formed stream keeps it so exactly if its ID is above the last. */
  lemma {:induction false} ExtendExact(s: OutStream, fwd: Fwd, prev: u64)
    requires WellFormed(s) && (fwd.hasProps ==> s.withProps)
    requires if s.objs == [] then s.first <==> fwd.first else prev == s.objs[|s.objs| - 1].absID
    ensures var delta := if s.objs == [] then fwd.absID else Wrap(fwd.absID - prev - 1);
      WellFormed(Extended(s, fwd, delta)) <==> s.objs == [] || fwd.absID > prev
  {
    hide ReadIDs, Ascending, Wrap;
    IDsExtend(s.objs, fwd);
    ReadExtend(s.deltas, IDs(s.objs), fwd.absID);
    AscendingExtend(IDs(s.objs), fwd.absID);
  }

  function Concat(streams: seq<OutStream>): seq<Fwd> {
    if streams == [] then [] else Concat(streams[..|streams| - 1]) + streams[|streams| - 1].objs
  }

  /** Every stream well formed and ended, save the current one, and together they hold what was written. */
  ghost predicate StreamsGood(lp: Loop) {
    && (forall i :: 0 <= i < |lp.streams| ==> WellFormed(lp.streams[i]))
    && (forall i :: 0 <= i < |lp.streams| ==> (lp.streams[i].end.Open? <==> lp.open && i == |lp.streams| - 1))
    && (lp.open ==> lp.streams != [])
    && Concat(lp.streams) == lp.written
  }

  /** Where the current stream stands: its last Object, if it has one, and whether it carries Properties. */
  ghost predicate AtCursor(s: OutStream, lp: Loop) {
    && s.withProps == lp.withProps
    && (lp.hasWritten <==> s.objs != [])
    && (lp.hasWritten ==> s.objs[|s.objs| - 1].absID == lp.prevID)
  }

  /** Between two Objects of the loop, an open stream has an Object on it. */
  ghost predicate StreamInv(lp: Loop) {
    && StreamsGood(lp)
    && (lp.open ==> lp.hasWritten && AtCursor(lp.streams[|lp.streams| - 1], lp))
    && (lp.hasWritten && !lp.open ==> lp.writeFailed || lp.ended)
  }

  lemma {:induction false} ConcatUpdate(streams: seq<OutStream>, s: OutStream)
    requires streams != []
    ensures Concat(streams[|streams| - 1 := s]) == Concat(streams[..|streams| - 1]) + s.objs
  {
    var n := |streams| - 1;
    assert streams[n := s][..n] == streams[..n];
  }

  lemma {:induction false} CloseOutGood(lp: Loop, end: Ending)
    requires StreamsGood(lp) && !end.Open?
    ensures StreamsGood(CloseOut(lp, end)) && !CloseOut(lp, end).open
  {
    if lp.open {
      var n := |lp.streams| - 1;
      ConcatUpdate(lp.streams, lp.streams[n].(end := end));
    }
  }

  lemma {:induction false} ReopenGood(lp: Loop, first: bool, code: ResetCode)
    requires StreamsGood(lp)
    ensures var r := Reopen(lp, first, code);
      && StreamsGood(r) && r.open && AtCursor(r.streams[|r.streams| - 1], r) && !r.hasWritten
      && r.streams[|r.streams| - 1].first == first
  {
    hide WellFormed, CloseOut;
    CloseOutGood(lp, Reset(code));
    var c := CloseOut(lp, Reset(code));
    assert c.withProps == lp.withProps && c.written == lp.written by {
      CloseOutKeeps(lp, Reset(code));
    }
    FreshIsWellFormed(first, c.withProps);
    var r := Reopen(lp, first, code);
    assert r.streams[..|r.streams| - 1] == c.streams;
    assert Concat(r.streams) == Concat(c.streams) + [];
  }

  lemma {:induction false} CloseOutKeeps(lp: Loop, end: Ending)
    ensures var r := CloseOut(lp, end); r.withProps == lp.withProps && r.written == lp.written
  {
  }

  lemma {:induction false} FreshIsWellFormed(first: bool, withProps: bool)
    ensures WellFormed(OutStream(first, withProps, [], [], Open))
  {
  }

  /**
   A stream ends once: ending the current one, or opening another after it, changes how no ended stream
   ended and what no stream carries, and leaves at most the newest open.
   */
  lemma {:induction false} StreamsEndOnce(lp: Loop, end: Ending, first: bool, code: ResetCode, i: nat)
    requires StreamsGood(lp) && !end.Open? && i < |lp.streams|
    ensures var c, r := CloseOut(lp, end).streams, Reopen(lp, first, code).streams;
      && |c| == |lp.streams| && |r| == |lp.streams| + 1
      && c[i] == lp.streams[i].(end := if lp.streams[i].end.Open? then end else lp.streams[i].end)
      && r[i] == lp.streams[i].(end := if lp.streams[i].end.Open? then Reset(code) else lp.streams[i].end)
      && r[|lp.streams|] == OutStream(first, lp.withProps, [], [], Open)
  {
    hide WellFormed, Concat;
  }

  /** The one way isNextObject accepts a lower ID: 2^64 - 1 plus one wraps to 0. */
  predicate WrapsToZero(lp: Loop, fwd: Fwd) {
    lp.open && lp.hasWritten && lp.prevID == MAX_U64 && fwd.absID == 0 && (fwd.hasProps ==> lp.withProps)
  }

  lemma {:induction false} PrepareGood(lp: Loop, fwd: Fwd, code: ResetCode)
    requires StreamInv(lp) && !lp.writeFailed
    ensures var r := Prepare(lp, fwd, code);
      && StreamsGood(r) && r.open && AtCursor(r.streams[|r.streams| - 1], r)
      && (fwd.hasProps ==> r.withProps)
      && (!r.hasWritten ==> r.streams[|r.streams| - 1].first == fwd.first)
      && (r.hasWritten ==> (fwd.absID > r.prevID <==> !WrapsToZero(lp, fwd)))
      && (WrapsToZero(lp, fwd) ==> r.hasWritten)
  {
    hide WellFormed, Concat;
    var lp' := lp.(withProps := lp.withProps || fwd.hasProps);
    if NeedsOpen(lp, fwd) {
      ReopenGood(lp', fwd.first, code);
    }
  }

  lemma {:induction false} ReplaceLast(lp: Loop, after: Loop, s: OutStream)
    requires StreamsGood(lp) && lp.open && s.end.Open?
    requires after.open && after.streams == lp.streams[|lp.streams| - 1 := s]
    requires Concat(after.streams) == after.written
    ensures StreamsGood(after) <==> WellFormed(s)
  {
    hide WellFormed, Concat;
    assert after.streams[|lp.streams| - 1] == s;
  }

  lemma {:induction false} LastGood(lp: Loop, fwd: Fwd)
    requires StreamsGood(lp) && lp.open
    ensures WellFormed(lp.streams[|lp.streams| - 1]) && lp.streams[|lp.streams| - 1].end.Open?
    ensures Concat(WriteOn(lp, fwd).streams) == WriteOn(lp, fwd).written
  {
    hide WellFormed;
    var n := |lp.streams| - 1;
    ConcatUpdate(lp.streams, Extended(lp.streams[n], fwd, DeltaFor(lp, fwd)));
    assert Concat(lp.streams) == Concat(lp.streams[..n]) + lp.streams[n].objs;
  }

  lemma {:induction false} WriteOnExact(lp: Loop, fwd: Fwd)
    requires StreamsGood(lp) && lp.open && lp.streams != [] && !lp.writeFailed
    requires AtCursor(lp.streams[|lp.streams| - 1], lp)
    requires fwd.hasProps ==> lp.withProps
    requires !lp.hasWritten ==> lp.streams[|lp.streams| - 1].first == fwd.first
    ensures StreamInv(WriteOn(lp, fwd)) <==> !lp.hasWritten || fwd.absID > lp.prevID
  {
    hide StreamsGood, WellFormed, Concat;
    var n := |lp.streams| - 1;
    LastGood(lp, fwd);
    var s := Extended(lp.streams[n], fwd, DeltaFor(lp, fwd));
    var after := WriteOn(lp, fwd);
    assert after.streams[n] == s;
    ExtendExact(lp.streams[n], fwd, lp.prevID);
    ReplaceLast(lp, after, s);
  }

  /** Writing an Object keeps the streams well formed exactly if its ID does not wrap. */
  lemma {:induction false} WriteExact(lp: Loop, fwd: Fwd, code: ResetCode)
    requires StreamInv(lp) && !lp.writeFailed
    ensures StreamInv(WriteOn(Prepare(lp, fwd, code), fwd)) <==> !WrapsToZero(lp, fwd)
  {
    PrepareGood(lp, fwd, code);
    hide StreamsGood, AtCursor, Prepare, WriteOn;
    assert Prepare(lp, fwd, code).writeFailed == lp.writeFailed by {
      PrepareOpens(lp, fwd, code);
    }
    WriteOnExact(Prepare(lp, fwd, code), fwd);
  }

  lemma {:induction false} DropExpiredGood(lp: Loop, fwd: Fwd, code: ResetCode)
    requires StreamInv(lp) && !lp.writeFailed
    ensures StreamInv(DropExpired(Prepare(lp, fwd, code)))
  {
    PrepareGood(lp, fwd, code);
    hide WellFormed, Prepare, Concat;
    var r := Prepare(lp, fwd, code).(dropped := true);
    CloseOutGood(r, Reset(CANCELLED));
  }

  /** No step of the loop breaks an outbound stream unless an Object ID wraps. */
  lemma {:induction false} HandleKeepsStreams(w: Writer, fwd: Fwd, fate: Fate)
    requires StreamInv(w.loop)
    requires !WrapsToZero(w.loop, fwd)
    ensures StreamInv(Handle(w, fwd, fate).loop)
  {
    hide WellFormed, Concat;
    if w.loop.writeFailed || fate.Lags? {
    } else {
      var code := CodeForReset(w.shared);
      PrepareGood(w.loop, fwd, code);
      WriteExact(w.loop, fwd, code);
      DropExpiredGood(w.loop, fwd, code);
      hide Prepare, WriteOn, DropExpired;
      CloseOutGood(w.loop, Reset(code));
      CloseOutGood(Prepare(w.loop, fwd, code), Reset(DELIVERY_TIMEOUT));
      CloseOutGood(Prepare(w.loop, fwd, code), Reset(INTERNAL_ERROR));
    }
  }

  // ---------------------------------------------------------------------------
  // Whole runs
  // ---------------------------------------------------------------------------

  /** ws are the states of a writer taking the steps ss, from its opening. */
  ghost predicate IsRun(ws: seq<Writer>, ss: seq<Step>) {
    && |ws| == |ss| + 1
    && ws[0] == NewWriter(ws[0].cfg, ws[0].loop.withProps)
    && (forall i :: 0 <= i < |ss| ==> Enabled(ws[i], ss[i]) && ws[i + 1] == Next(ws[i], ss[i]))
  }

  predicate NoFin(lp: Loop) {
    forall i :: 0 <= i < |lp.streams| ==> !lp.streams[i].end.Fin?
  }

  /** A FIN is the last thing a writer does, with nothing lost and nothing queued. */
  ghost predicate FinIsFinal(w: Writer) {
    || NoFin(w.loop)
    || (w.loop.ended && Lossless(w.shared, w.loop) && w.shared.inbox == [] && w.shared.closing.Some?)
  }

  lemma {:induction false} PrepareAddsNoFin(lp: Loop, fwd: Fwd, code: ResetCode)
    requires NoFin(lp)
    ensures NoFin(Prepare(lp, fwd, code))
  {
  }

  lemma {:induction false} TakeAddsNoFin(w: Writer, fate: Fate)
    requires NoFin(w.loop) && w.shared.inbox != []
    ensures NoFin(TakeNext(w, fate).loop)
  {
    hide Prepare;
    PrepareAddsNoFin(w.loop, w.shared.inbox[0], CodeForReset(w.shared));
  }

  lemma {:induction false} FinIsFinalStep(w: Writer, s: Step)
    requires FinInv(w) && FinIsFinal(w) && Enabled(w, s)
    ensures FinIsFinal(Next(w, s))
  {
    match s
    case OfferStep(_, _, _) =>
    case AgedOutStep(_, _) =>
    case TearDownStep(_) =>
    case TakeStep(fate) => TakeAddsNoFin(w, fate);
    case FinishStep =>
      if !NoFin(Finish(w).loop) {
        FinishExact(w);
      }
  }

  lemma {:induction false} FinRun(ws: seq<Writer>, ss: seq<Step>)
    requires IsRun(ws, ss)
    ensures FinInv(ws[|ss|]) && FinIsFinal(ws[|ss|])
    decreases |ss|
  {
    hide FinInv, FinIsFinal, Enabled, Next;
    if ss == [] {
      assert FinInv(ws[0]) && FinIsFinal(ws[0]) by {
        NewWriterIsFin(ws[0].cfg, ws[0].loop.withProps);
      }
    } else {
      var n := |ss| - 1;
      FinRun(ws[..n + 1], ss[..n]);
      FinInvStep(ws[n], ss[n]);
      FinIsFinalStep(ws[n], ss[n]);
    }
  }

  lemma {:induction false} NewWriterIsFin(cfg: Config, withProps: bool)
    ensures FinInv(NewWriter(cfg, withProps)) && FinIsFinal(NewWriter(cfg, withProps))
  {
  }

  /**
   In every run, a stream that ended in a FIN means that everything admitted was written, in order, and
   that everything declined was before the Start Location and not above an admitted Object.
   */
  lemma {:induction false} FinMeansComplete(ws: seq<Writer>, ss: seq<Step>, k: nat)
    requires IsRun(ws, ss)
    requires k < |ws[|ss|].loop.streams| && ws[|ss|].loop.streams[k].end.Fin?
    ensures ws[|ss|].loop.written == ws[|ss|].gate.admitted
    ensures forall d :: d in ws[|ss|].gate.declined ==> Harmless(d)
  {
    FinRun(ws, ss);
  }

  /** No Object 0 comes after an Object 2^64 - 1. */
  ghost predicate NoWrap(s: seq<Fwd>) {
    forall i, j :: 0 <= i < j < |s| && s[i].absID == MAX_U64 ==> s[j].absID != 0
  }

  ghost predicate HasMax(s: seq<Fwd>) {
    exists i :: 0 <= i < |s| && s[i].absID == MAX_U64
  }

  /** What is written or queued wraps no more than what was admitted. */
  ghost predicate QueueInv(w: Writer) {
    && NoWrap(w.loop.written + w.shared.inbox)
    && (HasMax(w.loop.written + w.shared.inbox) ==> HasMax(w.gate.admitted))
  }

  lemma {:induction false} LastWritten(lp: Loop)
    requires StreamInv(lp) && lp.open
    ensures lp.written != [] && lp.written[|lp.written| - 1].absID == lp.prevID
  {
    hide WellFormed;
    var n := |lp.streams| - 1;
    assert lp.written == Concat(lp.streams[..n]) + lp.streams[n].objs;
  }

  lemma {:induction false} NoWrapAppend(s: seq<Fwd>, t: seq<Fwd>, fwd: Fwd)
    requires NoWrap(s) && (HasMax(s) ==> HasMax(t)) && NoWrap(t + [fwd])
    ensures NoWrap(s + [fwd]) && (HasMax(s + [fwd]) ==> HasMax(t + [fwd]))
  {
    if HasMax(t) {
      var i :| 0 <= i < |t| && t[i].absID == MAX_U64;
      assert (t + [fwd])[i].absID == MAX_U64 && (t + [fwd])[|t|] == fwd;
    }
    assert (t + [fwd])[|t|] == fwd;
    if HasMax(s + [fwd]) && !HasMax(t) {
      assert fwd.absID == MAX_U64;
    }
  }

  lemma {:induction false} OfferKeepsQueue(w: Writer, pos: Pos, fwd: Fwd, v: Verdict)
    requires QueueInv(w) && NoWrap(Offer(w, pos, fwd, v).gate.admitted)
    ensures QueueInv(Offer(w, pos, fwd, v))
  {
    if v.Forward? {
      var taken := fwd.(follows := Follows(w.gate, pos));
      var s := w.loop.written + w.shared.inbox;
      NoWrapAppend(s, w.gate.admitted, taken);
      assert w.loop.written + (w.shared.inbox + [taken]) == s + [taken];
      if HasMax(w.gate.admitted) {
        var i :| 0 <= i < |w.gate.admitted| && w.gate.admitted[i].absID == MAX_U64;
        assert (w.gate.admitted + [taken])[i].absID == MAX_U64;
      }
    }
  }

  lemma {:induction false} DropOne(s: seq<Fwd>, t: seq<Fwd>)
    requires t != [] && NoWrap(s + t)
    ensures NoWrap(s + t[1..]) && (HasMax(s + t[1..]) ==> HasMax(s + t))
  {
    var a, b := s + t, s + t[1..];
    assert forall i :: 0 <= i < |b| ==> b[i] == a[if i < |s| then i else i + 1];
  }

  lemma {:induction false} HeadDoesNotWrap(w: Writer)
    requires QueueInv(w) && StreamInv(w.loop) && w.shared.inbox != []
    ensures !WrapsToZero(w.loop, w.shared.inbox[0])
  {
    hide StreamInv;
    var s := w.loop.written + w.shared.inbox;
    assert s[|w.loop.written|] == w.shared.inbox[0];
    if w.loop.open {
      LastWritten(w.loop);
      assert s[|w.loop.written| - 1] == w.loop.written[|w.loop.written| - 1];
    }
  }

  lemma {:induction false} TakeKeepsQueue(w: Writer, fate: Fate)
    requires QueueInv(w) && FinInv(w) && Enabled(w, TakeStep(fate))
    ensures QueueInv(TakeNext(w, fate))
  {
    hide NoWrap, HasMax, Prepare;
    var fwd, rest := w.shared.inbox[0], w.shared.inbox[1..];
    assert w.loop.written + w.shared.inbox == (w.loop.written + [fwd]) + rest;
    DropOne(w.loop.written, w.shared.inbox);
    PrepareOpens(w.loop, fwd, CodeForReset(w.shared.(inbox := rest)));
  }

  lemma {:induction false} TakeKeepsStreams(w: Writer, fate: Fate)
    requires QueueInv(w) && StreamInv(w.loop) && w.shared.inbox != []
    ensures StreamInv(TakeNext(w, fate).loop)
  {
    hide QueueInv, Handle, WellFormed;
    HeadDoesNotWrap(w);
    HandleKeepsStreams(w.(shared := w.shared.(inbox := w.shared.inbox[1..])), w.shared.inbox[0], fate);
  }

  ghost predicate StreamRunInv(w: Writer) {
    FinInv(w) && StreamInv(w.loop) && QueueInv(w)
  }

  lemma {:induction false} FinishKeepsStreams(w: Writer)
    requires StreamRunInv(w) && Enabled(w, FinishStep)
    ensures StreamInv(Finish(w).loop) && QueueInv(Finish(w))
  {
    CloseOutGood(w.loop, FinishEnding(w));
  }

  lemma {:induction false} StreamRunInvStep(w: Writer, s: Step)
    requires StreamRunInv(w) && Enabled(w, s) && NoWrap(Next(w, s).gate.admitted)
    ensures StreamRunInv(Next(w, s))
  {
    FinInvStep(w, s);
    hide StreamsGood, NoWrap, HasMax;
    match s
    case OfferStep(pos, fwd, v) => OfferKeepsQueue(w, pos, fwd, v);
    case AgedOutStep(_, _) =>
    case TearDownStep(_) =>
    case TakeStep(fate) =>
      TakeKeepsQueue(w, fate);
      TakeKeepsStreams(w, fate);
    case FinishStep => FinishKeepsStreams(w);
  }

  lemma {:induction false} StreamRun(ws: seq<Writer>, ss: seq<Step>)
    requires IsRun(ws, ss) && NoWrap(ws[|ss|].gate.admitted)
    ensures StreamRunInv(ws[|ss|])
    decreases |ss|
  {
    if ss == [] {
    } else {
      var n := |ss| - 1;
      AdmittedGrows(ws[n], ss[n]);
      hide StreamRunInv, Enabled, Next;
      StreamRun(ws[..n + 1], ss[..n]);
      StreamRunInvStep(ws[n], ss[n]);
    }
  }

  lemma {:induction false} AdmittedGrows(w: Writer, s: Step)
    requires Enabled(w, s)
    ensures NoWrap(Next(w, s).gate.admitted) ==> NoWrap(w.gate.admitted)
  {
    var after := Next(w, s).gate.admitted;
    assert |w.gate.admitted| <= |after| && after[..|w.gate.admitted|] == w.gate.admitted;
    if NoWrap(after) {
      forall i, j | 0 <= i < j < |w.gate.admitted| && w.gate.admitted[i].absID == MAX_U64
        ensures w.gate.admitted[j].absID != 0
      {
        assert after[i] == w.gate.admitted[i] && after[j] == w.gate.admitted[j];
      }
    }
  }

  /**
   In every run that admits no Object 0 after an Object 2^64 - 1, each outbound stream ascends, reads
   back to the IDs forwarded, starts at a first Object if it says so, and together the streams hold what
   was written.
   */
  lemma {:induction false} StreamsWellFormed(ws: seq<Writer>, ss: seq<Step>)
    requires IsRun(ws, ss) && NoWrap(ws[|ss|].gate.admitted)
    ensures forall i :: 0 <= i < |ws[|ss|].loop.streams| ==> WellFormed(ws[|ss|].loop.streams[i])
    ensures Concat(ws[|ss|].loop.streams) == ws[|ss|].loop.written
  {
    StreamRun(ws, ss);
  }

  /** What an idle writer does with one Object that is then written. */
  lemma {:induction false} OfferThenWrite(w: Writer, pos: Pos, fwd: Fwd) returns (offered: Writer, wrote: Writer)
    requires w.shared.inbox == [] && !w.shared.closed && !w.gate.tornDown && w.cfg.capacity > 0
    requires !w.loop.lagExceeded && !w.loop.ended && !w.loop.writeFailed
    requires fwd.follows == Follows(w.gate, pos)
    ensures Enabled(w, OfferStep(pos, fwd, Forward)) && offered == Next(w, OfferStep(pos, fwd, Forward))
    ensures Enabled(offered, TakeStep(Writes)) && wrote == Next(offered, TakeStep(Writes))
    ensures wrote.loop == WriteOn(Prepare(w.loop, fwd, CodeForReset(w.shared)), fwd).(
        taken := wrote.loop.taken, placed := wrote.loop.placed)
    ensures wrote.shared == w.shared && wrote.gate == offered.gate && wrote.cfg == w.cfg
    ensures wrote.gate.lastPos == Some(pos) && !wrote.gate.tornDown
  {
    offered := Next(w, OfferStep(pos, fwd, Forward));
    assert offered.shared == w.shared.(inbox := [fwd]);
    wrote := Next(offered, TakeStep(Writes));
    assert wrote.shared == w.shared;
  }

  /** Object 2^64 - 1 and then Object 0 go on one stream, which no reader can resolve. */
  lemma {:induction false} WrapHappens() returns (ws: seq<Writer>, ss: seq<Step>)
    ensures IsRun(ws, ss)
    ensures |ws[|ss|].loop.streams| == 1 && !WellFormed(ws[|ss|].loop.streams[0])
    ensures ReadIDs(ws[|ss|].loop.streams[0].deltas).None?
  {
    hide Next, Enabled;
    var top := Fwd(MAX_U64, true, false, false, None, 0);
    var zero := Fwd(0, false, false, false, None, 1);
    var w0 := NewWriter(Config(0, 2, 0), false);
    ss := [OfferStep(Pos(0, 1), top, Forward), TakeStep(Writes), OfferStep(Pos(1, 1), zero, Forward), TakeStep(Writes)];
    var w1, w2 := OfferThenWrite(w0, Pos(0, 1), top);
    assert |w2.loop.streams| == 1 && w2.loop.streams[0].deltas == [MAX_U64];
    var w3, w4 := OfferThenWrite(w2, Pos(1, 1), zero);
    ws := [w0, w1, w2, w3, w4];
    var s := w4.loop.streams[0];
    assert |w4.loop.streams| == 1 && s.deltas == [MAX_U64, 0];
    assert s.deltas[..1] == [MAX_U64] && ReadIDs([MAX_U64]) == Some([MAX_U64]);
  }

  /** Nothing is queued or written that was not admitted. */
  ghost predicate FromAdmitted(w: Writer) {
    && (forall x :: x in w.loop.written ==> x in w.gate.admitted)
    && (forall x :: x in w.shared.inbox ==> x in w.gate.admitted)
  }

  /** An Object moves from what is admitted to the queue and from its head to what is written. */
  lemma {:induction false} QueueAfter(w: Writer, s: Step)
    requires FinInv(w) && Enabled(w, s)
    ensures var r := Next(w, s);
      if s.TakeStep? then
        && r.shared.inbox == w.shared.inbox[1..]
        && (r.loop.written == w.loop.written || r.loop.written == w.loop.written + [w.shared.inbox[0]])
      else
        && r.loop.written == w.loop.written
        && (r.shared.inbox == w.shared.inbox
            || (s.OfferStep? && r.shared.inbox == w.shared.inbox + [s.fwd.(follows := Follows(w.gate, s.pos))]
                && s.verdict.Forward?))
  {
    if s.TakeStep? {
      TakeQueueAfter(w, s.fate);
    } else {
      hide Handle, FinishEnding, MarkIncomplete, Close;
    }
  }

  lemma {:induction false} TakeQueueAfter(w: Writer, fate: Fate)
    requires FinInv(w) && Enabled(w, TakeStep(fate))
    ensures var r := TakeNext(w, fate);
      && r.shared.inbox == w.shared.inbox[1..]
      && (r.loop.written == w.loop.written || r.loop.written == w.loop.written + [w.shared.inbox[0]])
  {
    hide Prepare;
    PrepareOpens(w.loop, w.shared.inbox[0], CodeForReset(w.shared.(inbox := w.shared.inbox[1..])));
  }

  lemma {:induction false} FromAdmittedStep(w: Writer, s: Step)
    requires FromAdmitted(w) && FinInv(w) && Enabled(w, s)
    ensures FromAdmitted(Next(w, s))
  {
    QueueAfter(w, s);
    GateAfter(w, s);
    if s.TakeStep? {
      assert w.shared.inbox[0] in w.gate.admitted;
    }
    hide Next, FinInv;
  }

  lemma {:induction false} NewWriterStreams(cfg: Config, withProps: bool)
    ensures StreamRunInv(NewWriter(cfg, withProps)) && FromAdmitted(NewWriter(cfg, withProps))
  {
  }

  /** What a well-formed stream carries was written. */
  lemma {:induction false} StreamsHoldWritten(streams: seq<OutStream>, i: nat, n: nat)
    requires i < |streams| && n < |streams[i].objs|
    ensures streams[i].objs[n] in Concat(streams)
    decreases |streams|
  {
    var last := |streams| - 1;
    if i < last {
      StreamsHoldWritten(streams[..last], i, n);
    } else {
      var all := Concat(streams);
      assert all[|Concat(streams[..last])| + n] == streams[i].objs[n];
    }
  }

  // ---------------------------------------------------------------------------
  // A closed writer's loop, run to its end
  // ---------------------------------------------------------------------------

  /** What is left once the loop has handled its queue, the i-th Object meeting fates[i]. */
  function Drain(w: Writer, fates: seq<Fate>): Writer
    requires |fates| == |w.shared.inbox|
    decreases |w.shared.inbox|
  {
    if w.shared.inbox == [] || w.loop.lagExceeded then w
    else
      var next := TakeNext(w, fates[0]);
      Drain(next, fates[1..])
  }

  lemma {:induction false} TakeShrinks(w: Writer, fate: Fate)
    requires w.shared.inbox != []
    ensures |TakeNext(w, fate).shared.inbox| == |w.shared.inbox| - 1
  {
  }

  lemma {:induction false} WriteStaysLossless(w: Writer)
    requires FinInv(w) && StreamInv(w.loop) && Lossless(w.shared, w.loop) && w.shared.inbox != [] && !w.loop.ended
    ensures var r := TakeNext(w, Writes);
      && FinInv(r) && Lossless(r.shared, r.loop) && !r.loop.ended && r.loop.open
      && r.gate == w.gate && r.shared.inbox == w.shared.inbox[1..] && r.shared.closing == w.shared.closing
  {
    TakeKeepsFin(w, Writes);
    PrepareOpens(w.loop, w.shared.inbox[0], CodeForReset(w.shared.(inbox := w.shared.inbox[1..])));
    hide Prepare, FinInv;
  }

  /** If nothing was lost and every queued Object can be written, a clean close writes all and FINs. */
  lemma {:induction false} CleanCloseFins(w: Writer, fates: seq<Fate>)
    requires StreamRunInv(w) && Lossless(w.shared, w.loop) && w.shared.closing == Some(Fin) && !w.loop.ended
    requires |fates| == |w.shared.inbox| && (forall i :: 0 <= i < |fates| ==> fates[i].Writes?)
    ensures var r := Finish(Drain(w, fates)).loop;
      && r.written == w.gate.admitted
      && (w.loop.open || w.shared.inbox != [] ==> r.streams != [] && r.streams[|r.streams| - 1].end.Fin?)
    decreases |fates|
  {
    if w.shared.inbox == [] {
      assert w.loop.open ==> FinishEnding(w).Fin?;
    } else {
      WriteStaysLossless(w);
      TakeKeepsQueue(w, Writes);
      TakeKeepsStreams(w, Writes);
      hide FinInv, StreamInv, QueueInv, TakeNext, Finish;
      CleanCloseFins(TakeNext(w, Writes), fates[1..]);
    }
  }
}
