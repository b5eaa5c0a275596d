/**
 Subgroup fanout: inbound streams contributing one Subgroup, the set they share, and the subscribers'
 writers, as a state machine whose steps are those the relay makes atomic under its locks.
 */
module Fanout {
  import opened Uint64
  import opened SubgroupSet
  import W = SubgroupWriter

  /** Where a contributor is with the Object it reads. heard limits which writers the Object goes to. */
  datatype Phase =
    | Idle
    | Reading(id: u64, heard: nat)
    | Claimed(id: u64, heard: nat, claim: Claim, first: bool)

  /** An inbound stream; covers and coverFrom say which Objects its clean end vouches for. */
  datatype Contributor = Contributor(
    replay: bool,
    started: bool,
    covers: bool,
    coverFrom: u64,
    broken: bool,
    left: bool,
    clean: bool,
    phase: Phase,
    seqNo: nat,
    read: set<u64>
  )

  /** The track's record of Objects: claimed by this set's contributors, claimed by others, announced absent. */
  datatype Ledger = Ledger(claimed: set<u64>, elsewhere: set<u64>, absent: set<u64>)

  /** An Object forwarded: when it was first heard of, and the writers there were when it was forwarded. */
  datatype LogEntry = LogEntry(id: u64, since: nat, present: set<nat>)

  /** An Object dropped as too old to tell from a repeat, and the writers there were. */
  datatype LostEntry = LostEntry(id: u64, present: set<nat>)

  /** When each writer was opened, and when each Object being read was first heard of. */
  datatype Times = Times(openedAt: map<nat, nat>, firstHeard: map<u64, nat>, clock: nat)

  datatype Fanout = Fanout(
    set_: SetState,
    contributors: map<nat, Contributor>,
    ledger: Ledger,
    log: seq<LogEntry>,
    lost: seq<LostEntry>,
    times: Times,
    writers: map<nat, W.Writer>,
    ended: Option<W.Ending>
  )

  function NewFanout(elsewhere: set<u64>, absent: set<u64>): Fanout {
    Fanout(NEW_SET, map[], Ledger({}, elsewhere, absent), [], [], Times(map[], map[], 0), map[], None)
  }

  datatype Event =
    | Join(c: nat, replay: bool)
    | Seed(lowest: u64)
    | OpenInitial(k: nat, capacity: nat, maxDrops: nat, withProps: bool)
    | OpenJoiner(k: nat, capacity: nat, maxDrops: nat, withProps: bool)
    | ReadHeader(c: nat, id: u64)
    | Abandon(c: nat)
    | ClaimObject(c: nat, claim: Claim)
    | DropCopy(c: nat, malformed: bool)
    | Deliver(c: nat, verdicts: map<nat, W.Verdict>, hasProps: bool, gap: Option<u64>)
    | LeaveSet(c: nat, reset: bool, code: W.ResetCode, outOfRange: set<nat>)
    | LoopStep(k: nat, step: W.Step)
    | ClaimElsewhere(id: u64)
    | Announce(id: u64)

  // ---------------------------------------------------------------------------
  // Steps
  // ---------------------------------------------------------------------------

  function NewContributor(replay: bool): Contributor {
    Contributor(replay, false, !replay, 0, false, false, false, Idle, 0, {})
  }

  predicate Active(f: Fanout, c: nat) {
    c in f.contributors && !f.contributors[c].left
  }

  function With(f: Fanout, c: nat, x: Contributor): Fanout {
    f.(contributors := f.contributors[c := x])
  }

  function Opened(f: Fanout, k: nat, cfg: W.Config, withProps: bool): Fanout {
    f.(writers := f.writers[k := W.NewWriter(cfg, withProps)],
       times := f.times.(openedAt := f.times.openedAt[k := f.times.clock], clock := f.times.clock + 1))
  }

  function JoinerOpened(f: Fanout, k: nat, capacity: nat, maxDrops: nat, withProps: bool): Fanout {
    var n := f.set_.openCount + 1;
    Opened(f, k, W.Config(n, capacity, maxDrops), withProps).(set_ := f.set_.(openCount := n))
  }

  /** The contributors part way through Object id. */
  function PartWay(cs: map<nat, Contributor>, id: u64): set<nat> {
    set c | c in cs && !cs[c].phase.Idle? && cs[c].phase.id == id
  }

  function HeaderRead(f: Fanout, c: nat, id: u64): Fanout
    requires c in f.contributors
  {
    var heard := HeardAt(f.set_.reading, id, f.set_.openCount);
    var firstHeard :=
      if PartWay(f.contributors, id) == {} then f.times.firstHeard[id := f.times.clock] else f.times.firstHeard;
    With(f, c, f.contributors[c].(phase := Reading(id, heard)))
    .(set_ := NoteHeader(f.set_, id), times := f.times.(firstHeard := firstHeard, clock := f.times.clock + 1))
  }

  function Abandoned(f: Fanout, c: nat): Fanout
    requires c in f.contributors && !f.contributors[c].phase.Idle?
  {
    var x := f.contributors[c];
    With(f, c, x.(phase := Idle, broken := true)).(set_ := DoneReading(f.set_, x.phase.id))
  }

  /** The Object read in full, and claimed. */
  function ObjectClaimed(f: Fanout, c: nat, claim: Claim): Fanout
    requires c in f.contributors && f.contributors[c].phase.Reading?
  {
    var x := f.contributors[c];
    var id := x.phase.id;
    var x' := x.(started := true, seqNo := x.seqNo + 1, read := x.read + {id},
                 covers := true, coverFrom := if x.covers then x.coverFrom else id,
                 phase := Claimed(id, x.phase.heard, claim, !x.started && !x.replay));
    With(f, c, x')
    .(ledger := if claim.Fresh? then f.ledger.(claimed := f.ledger.claimed + {id}) else f.ledger)
  }

  function CopyDropped(f: Fanout, c: nat, malformed: bool): Fanout
    requires c in f.contributors && f.contributors[c].phase.Claimed?
  {
    var x := f.contributors[c];
    With(f, c, x.(phase := Idle, broken := x.broken || malformed)).(set_ := DoneReading(f.set_, x.phase.id))
  }

  /** Every writer numbered up to heard is offered fwd; the others stay as they are. */
  function OfferAll(writers: map<nat, W.Writer>, pos: W.Pos, fwd: W.Fwd, heard: nat, vs: map<nat, W.Verdict>)
    : map<nat, W.Writer>
    requires writers.Keys <= vs.Keys
  {
    map k | k in writers ::
      if writers[k].cfg.seqNo <= heard then W.Offer(writers[k], pos, fwd, vs[k]) else writers[k]
  }

  function AgeOutAll(writers: map<nat, W.Writer>, id: u64, vs: map<nat, W.Verdict>): map<nat, W.Writer>
    requires writers.Keys <= vs.Keys
  {
    map k | k in writers :: W.AgedOut(writers[k], id, vs[k])
  }

  function SinceOf(f: Fanout, id: u64): nat {
    if id in f.times.firstHeard then f.times.firstHeard[id] else f.times.clock
  }

  function Delivered(f: Fanout, c: nat, vs: map<nat, W.Verdict>, hasProps: bool, gap: Option<u64>): Fanout
    requires c in f.contributors && f.contributors[c].phase.Claimed? && f.writers.Keys <= vs.Keys
  {
    var x := f.contributors[c];
    var id := x.phase.id;
    var s := DoneReading(f.set_, id);
    var g := With(f, c, x.(phase := Idle)).(set_ := s);
    match AdmissionOf(s, x.phase.claim, id)
    case Repeat => g
    case Lost => g.(lost := f.lost + [LostEntry(id, f.writers.Keys)], writers := AgeOutAll(f.writers, id, vs))
    case Admitted =>
      var fwd := W.Fwd(id, x.phase.first && LowersLowest(s, id), false, hasProps, gap, |f.log|);
      g.(set_ := Forwarded(s, id), log := f.log + [LogEntry(id, SinceOf(f, id), f.writers.Keys)],
         writers := OfferAll(f.writers, W.Pos(c, x.seqNo), fwd, x.phase.heard, vs))
  }

  predicate IsLast(f: Fanout, c: nat) {
    forall d :: d in f.contributors && d != c ==> f.contributors[d].left
  }

  function TearDownAll(writers: map<nat, W.Writer>, end: W.Ending, outOfRange: set<nat>): map<nat, W.Writer> {
    map k | k in writers ::
      W.TearDown(writers[k], if end.Fin? && k in outOfRange then W.Reset(W.CANCELLED) else end)
  }

  function Departed(f: Fanout, c: nat, reset: bool, code: W.ResetCode, outOfRange: set<nat>): Fanout
    requires c in f.contributors
  {
    var x := f.contributors[c];
    var s := Leave(f.set_, reset, code, x.covers, x.coverFrom);
    var g := With(f, c, x.(left := true, clean := !reset)).(set_ := s);
    if IsLast(f, c) then
      g.(ended := Some(Outcome(s)), writers := TearDownAll(f.writers, Outcome(s), outOfRange))
    else g
  }

  /**
   When each step can happen, over a Subgroup whose existing Objects are objects. A contributor ends
   cleanly only after reading everything it vouches for; the ledger calls an Object redundant only if it
   was claimed or announced absent before.
   */
  predicate Enabled(f: Fanout, objects: set<u64>, e: Event) {
    match e
    case Join(c, _) => f.ended.None? && c !in f.contributors
    case Seed(_) => f.ended.None?
    case OpenInitial(k, _, _, _) => f.ended.None? && k !in f.writers
    case OpenJoiner(k, _, _, _) => f.ended.None? && k !in f.writers
    case ReadHeader(c, _) => Active(f, c) && f.contributors[c].phase.Idle? && !f.contributors[c].broken
    case Abandon(c) => Active(f, c) && f.contributors[c].phase.Reading?
    case ClaimObject(c, claim) =>
      && Active(f, c) && f.contributors[c].phase.Reading?
      && (claim.Late? || (claim.Redundant? <==> Known(f.ledger, f.contributors[c].phase.id)))
    case DropCopy(c, _) => Active(f, c) && f.contributors[c].phase.Claimed? && f.contributors[c].phase.claim.Redundant?
    case Deliver(c, vs, _, _) =>
      && Active(f, c) && f.contributors[c].phase.Claimed? && !f.contributors[c].phase.claim.Redundant?
      && f.writers.Keys <= vs.Keys
    case LeaveSet(c, reset, _, _) =>
      && Active(f, c) && f.contributors[c].phase.Idle?
      && (!reset ==> !f.contributors[c].broken && ReadAllOf(f.contributors[c], objects))
    case LoopStep(k, step) => k in f.writers && (step.TakeStep? || step.FinishStep?) && W.Enabled(f.writers[k], step)
    case ClaimElsewhere(_) => true
    case Announce(_) => true
  }

  predicate Known(l: Ledger, id: u64) {
    id in l.claimed || id in l.elsewhere || id in l.absent
  }

  /** x has read every Object its clean end vouches for. */
  predicate ReadAllOf(x: Contributor, objects: set<u64>) {
    x.covers ==> forall id :: id in objects && id >= x.coverFrom ==> id in x.read
  }

  function Next(f: Fanout, objects: set<u64>, e: Event): Fanout
    requires Enabled(f, objects, e)
  {
    match e
    case Join(c, replay) => With(f, c, NewContributor(replay))
    case Seed(lowest) => f.(set_ := Seeded(f.set_, lowest))
    case OpenInitial(k, capacity, maxDrops, withProps) => Opened(f, k, W.Config(0, capacity, maxDrops), withProps)
    case OpenJoiner(k, capacity, maxDrops, withProps) => JoinerOpened(f, k, capacity, maxDrops, withProps)
    case ReadHeader(c, id) => HeaderRead(f, c, id)
    case Abandon(c) => Abandoned(f, c)
    case ClaimObject(c, claim) => ObjectClaimed(f, c, claim)
    case DropCopy(c, malformed) => CopyDropped(f, c, malformed)
    case Deliver(c, vs, hasProps, gap) => Delivered(f, c, vs, hasProps, gap)
    case LeaveSet(c, reset, code, outOfRange) => Departed(f, c, reset, code, outOfRange)
    case LoopStep(k, step) => f.(writers := f.writers[k := W.Next(f.writers[k], step)])
    case ClaimElsewhere(id) => f.(ledger := f.ledger.(elsewhere := f.ledger.elsewhere + {id}))
    case Announce(id) => f.(ledger := f.ledger.(absent := f.ledger.absent + {id}))
  }

  // ---------------------------------------------------------------------------
  // What a FIN of the merged streams means
  // ---------------------------------------------------------------------------

  function IdsOf(log: seq<LogEntry>): (r: seq<u64>)
    ensures |r| == |log|
    ensures forall i :: 0 <= i < |log| ==> r[i] == log[i].id
  {
    seq(|log|, i requires 0 <= i < |log| => log[i].id)
  }

  ghost predicate WasForwarded(f: Fanout, id: u64) {
    exists i :: 0 <= i < |f.log| && f.log[i].id == id
  }

  ghost predicate WasLost(f: Fanout, id: u64) {
    exists i :: 0 <= i < |f.lost| && f.lost[i].id == id
  }

  /** Object id needs no more of this set. */
  ghost predicate Accounted(f: Fanout, id: u64) {
    WasForwarded(f, id) || id in f.ledger.elsewhere || id in f.ledger.absent || WasLost(f, id)
  }

  predicate ClaimsFresh(x: Contributor, id: u64) {
    x.phase.Claimed? && x.phase.id == id && x.phase.claim.Fresh?
  }

  /** A contributor has claimed id and is about to forward it. */
  ghost predicate Pending(f: Fanout, id: u64) {
    exists c :: c in f.contributors && ClaimsFresh(f.contributors[c], id)
  }

  ghost predicate Settled(f: Fanout, id: u64) {
    Accounted(f, id) || Pending(f, id)
  }

  predicate HoldsLate(x: Contributor, id: u64) {
    x.phase.Claimed? && x.phase.id == id && x.phase.claim.Late?
  }

  /** Every Object x has read is settled, but for a late one in hand; x leaves with nothing in hand. */
  ghost predicate ReadsSettled(f: Fanout, x: Contributor) {
    && (forall id :: id in x.read ==> Settled(f, id) || HoldsLate(x, id))
    && (x.left ==> x.phase.Idle?)
    && (x.phase.Claimed? ==> x.phase.id in x.read)
  }

  ghost predicate CoverInv(f: Fanout, objects: set<u64>) {
    && (forall id :: id in f.ledger.claimed ==> Settled(f, id))
    && (forall c :: c in f.contributors ==> ReadsSettled(f, f.contributors[c]))
    && (f.set_.clean.Some? ==> forall id :: id in objects && id >= f.set_.clean.value ==> Settled(f, id))
  }

  ghost predicate RunInv(f: Fanout) {
    Describes(f.set_.run, IdsOf(f.log)) && BelowAll(f.set_, IdsOf(f.log))
  }

  lemma {:induction false} RunInvStep(f: Fanout, objects: set<u64>, e: Event)
    requires RunInv(f) && Enabled(f, objects, e)
    ensures RunInv(Next(f, objects, e))
  {
    hide W.Next, W.Enabled;
    if e.Deliver? {
      var s := DoneReading(f.set_, f.contributors[e.c].phase.id);
      var id := f.contributors[e.c].phase.id;
      var r := Next(f, objects, e);
      if AdmissionOf(s, f.contributors[e.c].phase.claim, id).Admitted? {
        assert IdsOf(r.log) == IdsOf(f.log) + [id];
        WidenedDescribes(f.set_.run, IdsOf(f.log), id);
        FirstIsLowest(s, IdsOf(f.log), id);
      }
    }
  }

  lemma {:induction false} ForwardedIn(f: Fanout, id: u64)
    requires id in IdsOf(f.log)
    ensures WasForwarded(f, id)
  {
    var i :| 0 <= i < |f.log| && IdsOf(f.log)[i] == id;
    assert f.log[i].id == id;
  }

  /** The Object a contributor delivers is accounted for from then on. */
  lemma {:induction false} DeliverAccounts(f: Fanout, objects: set<u64>, e: Event)
    requires e.Deliver? && Enabled(f, objects, e) && RunInv(f)
    ensures Accounted(Next(f, objects, e), f.contributors[e.c].phase.id)
  {
    var x := f.contributors[e.c];
    var id := x.phase.id;
    var s := DoneReading(f.set_, id);
    var r := Next(f, objects, e);
    match AdmissionOf(s, x.phase.claim, id)
    case Admitted => assert r.log[|f.log|].id == id;
    case Lost => assert r.lost[|f.lost|].id == id;
    case Repeat =>
      AdmissionExact(s, IdsOf(f.log), x.phase.claim, id);
      ForwardedIn(r, id);
  }

  lemma {:induction false} HistoryGrows(f: Fanout, objects: set<u64>, e: Event)
    requires Enabled(f, objects, e)
    ensures var r := Next(f, objects, e);
      && f.log <= r.log && f.lost <= r.lost
      && f.ledger.claimed <= r.ledger.claimed && f.ledger.elsewhere <= r.ledger.elsewhere
      && f.ledger.absent <= r.ledger.absent
  {
  }

  lemma {:induction false} AccountedStays(f: Fanout, objects: set<u64>, e: Event, id: u64)
    requires Enabled(f, objects, e) && Accounted(f, id)
    ensures Accounted(Next(f, objects, e), id)
  {
    HistoryGrows(f, objects, e);
    hide Next, Enabled;
    var r := Next(f, objects, e);
    if i :| 0 <= i < |f.log| && f.log[i].id == id {
      assert r.log[i].id == id;
    } else if i :| 0 <= i < |f.lost| && f.lost[i].id == id {
      assert r.lost[i].id == id;
    }
  }

  /** Which contributor a step is by, if any. */
  function Actor(e: Event): Option<nat> {
    match e
    case Join(c, _) => Some(c)
    case ReadHeader(c, _) => Some(c)
    case Abandon(c) => Some(c)
    case ClaimObject(c, _) => Some(c)
    case DropCopy(c, _) => Some(c)
    case Deliver(c, _, _, _) => Some(c)
    case LeaveSet(c, _, _, _) => Some(c)
    case _ => None
  }

  lemma {:induction false} OthersStay(f: Fanout, objects: set<u64>, e: Event, c: nat)
    requires Enabled(f, objects, e) && c in f.contributors && Actor(e) != Some(c)
    ensures var r := Next(f, objects, e); c in r.contributors && r.contributors[c] == f.contributors[c]
  {
  }

  /** Only a delivery ends a fresh claim. */
  lemma {:induction false} OnlyDeliveryEnds(f: Fanout, objects: set<u64>, e: Event, c: nat, id: u64)
    requires Enabled(f, objects, e) && c in f.contributors && Actor(e) == Some(c) && !e.Deliver?
    ensures !ClaimsFresh(f.contributors[c], id)
  {
  }

  lemma {:induction false} SettledStays(f: Fanout, objects: set<u64>, e: Event, id: u64)
    requires CoverInv(f, objects) && RunInv(f) && Enabled(f, objects, e) && Settled(f, id)
    ensures Settled(Next(f, objects, e), id)
  {
    hide Next, Enabled;
    if Accounted(f, id) {
      AccountedStays(f, objects, e, id);
    } else {
      var c :| c in f.contributors && ClaimsFresh(f.contributors[c], id);
      if Actor(e) != Some(c) {
        OthersStay(f, objects, e, c);
        assert ClaimsFresh(Next(f, objects, e).contributors[c], id);
      } else if e.Deliver? {
        DeliverAccounts(f, objects, e);
      } else {
        OnlyDeliveryEnds(f, objects, e, c, id);
      }
    }
  }

  /** What a step's own contributor has read afterwards. */
  lemma {:induction false} ActorReads(f: Fanout, objects: set<u64>, e: Event, c: nat)
    requires Enabled(f, objects, e) && Actor(e) == Some(c) && !e.Join?
    ensures c in f.contributors
    ensures var x, y := f.contributors[c], Next(f, objects, e).contributors[c];
      && y.read == (if e.ClaimObject? then x.read + {x.phase.id} else x.read)
      && (y.phase.Claimed? <==> e.ClaimObject?)
      && (y.left ==> y.phase.Idle?)
      && (e.ClaimObject? ==> y.phase.id == x.phase.id && y.phase.claim == e.claim)
      && (forall id :: HoldsLate(x, id) ==> e.Deliver? && id == x.phase.id)
  {
  }

  lemma {:induction false} ClaimSettles(f: Fanout, objects: set<u64>, e: Event)
    requires CoverInv(f, objects) && RunInv(f) && e.ClaimObject? && Enabled(f, objects, e)
    ensures var id := f.contributors[e.c].phase.id; var r := Next(f, objects, e);
      Settled(r, id) || HoldsLate(r.contributors[e.c], id)
  {
    var id := f.contributors[e.c].phase.id;
    var r := Next(f, objects, e);
    if e.claim.Fresh? {
      assert ClaimsFresh(r.contributors[e.c], id);
    } else if e.claim.Redundant? {
      assert Settled(f, id);
      SettledStays(f, objects, e, id);
    }
  }

  lemma {:induction false} ReadsStaySettled(f: Fanout, objects: set<u64>, e: Event, c: nat)
    requires CoverInv(f, objects) && RunInv(f) && Enabled(f, objects, e)
    requires c in Next(f, objects, e).contributors
    ensures ReadsSettled(Next(f, objects, e), Next(f, objects, e).contributors[c])
  {
    var r := Next(f, objects, e);
    if e.Join? && e.c == c {
    } else if Actor(e) == Some(c) {
      ActorReads(f, objects, e, c);
      if e.ClaimObject? {
        ClaimSettles(f, objects, e);
      }
      if e.Deliver? {
        DeliverAccounts(f, objects, e);
      }
      hide Next, Enabled, Accounted;
      assert ReadsSettled(f, f.contributors[c]);
      forall id | id in r.contributors[c].read
        ensures Settled(r, id) || HoldsLate(r.contributors[c], id)
      {
        if Settled(f, id) {
          SettledStays(f, objects, e, id);
        }
      }
    } else {
      assert c in f.contributors;
      OthersStay(f, objects, e, c);
      hide Next, Enabled, Accounted;
      assert ReadsSettled(f, f.contributors[c]);
      forall id | id in r.contributors[c].read
        ensures Settled(r, id) || HoldsLate(r.contributors[c], id)
      {
        if Settled(f, id) {
          SettledStays(f, objects, e, id);
        }
      }
    }
  }

  lemma {:induction false} CleanStaysSettled(f: Fanout, objects: set<u64>, e: Event, id: u64)
    requires CoverInv(f, objects) && RunInv(f) && Enabled(f, objects, e)
    requires var s := Next(f, objects, e).set_; s.clean.Some? && id in objects && id >= s.clean.value
    ensures Settled(Next(f, objects, e), id)
  {
    var s := Next(f, objects, e).set_;
    if f.set_.clean.Some? && id >= f.set_.clean.value {
    } else {
      assert e.LeaveSet? && s.clean == Some(f.contributors[e.c].coverFrom) && id in f.contributors[e.c].read;
      assert ReadsSettled(f, f.contributors[e.c]);
    }
    SettledStays(f, objects, e, id);
  }

  lemma {:induction false} CoverInvStep(f: Fanout, objects: set<u64>, e: Event)
    requires CoverInv(f, objects) && RunInv(f) && Enabled(f, objects, e)
    ensures CoverInv(Next(f, objects, e), objects)
  {
    var r := Next(f, objects, e);
    forall id | id in r.ledger.claimed
      ensures Settled(r, id)
    {
      if id in f.ledger.claimed {
        SettledStays(f, objects, e, id);
      } else {
        assert e.ClaimObject? && ClaimsFresh(r.contributors[e.c], id);
      }
    }
    hide Next, Enabled;
    forall c | c in r.contributors
      ensures ReadsSettled(r, r.contributors[c])
    {
      ReadsStaySettled(f, objects, e, c);
    }
    if r.set_.clean.Some? {
      forall id | id in objects && id >= r.set_.clean.value
        ensures Settled(r, id)
      {
        CleanStaysSettled(f, objects, e, id);
      }
    }
  }

  /** x left cleanly, vouching for every Object from x.coverFrom on. */
  predicate Vouches(x: Contributor) {
    x.left && x.clean && x.covers
  }

  /** The set keeps the lowest start of a contributor that vouches, and nothing changes once all have left. */
  ghost predicate EndInv(f: Fanout) {
    && (f.ended.Some? ==> f.ended.value == Outcome(f.set_) && forall c :: c in f.contributors ==>
      f.contributors[c].left)
    && (forall c :: c in f.contributors && Vouches(f.contributors[c]) ==>
          f.set_.clean.Some? && f.set_.clean.value <= f.contributors[c].coverFrom)
    && (f.set_.clean.Some? ==>
          exists c ::
            c in f.contributors && Vouches(f.contributors[c]) && f.contributors[c].coverFrom == f.set_.clean.value)
  }

  lemma {:induction false} LowestStays(f: Fanout, objects: set<u64>, e: Event)
    requires EndInv(f) && Enabled(f, objects, e) && Next(f, objects, e).set_.clean.Some?
    ensures var r := Next(f, objects, e);
      exists c :: c in r.contributors && Vouches(r.contributors[c]) && r.contributors[c].coverFrom == r.set_.clean.value
  {
    hide W.Next, W.Enabled, AdmissionOf, Outcome, Widened, Noted, Released, OfferAll, AgeOutAll, TearDownAll;
    var r := Next(f, objects, e);
    if r.set_.clean == f.set_.clean {
      var c :| c in f.contributors && Vouches(f.contributors[c]) && f.contributors[c].coverFrom == f.set_.clean.value;
      assert c in r.contributors && r.contributors[c] == f.contributors[c];
    } else {
      assert e.LeaveSet? && Vouches(r.contributors[e.c]) && r.contributors[e.c].coverFrom == r.set_.clean.value;
    }
  }

  lemma {:induction false} VouchersStayAbove(f: Fanout, objects: set<u64>, e: Event, c: nat)
    requires EndInv(f) && Enabled(f, objects, e)
    requires c in Next(f, objects, e).contributors && Vouches(Next(f, objects, e).contributors[c])
    ensures var r := Next(f, objects, e); r.set_.clean.Some? && r.set_.clean.value <= r.contributors[c].coverFrom
  {
    hide W.Next, W.Enabled, AdmissionOf, Outcome, Widened, Noted, Released, OfferAll, AgeOutAll, TearDownAll, ReadAllOf;
    hide HeardAt, PartWay, SinceOf, Known;
    if c in f.contributors && Vouches(f.contributors[c]) {
      assert f.set_.clean.value <= f.contributors[c].coverFrom;
    }
  }

  lemma {:induction false} EndedStays(f: Fanout, objects: set<u64>, e: Event)
    requires EndInv(f) && Enabled(f, objects, e) && Next(f, objects, e).ended.Some?
    ensures var r := Next(f, objects, e);
      r.ended.value == Outcome(r.set_) && forall c :: c in r.contributors ==> r.contributors[c].left
  {
    hide W.Next, W.Enabled, AdmissionOf, Outcome, Widened, Noted, Released, OfferAll, AgeOutAll, TearDownAll, Vouches;
  }

  lemma {:induction false} EndInvStep(f: Fanout, objects: set<u64>, e: Event)
    requires EndInv(f) && Enabled(f, objects, e)
    ensures EndInv(Next(f, objects, e))
  {
    hide Next, Enabled, Vouches, Outcome;
    var r := Next(f, objects, e);
    if r.set_.clean.Some? {
      LowestStays(f, objects, e);
    }
    if r.ended.Some? {
      EndedStays(f, objects, e);
    }
    forall c | c in r.contributors && Vouches(r.contributors[c])
      ensures r.set_.clean.Some? && r.set_.clean.value <= r.contributors[c].coverFrom
    {
      VouchersStayAbove(f, objects, e, c);
    }
  }

  /** A FIN leaves no existing Object at or above the lowest forwarded unaccounted for. */
  lemma {:induction false} FinCovers(f: Fanout, objects: set<u64>, id: u64)
    requires CoverInv(f, objects) && RunInv(f) && EndInv(f) && f.ended == Some(W.Fin)
    requires id in objects && id >= f.set_.lowest
    ensures Accounted(f, id)
  {
    if id >= f.set_.clean.value {
      assert Settled(f, id);
    } else {
      assert f.set_.run.value.lo <= id <= f.set_.run.value.hi;
      ForwardedIn(f, id);
    }
  }

  /**
   From from on, a contributor's word leaves out none of what was forwarded: from is no higher than lowest, or
   ids were forwarded one by one, from lowest up to the ID below from or beyond.
   */
  ghost predicate Joins(ids: seq<u64>, lowest: u64, from: u64) {
    || from <= lowest
    || (OneByOne(ids) && lowest in ids && exists x :: x in ids && x + 1 >= from)
  }

  lemma {:induction false} JoinsExact(f: Fanout)
    requires RunInv(f) && f.set_.clean.Some?
    ensures Outcome(f.set_).Fin? <==> Joins(IdsOf(f.log), f.set_.lowest, f.set_.clean.value)
  {
    hide OneByOne;
    var ids := IdsOf(f.log);
    if x :| x in ids && x + 1 >= f.set_.clean.value {
      assert x <= f.set_.run.value.hi;
    }
    if f.set_.run.Some? {
      assert f.set_.run.value.hi in ids && f.set_.run.value.lo in ids;
    }
  }

  /** The end is a FIN exactly if some contributor that vouches joins what was forwarded. */
  lemma {:induction false} FinExact(f: Fanout)
    requires RunInv(f) && EndInv(f) && f.ended.Some?
    ensures f.ended == Some(W.Fin) <==>
            exists c :: c in f.contributors && Vouches(f.contributors[c])
                        && Joins(IdsOf(f.log), f.set_.lowest, f.contributors[c].coverFrom)
  {
    hide OneByOne;
    if f.set_.clean.Some? {
      JoinsExact(f);
      var c :| c in f.contributors && Vouches(f.contributors[c]) && f.contributors[c].coverFrom == f.set_.clean.value;
      assert f.ended == Some(W.Fin) ==> Joins(IdsOf(f.log), f.set_.lowest, f.contributors[c].coverFrom);
      if d :| d in f.contributors && Vouches(f.contributors[d])
              && Joins(IdsOf(f.log), f.set_.lowest, f.contributors[d].coverFrom) {
        assert f.set_.clean.value <= f.contributors[d].coverFrom;
        assert Joins(IdsOf(f.log), f.set_.lowest, f.set_.clean.value);
      }
    }
  }

  // ---------------------------------------------------------------------------
  // Which writers an Object goes to
  // ---------------------------------------------------------------------------

  /** k was open at the time since. */
  predicate OpenAt(f: Fanout, k: nat, since: nat) {
    k in f.times.openedAt && f.times.openedAt[k] <= since
  }

  /** k was opened with the set, or by a scan no later than since. */
  predicate OpenBy(f: Fanout, k: nat, since: nat)
    requires k in f.writers
  {
    f.writers[k].cfg.seqNo == 0 || OpenAt(f, k, since)
  }

  /** The list of Objects being read says how many contributors are part way through each, and since when. */
  ghost predicate ReadingInv(f: Fanout) {
    && Distinct(f.set_.reading)
    && (forall id :: ReadersOf(f.set_.reading, id) == |PartWay(f.contributors, id)|)
    && (forall c :: c in f.contributors && !f.contributors[c].phase.Idle? ==>
          var x := f.contributors[c].phase;
          x.heard == HeardAt(f.set_.reading, x.id, f.set_.openCount) && x.id in f.times.firstHeard)
  }

  ghost predicate OpenInv(f: Fanout) {
    && (forall k :: k in f.writers ==> f.writers[k].cfg.seqNo <= f.set_.openCount)
    && (forall k :: k in f.writers ==> k in f.times.openedAt && f.times.openedAt[k] < f.times.clock)
    && (forall id :: id in f.times.firstHeard ==> f.times.firstHeard[id] < f.times.clock)
  }

  /** x's cut-off picks out k exactly if k was open by the first header read for x's Object. */
  ghost predicate CutFor(f: Fanout, x: Phase, k: nat)
    requires k in f.writers
  {
    !x.Idle? ==>
      && x.id in f.times.firstHeard
      && (f.writers[k].cfg.seqNo <= x.heard <==> OpenBy(f, k, f.times.firstHeard[x.id]))
  }

  ghost predicate CutInv(f: Fanout) {
    forall c, k :: c in f.contributors && k in f.writers ==> CutFor(f, f.contributors[c].phase, k)
  }

  lemma {:induction false} PartWayAfter(cs: map<nat, Contributor>, c: nat, x: Contributor, id: u64)
    requires c in cs
    ensures var r := PartWay(cs[c := x], id);
      |r| == |PartWay(cs, id)|
        - (if !cs[c].phase.Idle? && cs[c].phase.id == id then 1 else 0)
        + (if !x.phase.Idle? && x.phase.id == id then 1 else 0)
  {
    var was, now := PartWay(cs, id), PartWay(cs[c := x], id);
    assert now - {c} == was - {c};
    assert c in was ==> |was - {c}| == |was| - 1;
    assert c in now ==> |now - {c}| == |now| - 1;
    assert c !in was ==> was - {c} == was;
    assert c !in now ==> now - {c} == now;
  }

  lemma {:induction false} HeaderReadKeepsReading(f: Fanout, c: nat, id: u64)
    requires ReadingInv(f) && c in f.contributors && f.contributors[c].phase.Idle?
    ensures ReadingInv(HeaderRead(f, c, id))
  {
    var r := HeaderRead(f, c, id);
    NotedDistinct(f.set_.reading, id, f.set_.openCount);
    forall other
      ensures ReadersOf(r.set_.reading, other) == |PartWay(r.contributors, other)|
      ensures ReadersOf(r.set_.reading, other) > 0 ==>
        HeardAt(r.set_.reading, other, f.set_.openCount) == HeardAt(f.set_.reading, other, f.set_.openCount)
    {
      NotedExact(f.set_.reading, id, f.set_.openCount, other);
      PartWayAfter(f.contributors, c, r.contributors[c], other);
    }
    hide Noted, HeardAt, ReadersOf;
    forall d | d in r.contributors && !r.contributors[d].phase.Idle?
      ensures var x := r.contributors[d].phase;
        x.heard == HeardAt(r.set_.reading, x.id, r.set_.openCount) && x.id in r.times.firstHeard
    {
      var x := r.contributors[d].phase;
      assert d in PartWay(r.contributors, x.id);
      if d == c && PartWay(f.contributors, id) != {} {
        var o :| o in PartWay(f.contributors, id);
        assert f.contributors[o].phase.id in f.times.firstHeard;
      }
    }
  }

  lemma {:induction false} DoneKeepsReading(f: Fanout, c: nat, r: Fanout)
    requires ReadingInv(f) && c in f.contributors && !f.contributors[c].phase.Idle?
    requires c in r.contributors && r.contributors[c].phase.Idle?
    requires r.contributors == f.contributors[c := r.contributors[c]]
    requires r.set_.reading == Released(f.set_.reading, f.contributors[c].phase.id)
    requires r.set_.openCount == f.set_.openCount && r.times == f.times
    ensures ReadingInv(r)
  {
    var id := f.contributors[c].phase.id;
    assert c in PartWay(f.contributors, id);
    ReleasedDistinct(f.set_.reading, id);
    forall other
      ensures ReadersOf(r.set_.reading, other) == |PartWay(r.contributors, other)|
      ensures ReadersOf(r.set_.reading, other) > 0 ==>
        HeardAt(r.set_.reading, other, f.set_.openCount) == HeardAt(f.set_.reading, other, f.set_.openCount)
    {
      ReleasedExact(f.set_.reading, id, f.set_.openCount, other);
      PartWayAfter(f.contributors, c, r.contributors[c], other);
    }
    hide Released, HeardAt, ReadersOf;
    forall d | d in r.contributors && !r.contributors[d].phase.Idle?
      ensures var x := r.contributors[d].phase;
        x.heard == HeardAt(r.set_.reading, x.id, r.set_.openCount) && x.id in r.times.firstHeard
    {
      assert d in PartWay(r.contributors, r.contributors[d].phase.id);
    }
  }

  lemma {:induction false} SamePlacesKeepReading(f: Fanout, r: Fanout)
    requires ReadingInv(f)
    requires r.set_.reading == f.set_.reading && r.times.firstHeard == f.times.firstHeard
    requires forall c :: c in r.contributors && !r.contributors[c].phase.Idle? ==>
      c in f.contributors && SamePlace(f.contributors[c].phase, r.contributors[c].phase)
    requires forall id :: PartWay(r.contributors, id) == PartWay(f.contributors, id)
    ensures ReadingInv(r)
  {
    forall c | c in r.contributors && !r.contributors[c].phase.Idle?
      ensures var x := r.contributors[c].phase;
        x.heard == HeardAt(r.set_.reading, x.id, r.set_.openCount) && x.id in r.times.firstHeard
    {
      assert c in PartWay(r.contributors, r.contributors[c].phase.id);
      assert c in f.contributors && c in PartWay(f.contributors, f.contributors[c].phase.id);
    }
  }

  lemma {:induction false} ReadingInvStep(f: Fanout, objects: set<u64>, e: Event)
    requires ReadingInv(f) && Enabled(f, objects, e)
    ensures ReadingInv(Next(f, objects, e))
  {
    hide ReadingInv, Noted, HeardAt, AdmissionOf, Widened, OfferAll, AgeOutAll, Outcome;
    var r := Next(f, objects, e);
    match e
    case ReadHeader(c, id) => HeaderReadKeepsReading(f, c, id);
    case Abandon(c) => DoneKeepsReading(f, c, r);
    case DropCopy(c, _) => DoneKeepsReading(f, c, r);
    case Deliver(c, _, _, _) => DoneKeepsReading(f, c, r);
    case _ =>
      SameReading(f, objects, e);
      SamePlacesKeepReading(f, r);
  }

  predicate SamePlace(x: Phase, y: Phase) {
    (x.Idle? && y.Idle?) || (!x.Idle? && !y.Idle? && x.id == y.id && x.heard == y.heard)
  }

  /** The steps that neither start nor finish reading an Object leave the list and the readers alone. */
  lemma {:induction false} SameReading(f: Fanout, objects: set<u64>, e: Event)
    requires Enabled(f, objects, e)
    requires !e.ReadHeader? && !e.Abandon? && !e.DropCopy? && !e.Deliver?
    ensures var r := Next(f, objects, e);
      && r.set_.reading == f.set_.reading && r.times.firstHeard == f.times.firstHeard
      && (forall c :: c in r.contributors && !r.contributors[c].phase.Idle? ==>
            c in f.contributors && SamePlace(f.contributors[c].phase, r.contributors[c].phase))
      && (forall id :: PartWay(r.contributors, id) == PartWay(f.contributors, id))
  {
    var r := Next(f, objects, e);
    hide W.Next, W.Enabled, Outcome;
    assert forall c :: c in f.contributors ==>
      c in r.contributors && SamePlace(f.contributors[c].phase, r.contributors[c].phase);
    assert forall c :: c in r.contributors && c !in f.contributors ==> r.contributors[c].phase.Idle?;
  }

  /** No step changes a writer's place in the order of opening. */
  lemma {:induction false} WritersKeepConfig(f: Fanout, objects: set<u64>, e: Event, k: nat)
    requires Enabled(f, objects, e) && k in f.writers
    ensures var r := Next(f, objects, e); k in r.writers && r.writers[k].cfg == f.writers[k].cfg
  {
    match e
    case Deliver(c, vs, hasProps, gap) =>
      hide W.SkipEffect, W.Publish, W.Follows, Released, Widened, SinceOf;
    case LoopStep(_, step) => W.StepKeepsConfig(f.writers[e.k], step);
    case _ => hide W.Next, W.Enabled, Outcome;
  }

  predicate OpensOrHears(e: Event) {
    e.OpenInitial? || e.OpenJoiner? || e.ReadHeader?
  }

  lemma {:induction false} OpeningFrame(f: Fanout, objects: set<u64>, e: Event)
    requires Enabled(f, objects, e) && !OpensOrHears(e)
    ensures var r := Next(f, objects, e);
      r.writers.Keys == f.writers.Keys && r.times == f.times && r.set_.openCount == f.set_.openCount
  {
    hide W.Next, W.Enabled, W.Offer, W.AgedOut, W.TearDown, Outcome, AdmissionOf, Widened, Released;
  }

  lemma {:induction false} OpenInvStep(f: Fanout, objects: set<u64>, e: Event)
    requires OpenInv(f) && Enabled(f, objects, e)
    ensures OpenInv(Next(f, objects, e))
  {
    var r := Next(f, objects, e);
    if OpensOrHears(e) {
      hide HeardAt, Noted;
    } else {
      OpeningFrame(f, objects, e);
      hide Next;
      forall k | k in r.writers
        ensures k in f.writers && r.writers[k].cfg == f.writers[k].cfg
      {
        WritersKeepConfig(f, objects, e, k);
      }
    }
  }

  ghost predicate HeardBy(reading: seq<ObjHeard>, count: nat) {
    forall i :: 0 <= i < |reading| ==> reading[i].heard <= count
  }

  ghost predicate HeardInv(f: Fanout) {
    HeardBy(f.set_.reading, f.set_.openCount)
  }

  lemma {:induction false} NotedHeard(reading: seq<ObjHeard>, id: u64, count: nat)
    requires HeardBy(reading, count)
    ensures HeardBy(Noted(reading, id, count), count)
    ensures HeardBy(Released(reading, id), count)
  {
    hide Index;
  }

  lemma {:induction false} HeardInvStep(f: Fanout, objects: set<u64>, e: Event)
    requires HeardInv(f) && Enabled(f, objects, e)
    ensures HeardInv(Next(f, objects, e))
  {
    hide W.Next, W.Enabled, Noted, Released, Outcome, Widened, OfferAll, AgeOutAll, TearDownAll;
    var id := if e.ReadHeader? then e.id
      else if e.Abandon? || e.DropCopy? || e.Deliver? then f.contributors[e.c].phase.id else 0;
    NotedHeard(f.set_.reading, id, f.set_.openCount);
  }

  /** A contributor's cut-off is at most the number of writers opened. */
  lemma {:induction false} HeardBelow(f: Fanout, c: nat)
    requires HeardInv(f) && ReadingInv(f) && c in f.contributors && !f.contributors[c].phase.Idle?
    ensures f.contributors[c].phase.heard <= f.set_.openCount
  {
  }

  lemma {:induction false} CutAtHeader(f: Fanout, c: nat, id: u64, d: nat, k: nat)
    requires CutInv(f) && OpenInv(f) && ReadingInv(f) && c in f.contributors && f.contributors[c].phase.Idle?
    requires d in f.contributors && k in f.writers
    ensures CutFor(HeaderRead(f, c, id), HeaderRead(f, c, id).contributors[d].phase, k)
  {
    var r := HeaderRead(f, c, id);
    if d != c {
      if !f.contributors[d].phase.Idle? && f.contributors[d].phase.id == id {
        assert d in PartWay(f.contributors, id);
      }
      assert CutFor(f, f.contributors[d].phase, k);
    } else if PartWay(f.contributors, id) == {} {
      assert ReadersOf(f.set_.reading, id) == 0;
    } else {
      var o :| o in PartWay(f.contributors, id);
      assert CutFor(f, f.contributors[o].phase, k);
    }
  }

  lemma {:induction false} PlaceWas(f: Fanout, objects: set<u64>, e: Event, c: nat)
    requires Enabled(f, objects, e) && !e.ReadHeader?
    requires c in Next(f, objects, e).contributors && !Next(f, objects, e).contributors[c].phase.Idle?
    ensures c in f.contributors && SamePlace(f.contributors[c].phase, Next(f, objects, e).contributors[c].phase)
  {
    hide W.Next, W.Enabled, Outcome, AdmissionOf, Widened, OfferAll, AgeOutAll, TearDownAll, Released;
  }

  lemma {:induction false} CutInvStep(f: Fanout, objects: set<u64>, e: Event)
    requires CutInv(f) && OpenInv(f) && HeardInv(f) && ReadingInv(f) && Enabled(f, objects, e)
    ensures CutInv(Next(f, objects, e))
  {
    var r := Next(f, objects, e);
    forall c, k | c in r.contributors && k in r.writers && !r.contributors[c].phase.Idle?
      ensures CutFor(r, r.contributors[c].phase, k)
    {
      if e.ReadHeader? {
        CutAtHeader(f, e.c, e.id, c, k);
      } else if e.OpenInitial? {
        assert c in f.contributors;
      } else if e.OpenJoiner? {
        assert c in f.contributors;
        HeardBelow(f, c);
      } else {
        OpeningFrame(f, objects, e);
        WritersKeepConfig(f, objects, e, k);
        PlaceWas(f, objects, e, c);
        assert CutFor(f, f.contributors[c].phase, k);
      }
    }
  }
}
