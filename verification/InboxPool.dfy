/**
 Recycled queues: writers take a queue from a pool, publishers enqueue on it until the writer closes, and
 the writer drains it and gives it back, all interleaved.
 */
module InboxPool {
  import opened Uint64

  const MAX_FREE := 1024

  /** A queued Object, with the writer it was published for. */
  datatype Item = Item(owner: nat, obj: nat)

  /** Where a writer's loop is: the three looks of nextObject, then giving the queue back. */
  datatype Stage = Looking | Waiting | LastLook | Stopped | Emptying | Returning | Gone

  datatype PoolWriter = PoolWriter(
    inbox: Option<nat>,
    closed: bool,
    done: bool,
    stage: Stage,
    accepted: seq<Item>,
    returned: seq<Item>,
    sawEnd: bool
  )

  datatype Pool = Pool(size: nat, queues: map<nat, seq<Item>>, free: seq<nat>, writers: map<nat, PoolWriter>)

  datatype Step =
    | Get(w: nat, q: nat)
    | Publish(w: nat, obj: nat)
    | Close(w: nat)
    | Refuse(w: nat)
    | Receive(w: nat)
    | NothingYet(w: nat)
    | SeeDone(w: nat)
    | End(w: nat)
    | GiveUp(w: nat)
    | Release(w: nat)
    | Discard(w: nat)
    | SeeEmpty(w: nat)
    | Put(w: nat)

  function Contents(p: Pool, w: nat): seq<Item> {
    if w in p.writers && p.writers[w].inbox.Some? && p.writers[w].inbox.value in p.queues
    then p.queues[p.writers[w].inbox.value] else []
  }

  function At(p: Pool, w: nat): Stage {
    if w in p.writers then p.writers[w].stage else Gone
  }

  function SetWriter(p: Pool, w: nat, x: PoolWriter): Pool {
    p.(writers := p.writers[w := x])
  }

  function SetContents(p: Pool, w: nat, items: seq<Item>): Pool {
    if w in p.writers && p.writers[w].inbox.Some? then p.(queues := p.queues[p.writers[w].inbox.value := items]) else p
  }

  predicate Receiving(s: Stage) {
    s.Looking? || s.Waiting? || s.LastLook?
  }

  /** A queue once released stays the writer's until it is put back; inbox then names the queue in hand. */
  predicate Enabled(p: Pool, s: Step) {
    match s
    case Get(w, q) => w !in p.writers && (if p.free == [] then q !in p.queues else q == p.free[0])
    case Publish(w, _) => w in p.writers
    case Close(w) => w in p.writers
    case Refuse(w) => w in p.writers
    case Receive(w) => Receiving(At(p, w)) && Contents(p, w) != []
    case NothingYet(w) => At(p, w).Looking? && Contents(p, w) == []
    case SeeDone(w) => At(p, w).Waiting? && p.writers[w].done
    case End(w) => At(p, w).LastLook? && Contents(p, w) == []
    case GiveUp(w) => At(p, w).Looking?
    case Release(w) => At(p, w).Stopped?
    case Discard(w) => At(p, w).Emptying? && Contents(p, w) != []
    case SeeEmpty(w) => At(p, w).Emptying? && Contents(p, w) == []
    case Put(w) => At(p, w).Returning?
  }

  function Next(p: Pool, s: Step): Pool
    requires Enabled(p, s)
  {
    match s
    case Get(w, q) =>
      var free := if p.free == [] then [] else p.free[1..];
      var queues := if p.free == [] then p.queues[q := []] else p.queues;
      SetWriter(p.(free := free, queues := queues), w, PoolWriter(Some(q), false, false, Looking, [], [], false))
    case Publish(w, obj) =>
      var x := p.writers[w];
      if x.closed || |Contents(p, w)| >= p.size then p
      else SetWriter(SetContents(p, w, Contents(p, w) + [Item(w, obj)]), w, x.(accepted := x.accepted + [Item(w, obj)]))
    case Close(w) => SetWriter(p, w, p.writers[w].(closed := true, done := true))
    case Refuse(w) => SetWriter(p, w, p.writers[w].(closed := true))
    case Receive(w) =>
      var x := p.writers[w];
      SetWriter(SetContents(p, w, Contents(p, w)[1..]), w,
                x.(stage := Looking, returned := x.returned + [Contents(p, w)[0]]))
    case NothingYet(w) => SetWriter(p, w, p.writers[w].(stage := Waiting))
    case SeeDone(w) => SetWriter(p, w, p.writers[w].(stage := LastLook))
    case End(w) => SetWriter(p, w, p.writers[w].(stage := Stopped, sawEnd := true))
    case GiveUp(w) => SetWriter(p, w, p.writers[w].(stage := Stopped))
    case Release(w) => SetWriter(p, w, p.writers[w].(closed := true, stage := Emptying))
    case Discard(w) => SetContents(p, w, Contents(p, w)[1..])
    case SeeEmpty(w) => SetWriter(p, w, p.writers[w].(stage := Returning))
    case Put(w) =>
      var inbox := p.writers[w].inbox;
      var free := if inbox.Some? && |p.free| < MAX_FREE then p.free + [inbox.value] else p.free;
      SetWriter(p.(free := free), w, p.writers[w].(inbox := None, stage := Gone))
  }

  /** A writer has a queue until it has put it back, and refuses Objects from before then. */
  ghost predicate WellTyped(p: Pool) {
    && (forall w :: w in p.writers ==>
          var x := p.writers[w];
          && (x.inbox.None? <==> x.stage.Gone?)
          && (x.inbox.Some? ==> x.inbox.value in p.queues)
          && (x.stage.Emptying? || x.stage.Returning? || x.stage.Gone? ==> x.closed)
          && (x.done ==> x.closed)
          && (x.stage.LastLook? || x.sawEnd ==> x.done))
  }

  // ---------------------------------------------------------------------------
  // Isolation
  // ---------------------------------------------------------------------------

  /** A queue is one writer's, or free once, or neither; free queues are known and empty. */
  ghost predicate Isolated(p: Pool) {
    && (forall v, w :: v in p.writers && w in p.writers && v != w && p.writers[v].inbox.Some? ==>
          p.writers[v].inbox != p.writers[w].inbox)
    && (forall w :: w in p.writers && p.writers[w].inbox.Some? ==> p.writers[w].inbox.value !in p.free)
    && (forall i, j :: 0 <= i < j < |p.free| ==> p.free[i] != p.free[j])
    && (forall i :: 0 <= i < |p.free| ==> p.free[i] in p.queues && p.queues[p.free[i]] == [])
  }

  /** Everything accepted for w was returned to w, in order, or is still queued for it. */
  ghost predicate InOrder(p: Pool, w: nat)
    requires w in p.writers
  {
    var x := p.writers[w];
    && (forall i :: 0 <= i < |x.accepted| ==> x.accepted[i].owner == w)
    && (Receiving(x.stage) || x.stage.Stopped? ==> x.accepted == x.returned + Contents(p, w))
    && x.returned <= x.accepted
    && (x.stage.Returning? ==> Contents(p, w) == [])
    && (x.sawEnd ==> x.returned == x.accepted)
    && (forall i :: 0 <= i < |Contents(p, w)| ==> Contents(p, w)[i].owner == w)
  }

  ghost predicate Inv(p: Pool) {
    WellTyped(p) && Isolated(p) && (forall w :: w in p.writers ==> InOrder(p, w))
  }

  lemma {:induction false} TypedStep(p: Pool, s: Step)
    requires Inv(p) && Enabled(p, s)
    ensures WellTyped(Next(p, s))
  {
  }

  lemma {:induction false} GetIsolated(p: Pool, w: nat, q: nat)
    requires Inv(p) && Enabled(p, Get(w, q))
    ensures Isolated(Next(p, Get(w, q)))
  {
    var r := Next(p, Get(w, q));
    if p.free == [] {
      assert forall v :: v in p.writers && p.writers[v].inbox.Some? ==> p.writers[v].inbox.value != q;
    } else {
      assert q in p.free;
      assert forall i :: 0 <= i < |r.free| ==> r.free[i] == p.free[i + 1];
    }
  }

  lemma {:induction false} PutIsolated(p: Pool, w: nat)
    requires Inv(p) && Enabled(p, Put(w))
    ensures Isolated(Next(p, Put(w)))
  {
    var q := p.writers[w].inbox.value;
    var r := Next(p, Put(w));
    assert InOrder(p, w);
    assert forall i :: 0 <= i < |p.free| ==> p.free[i] in p.free && r.free[i] == p.free[i];
  }

  lemma {:induction false} InPlace(p: Pool, s: Step)
    requires Inv(p) && Enabled(p, s) && !s.Get? && !s.Put?
    ensures var r := Next(p, s);
      && r.free == p.free && r.writers.Keys == p.writers.Keys
      && (forall w :: w in p.writers ==> r.writers[w].inbox == p.writers[w].inbox)
      && p.queues.Keys <= r.queues.Keys
      && (forall q :: q in p.queues && p.writers[s.w].inbox != Some(q) ==> r.queues[q] == p.queues[q])
  {
  }

  lemma {:induction false} IsolatedStep(p: Pool, s: Step)
    requires Inv(p) && Enabled(p, s)
    ensures Isolated(Next(p, s))
  {
    if s.Get? {
      GetIsolated(p, s.w, s.q);
    } else if s.Put? {
      PutIsolated(p, s.w);
    } else {
      InPlace(p, s);
      hide Next;
      assert s.w in p.writers;
      forall i | 0 <= i < |p.free|
        ensures p.writers[s.w].inbox != Some(p.free[i])
      {
        assert p.free[i] in p.free;
      }
    }
  }

  lemma {:induction false} OthersStay(p: Pool, s: Step, w: nat)
    requires Inv(p) && Enabled(p, s) && w in p.writers && w != s.w
    ensures var r := Next(p, s); w in r.writers && r.writers[w] == p.writers[w] && Contents(r, w) == Contents(p, w)
  {
  }

  lemma {:induction false} PublishInOrder(p: Pool, w: nat, obj: nat)
    requires Inv(p) && Enabled(p, Publish(w, obj))
    ensures InOrder(Next(p, Publish(w, obj)), w)
  {
    assert InOrder(p, w);
    var x := p.writers[w];
    assert x.returned + (Contents(p, w) + [Item(w, obj)]) == (x.returned + Contents(p, w)) + [Item(w, obj)];
  }

  lemma {:induction false} ReceiveInOrder(p: Pool, w: nat)
    requires Inv(p) && Enabled(p, Receive(w))
    ensures InOrder(Next(p, Receive(w)), w)
  {
    assert InOrder(p, w);
    var x, c := p.writers[w], Contents(p, w);
    assert x.returned + c == (x.returned + [c[0]]) + c[1..];
  }

  lemma {:induction false} GetInOrder(p: Pool, w: nat, q: nat)
    requires Inv(p) && Enabled(p, Get(w, q))
    ensures InOrder(Next(p, Get(w, q)), w)
  {
    assert Contents(Next(p, Get(w, q)), w) == [];
  }

  lemma {:induction false} StageInOrder(p: Pool, s: Step)
    requires Inv(p) && Enabled(p, s) && !s.Get? && !s.Publish? && !s.Receive?
    ensures s.w in p.writers && InOrder(Next(p, s), s.w)
  {
    assert InOrder(p, s.w);
    var r := Next(p, s);
    assert Contents(r, s.w) == (if s.Discard? then Contents(p, s.w)[1..] else if s.Put? then [] else Contents(p, s.w));
  }

  lemma {:induction false} InvStep(p: Pool, s: Step)
    requires Inv(p) && Enabled(p, s)
    ensures Inv(Next(p, s))
  {
    TypedStep(p, s);
    IsolatedStep(p, s);
    var r := Next(p, s);
    forall w | w in r.writers
      ensures InOrder(r, w)
    {
      if w != s.w {
        OthersStay(p, s, w);
        assert InOrder(p, w);
      } else if s.Get? {
        GetInOrder(p, w, s.q);
      } else if s.Publish? {
        PublishInOrder(p, w, s.obj);
      } else if s.Receive? {
        ReceiveInOrder(p, w);
      } else {
        StageInOrder(p, s);
      }
    }
  }

  ghost predicate IsRun(ps: seq<Pool>, ss: seq<Step>) {
    && |ps| == |ss| + 1
    && ps[0] == Pool(ps[0].size, map[], [], map[])
    && (forall i :: 0 <= i < |ss| ==> Enabled(ps[i], ss[i]) && ps[i + 1] == Next(ps[i], ss[i]))
  }

  lemma {:induction false} ExtendRun(ps: seq<Pool>, ss: seq<Step>, s: Step)
    requires IsRun(ps, ss) && Enabled(ps[|ss|], s)
    ensures IsRun(ps + [Next(ps[|ss|], s)], ss + [s])
  {
    hide Enabled, Next;
    var qs, ts := ps + [Next(ps[|ss|], s)], ss + [s];
    assert forall i :: 0 <= i < |ps| ==> qs[i] == ps[i];
    assert forall i :: 0 <= i < |ss| ==> ts[i] == ss[i];
  }

  lemma {:induction false} RunKeeps(ps: seq<Pool>, ss: seq<Step>)
    requires IsRun(ps, ss)
    ensures Inv(ps[|ss|])
    decreases |ss|
  {
    if ss == [] {
    } else {
      hide Next, Enabled, Inv;
      var n := |ss| - 1;
      RunKeeps(ps[..n + 1], ss[..n]);
      InvStep(ps[n], ss[n]);
    }
  }

  /**
   In every interleaving a queue belongs to at most one writer or, once and empty, to the free list, and
   what a writer has been returned is what was accepted for it, in order.
   */
  lemma {:induction false} PoolIsolation(ps: seq<Pool>, ss: seq<Step>)
    requires IsRun(ps, ss)
    ensures Isolated(ps[|ss|])
    ensures forall w :: w in ps[|ss|].writers ==>
      && ps[|ss|].writers[w].returned <= ps[|ss|].writers[w].accepted
      && forall i :: 0 <= i < |ps[|ss|].writers[w].accepted| ==> ps[|ss|].writers[w].accepted[i].owner == w
  {
    RunKeeps(ps, ss);
    forall w | w in ps[|ss|].writers
      ensures InOrder(ps[|ss|], w)
    {
    }
  }

  /** The end is reported exactly where a closed channel would: closed, with everything accepted returned. */
  lemma {:induction false} EndIsClosedAndEmpty(ps: seq<Pool>, ss: seq<Step>, w: nat)
    requires IsRun(ps, ss) && w in ps[|ss|].writers
    ensures var x := ps[|ss|].writers[w];
      && (x.sawEnd ==> x.closed && x.done && x.returned == x.accepted)
      && (Receiving(x.stage) && x.done && x.returned == x.accepted ==>
            Contents(ps[|ss|], w) == [] && !Enabled(ps[|ss|], Receive(w)))
  {
    RunKeeps(ps, ss);
    assert InOrder(ps[|ss|], w);
  }

  // ---------------------------------------------------------------------------
  // What is taken in, and what comes of it
  // ---------------------------------------------------------------------------

  /** No queue holds more than its size, and no more than 1024 queues are kept. */
  ghost predicate Bounded(p: Pool) {
    |p.free| <= 1024 && forall w :: w in p.writers ==> |Contents(p, w)| <= p.size
  }

  lemma {:induction false} BoundedStep(p: Pool, s: Step)
    requires Inv(p) && Enabled(p, s) && Bounded(p)
    ensures Bounded(Next(p, s))
  {
    var r := Next(p, s);
    forall w | w in r.writers
      ensures |Contents(r, w)| <= r.size
    {
      if w != s.w {
        OthersStay(p, s, w);
      } else if s.Get? {
        GetInOrder(p, w, s.q);
        assert InOrder(r, w);
      } else {
        assert |Contents(p, w)| <= p.size;
      }
    }
  }

  lemma {:induction false} BoundedRun(ps: seq<Pool>, ss: seq<Step>)
    requires IsRun(ps, ss)
    ensures Bounded(ps[|ss|])
    decreases |ss|
  {
    if ss == [] {
    } else {
      hide Next, Enabled, Inv, Bounded;
      var n := |ss| - 1;
      BoundedRun(ps[..n + 1], ss[..n]);
      RunKeeps(ps[..n + 1], ss[..n]);
      BoundedStep(ps[n], ss[n]);
    }
  }

  /** In every run an Object is accepted, at the end of the queue, exactly if the writer is open and has room. */
  lemma {:induction false} AcceptedExact(ps: seq<Pool>, ss: seq<Step>, n: nat, w: nat)
    requires IsRun(ps, ss) && n < |ss| && w in ps[n].writers
    ensures w in ps[n + 1].writers
    ensures ps[n + 1].writers[w].accepted != ps[n].writers[w].accepted <==>
      ss[n].Publish? && ss[n].w == w && !ps[n].writers[w].closed && |Contents(ps[n], w)| < ps[n].size
    ensures ps[n + 1].writers[w].accepted != ps[n].writers[w].accepted ==>
      && ps[n + 1].writers[w].accepted == ps[n].writers[w].accepted + [Item(w, ss[n].obj)]
      && Contents(ps[n + 1], w) == Contents(ps[n], w) + [Item(w, ss[n].obj)]
  {
    RunKeeps(ps[..n + 1], ss[..n]);
    assert Enabled(ps[n], ss[n]) && ps[n + 1] == Next(ps[n], ss[n]);
    if w != ss[n].w {
      OthersStay(ps[n], ss[n], w);
    } else {
      assert InOrder(ps[n], w);
    }
  }

  /** In every run a queue put back is kept exactly if fewer than 1024 are, behind them, and is empty. */
  lemma {:induction false} PutExact(ps: seq<Pool>, ss: seq<Step>, n: nat)
    requires IsRun(ps, ss) && n < |ss| && ss[n].Put?
    ensures ss[n].w in ps[n].writers && ps[n].writers[ss[n].w].inbox.Some?
    ensures var q := ps[n].writers[ss[n].w].inbox.value;
      && q in ps[n + 1].queues && ps[n + 1].queues[q] == []
      && ps[n + 1].free == ps[n].free + (if |ps[n].free| < 1024 then [q] else [])
  {
    RunKeeps(ps[..n + 1], ss[..n]);
    assert Enabled(ps[n], ss[n]) && ps[n + 1] == Next(ps[n], ss[n]);
    assert InOrder(ps[n], ss[n].w);
  }

  /** One of the first n steps is s. */
  ghost predicate Happened(ss: seq<Step>, n: nat, s: Step) {
    exists k :: 0 <= k < n <= |ss| && ss[k] == s
  }

  lemma {:induction false} HappenedLater(ss: seq<Step>, n: nat, s: Step)
    requires n < |ss|
    ensures Happened(ss, n + 1, s) <==> Happened(ss, n, s) || ss[n] == s
  {
  }

  ghost predicate FlagsAre(p: Pool, w: nat, closed: bool, done: bool, sawEnd: bool) {
    if w in p.writers then
      && (p.writers[w].closed <==> closed) && (p.writers[w].done <==> done) && (p.writers[w].sawEnd <==> sawEnd)
    else !closed && !done && !sawEnd
  }

  lemma {:induction false} FlagsStep(p: Pool, s: Step, w: nat, closed: bool, done: bool, sawEnd: bool)
    requires Enabled(p, s) && FlagsAre(p, w, closed, done, sawEnd)
    ensures FlagsAre(Next(p, s), w, closed || s == Close(w) || s == Refuse(w) || s == Release(w),
                     done || s == Close(w), sawEnd || s == End(w))
  {
  }

  /**
   In every run a writer refuses Objects exactly if it was closed, made to refuse them or released, its end is
   announced exactly if it was closed, and it has seen the end exactly if its loop reported it.
   */
  lemma {:induction false} ClosedExact(ps: seq<Pool>, ss: seq<Step>, n: nat, w: nat)
    requires IsRun(ps, ss) && n <= |ss|
    ensures FlagsAre(ps[n], w,
                     Happened(ss, n, Close(w)) || Happened(ss, n, Refuse(w)) || Happened(ss, n, Release(w)),
                     Happened(ss, n, Close(w)), Happened(ss, n, End(w)))
    decreases n
  {
    if n == 0 {
      return;
    }
    hide Happened, FlagsAre, Enabled, Next;
    ClosedExact(ps, ss, n - 1, w);
    HappenedLater(ss, n - 1, Close(w));
    HappenedLater(ss, n - 1, Refuse(w));
    HappenedLater(ss, n - 1, Release(w));
    HappenedLater(ss, n - 1, End(w));
    FlagsStep(ps[n - 1], ss[n - 1], w, Happened(ss, n - 1, Close(w)) || Happened(ss, n - 1, Refuse(w))
              || Happened(ss, n - 1, Release(w)), Happened(ss, n - 1, Close(w)), Happened(ss, n - 1, End(w)));
  }

  /** What the writer's loop does next, left to itself, once the writer is closed. */
  function LoopStep(p: Pool, w: nat): Step {
    if Receiving(At(p, w)) && Contents(p, w) != [] then Receive(w)
    else
      match At(p, w)
      case Looking => NothingYet(w)
      case Waiting => SeeDone(w)
      case LastLook => End(w)
      case Stopped => Release(w)
      case Emptying => if Contents(p, w) != [] then Discard(w) else SeeEmpty(w)
      case Returning => Put(w)
      case Gone => Put(w)
  }

  /** How far the loop is from having put its queue back. */
  function Ahead(p: Pool, w: nat): nat {
    match At(p, w)
    case Looking => 4 * |Contents(p, w)| + 7
    case Waiting => 4 * |Contents(p, w)| + 6
    case LastLook => 4 * |Contents(p, w)| + 5
    case Stopped => |Contents(p, w)| + 3
    case Emptying => |Contents(p, w)| + 2
    case Returning => 1
    case Gone => 0
  }

  lemma {:induction false} LoopMoves(p: Pool, w: nat)
    requires Inv(p) && w in p.writers && p.writers[w].done && !p.writers[w].stage.Gone?
    ensures Enabled(p, LoopStep(p, w))
    ensures var r := Next(p, LoopStep(p, w));
      && w in r.writers && r.writers[w].done && r.writers[w].accepted == p.writers[w].accepted
      && Ahead(r, w) < Ahead(p, w)
      && (Receiving(At(p, w)) ==> Receiving(At(r, w)) || r.writers[w].sawEnd)
      && (p.writers[w].sawEnd ==> r.writers[w].sawEnd)
  {
    assert InOrder(p, w);
  }

  /**
   A closed writer's loop, left to itself, comes to its end: it hands over everything accepted first, and then
   gives the queue back.
   */
  lemma {:induction false} LoopEnds(ps: seq<Pool>, ss: seq<Step>, w: nat) returns (qs: seq<Pool>, ts: seq<Step>)
    requires IsRun(ps, ss) && w in ps[|ss|].writers && ps[|ss|].writers[w].done
    ensures IsRun(qs, ts) && ss <= ts && w in qs[|ts|].writers
    ensures forall i :: |ss| <= i < |ts| ==> ts[i].w == w && !ts[i].Publish? && !ts[i].GiveUp?
    ensures var x := qs[|ts|].writers[w];
      && x.stage.Gone? && x.inbox.None? && x.accepted == ps[|ss|].writers[w].accepted
      && (Receiving(ps[|ss|].writers[w].stage) || ps[|ss|].writers[w].sawEnd ==> x.sawEnd && x.returned == x.accepted)
    decreases Ahead(ps[|ss|], w)
  {
    var p := ps[|ss|];
    RunKeeps(ps, ss);
    if p.writers[w].stage.Gone? {
      assert InOrder(p, w);
      return ps, ss;
    }
    LoopMoves(p, w);
    var s := LoopStep(p, w);
    ExtendRun(ps, ss, s);
    hide Next, Enabled, Inv, Ahead, IsRun;
    qs, ts := LoopEnds(ps + [Next(p, s)], ss + [s], w);
  }

  lemma {:induction false} StopStep(p: Pool, s: Step, w: nat)
    requires Enabled(p, s) && w in p.writers && (!Receiving(p.writers[w].stage) || s == GiveUp(w) || s == End(w))
    ensures w in Next(p, s).writers && !Receiving(Next(p, s).writers[w].stage)
    ensures Next(p, s).writers[w].returned == p.writers[w].returned
  {
  }

  /** In every run a loop that gave up, or saw its end, is returned nothing more. */
  lemma {:induction false} NothingAfterStop(ps: seq<Pool>, ss: seq<Step>, w: nat, i: nat, j: nat)
    requires IsRun(ps, ss) && i < j <= |ss| && (ss[i] == GiveUp(w) || ss[i] == End(w))
    ensures w in ps[i].writers && w in ps[j].writers && !Receiving(ps[j].writers[w].stage)
    ensures ps[j].writers[w].returned == ps[i].writers[w].returned
    decreases j
  {
    assert Enabled(ps[j - 1], ss[j - 1]) && ps[j] == Next(ps[j - 1], ss[j - 1]);
    hide Next;
    if i + 1 < j {
      NothingAfterStop(ps, ss, w, i, j - 1);
    }
    StopStep(ps[j - 1], ss[j - 1], w);
  }
}
