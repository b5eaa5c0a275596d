/**
 The pool of sessions to other relays: at most one dial per address, whose result all who wait for it get.
 Steps are what happens under the pool's lock, or between two holds of it.
 */
module UpstreamPool {
  import opened Uint64

  type Addr = nat

  datatype Outcome = Session(id: nat) | DialError(code: nat)

  /** An entry callers wait on; outcome is set once, when the dial ends; dead: its session has ended. */
  datatype Entry = Entry(addr: Addr, outcome: Option<Outcome>, dead: bool)

  /** What get has returned: via is the entry it came from, None when dialing has stopped. */
  datatype Result = Result(via: Option<nat>, outcome: Option<Outcome>)

  datatype Caller =
    | Calling(addr: Addr)
    | Waiting(addr: Addr, e: nat)
    | SawDead(addr: Addr, e: nat)
    | Dialing(addr: Addr, e: nat)
    | DialFailed(addr: Addr, e: nat)
    | Returned(result: Result)

  /** entries is the pool's map; table has every entry there ever was. */
  datatype Pool = Pool(entries: map<Addr, nat>, noDial: bool, table: map<nat, Entry>, callers: map<nat, Caller>)

  const EMPTY_POOL := Pool(map[], false, map[], map[])

  datatype Step =
    | Call(c: nat, addr: Addr)
    | Look(c: nat, fresh_: nat)
    | Wake(c: nat)
    | DropDead(c: nat)
    | DialEnds(c: nat, outcome: Outcome)
    | DropFailed(c: nat)
    | Die(e: nat)
    | Evict(e: nat)
    | StopDialing

  function Removed(entries: map<Addr, nat>, addr: Addr, e: nat): map<Addr, nat> {
    if addr in entries && entries[addr] == e then entries - {addr} else entries
  }

  function Moved(p: Pool, c: nat, x: Caller): Pool {
    p.(callers := p.callers[c := x])
  }

  predicate Enabled(p: Pool, s: Step) {
    match s
    case Call(c, _) => c !in p.callers
    case Look(c, n) => c in p.callers && p.callers[c].Calling? && n !in p.table
    case Wake(c) =>
      c in p.callers && p.callers[c].Waiting? && p.callers[c].e in p.table && p.table[p.callers[c].e].outcome.Some?
    case DropDead(c) => c in p.callers && p.callers[c].SawDead?
    case DialEnds(c, _) => c in p.callers && p.callers[c].Dialing? && p.callers[c].e in p.table
    case DropFailed(c) => c in p.callers && p.callers[c].DialFailed?
    case Die(e) => e in p.table && p.table[e].outcome.Some? && p.table[e].outcome.value.Session?
    case Evict(e) => e in p.table && p.table[e].dead
    case StopDialing => true
  }

  function Next(p: Pool, s: Step): Pool
    requires Enabled(p, s)
  {
    match s
    case Call(c, addr) => Moved(p, c, Calling(addr))
    case Look(c, n) =>
      var addr := p.callers[c].addr;
      if addr in p.entries then Moved(p, c, Waiting(addr, p.entries[addr]))
      else if p.noDial then Moved(p, c, Returned(Result(None, None)))
      else
        Moved(p, c, Dialing(addr, n)).(entries := p.entries[addr := n], table := p.table[n := Entry(addr, None, false)])
    case Wake(c) =>
      var x := p.callers[c];
      var e := p.table[x.e];
      if e.outcome.value.Session? && e.dead then Moved(p, c, SawDead(x.addr, x.e))
      else Moved(p, c, Returned(Result(Some(x.e), e.outcome)))
    case DropDead(c) =>
      var x := p.callers[c];
      Moved(p, c, Calling(x.addr)).(entries := Removed(p.entries, x.addr, x.e))
    case DialEnds(c, outcome) =>
      var x := p.callers[c];
      var q := p.(table := p.table[x.e := p.table[x.e].(outcome := Some(outcome))]);
      if outcome.Session? then Moved(q, c, Returned(Result(Some(x.e), Some(outcome))))
      else Moved(q, c, DialFailed(x.addr, x.e))
    case DropFailed(c) =>
      var x := p.callers[c];
      Moved(p, c, Returned(Result(Some(x.e), if x.e in p.table then p.table[x.e].outcome else None)))
      .(entries := Removed(p.entries, x.addr, x.e))
    case Die(e) => p.(table := p.table[e := p.table[e].(dead := true)])
    case Evict(e) => p.(entries := Removed(p.entries, p.table[e].addr, e))
    case StopDialing => p.(noDial := true)
  }

  // ---------------------------------------------------------------------------
  // Invariants
  // ---------------------------------------------------------------------------

  /** An entry is gone for good once its dial failed or its session ended. */
  predicate Spent(e: Entry) {
    e.outcome.Some? && (e.outcome.value.DialError? || e.dead)
  }

  /** The map holds every entry that is not spent, at its own address. */
  ghost predicate EntriesInv(p: Pool) {
    && (forall a :: a in p.entries ==> p.entries[a] in p.table && p.table[p.entries[a]].addr == a)
    && (forall e :: e in p.table && !Spent(p.table[e]) ==>
          p.table[e].addr in p.entries && p.entries[p.table[e].addr] == e)
    && (forall e :: e in p.table && p.table[e].dead ==> p.table[e].outcome.Some? && p.table[e].outcome.value.Session?)
  }

  /** What each caller knows of the entry it is concerned with. */
  predicate CallerOK(p: Pool, x: Caller) {
    match x
    case Calling(_) => true
    case Waiting(a, e) => e in p.table && p.table[e].addr == a
    case SawDead(a, e) => e in p.table && p.table[e].addr == a && p.table[e].dead
    case Dialing(a, e) => e in p.table && p.table[e].addr == a && p.table[e].outcome.None?
    case DialFailed(a, e) =>
      e in p.table && p.table[e].addr == a && p.table[e].outcome.Some? && p.table[e].outcome.value.DialError?
    case Returned(r) => r.via.Some? ==>
      r.via.value in p.table && r.outcome.Some? && p.table[r.via.value].outcome == r.outcome
  }

  ghost predicate Inv(p: Pool) {
    && EntriesInv(p)
    && (forall c :: c in p.callers ==> CallerOK(p, p.callers[c]))
    && (forall c, d :: c in p.callers && d in p.callers && c != d && p.callers[c].Dialing? && p.callers[d].Dialing? ==>
          p.callers[c].e != p.callers[d].e)
  }

  lemma {:induction false} EntriesInvStep(p: Pool, s: Step)
    requires Inv(p) && Enabled(p, s)
    ensures EntriesInv(Next(p, s))
  {
    var r := Next(p, s);
    if s.DropDead? || s.DialEnds? || s.DropFailed? {
      assert CallerOK(p, p.callers[s.c]);
    }
  }

  lemma {:induction false} CallersStep(p: Pool, s: Step, c: nat)
    requires Inv(p) && Enabled(p, s) && c in Next(p, s).callers
    ensures CallerOK(Next(p, s), Next(p, s).callers[c])
  {
    if c in p.callers {
      assert CallerOK(p, p.callers[c]);
    }
    if s.DialEnds? {
      assert CallerOK(p, p.callers[s.c]);
      if c in p.callers && c != s.c && p.callers[c].Dialing? {
        assert p.callers[c].e != p.callers[s.c].e;
      }
    }
  }

  lemma {:induction false} InvStep(p: Pool, s: Step)
    requires Inv(p) && Enabled(p, s)
    ensures Inv(Next(p, s))
  {
    EntriesInvStep(p, s);
    var r := Next(p, s);
    forall c | c in r.callers
      ensures CallerOK(r, r.callers[c])
    {
      CallersStep(p, s, c);
    }
    forall c, d | c in r.callers && d in r.callers && c != d && r.callers[c].Dialing? && r.callers[d].Dialing?
      ensures r.callers[c].e != r.callers[d].e
    {
      if c in p.callers {
        assert CallerOK(p, p.callers[c]);
      }
      if d in p.callers {
        assert CallerOK(p, p.callers[d]);
      }
    }
  }

  // ---------------------------------------------------------------------------
  // Whole runs
  // ---------------------------------------------------------------------------

  ghost predicate IsRun(ps: seq<Pool>, ss: seq<Step>) {
    && |ps| == |ss| + 1
    && ps[0] == EMPTY_POOL
    && (forall i :: 0 <= i < |ss| ==> Enabled(ps[i], ss[i]) && ps[i + 1] == Next(ps[i], ss[i]))
  }

  lemma {:induction false} ExtendRun(ps: seq<Pool>, ss: seq<Step>, s: Step)
    requires IsRun(ps, ss) && Enabled(ps[|ss|], s)
    ensures IsRun(ps + [Next(ps[|ss|], s)], ss + [s])
  {
    hide Enabled, Next;
    var qs, ts := ps + [Next(ps[|ss|], s)], ss + [s];
    assert forall i :: 0 <= i < |ps| ==> qs[i] == ps[i];
    assert forall i :: 0 <= i < |ss| ==> ts[i] == ss[i];
  }

  lemma {:induction false} RunKeeps(ps: seq<Pool>, ss: seq<Step>)
    requires IsRun(ps, ss)
    ensures Inv(ps[|ss|])
    decreases |ss|
  {
    if ss == [] {
    } else {
      hide Next, Enabled, Inv;
      var n := |ss| - 1;
      RunKeeps(ps[..n + 1], ss[..n]);
      InvStep(ps[n], ss[n]);
    }
  }

  /** A dial starts at this step. */
  predicate StartsDial(p: Pool, s: Step)
    requires Enabled(p, s)
  {
    s.Look? && Next(p, s).callers[s.c].Dialing?
  }

  /**
   In every run at most one dial per address is in progress, and one starts only where none is and no
   dialled session of that address is live.
   */
  lemma {:induction false} SingleFlight(ps: seq<Pool>, ss: seq<Step>, c: nat, d: nat)
    requires IsRun(ps, ss)
    ensures var p := ps[|ss|];
      && c in p.callers && d in p.callers && p.callers[c].Dialing? && p.callers[d].Dialing?
      && p.callers[c].addr == p.callers[d].addr
      ==> c == d
    ensures var p := ps[|ss|];
      forall s :: Enabled(p, s) && StartsDial(p, s) ==>
        forall e :: e in p.table && p.table[e].addr == p.callers[s.c].addr ==> Spent(p.table[e])
  {
    RunKeeps(ps, ss);
    var p := ps[|ss|];
    if c in p.callers && d in p.callers {
      assert CallerOK(p, p.callers[c]) && CallerOK(p, p.callers[d]);
    }
  }

  /** In every run two callers answered from one entry were given the same outcome, which never changes. */
  lemma {:induction false} SharedOutcome(ps: seq<Pool>, ss: seq<Step>, c: nat, d: nat)
    requires IsRun(ps, ss)
    ensures var p := ps[|ss|];
      && (c in p.callers && d in p.callers && p.callers[c].Returned? && p.callers[d].Returned?
          && p.callers[c].result.via.Some? && p.callers[c].result.via == p.callers[d].result.via
          ==> p.callers[c].result.outcome == p.callers[d].result.outcome)
  {
    RunKeeps(ps, ss);
    var p := ps[|ss|];
    if c in p.callers && d in p.callers {
      assert CallerOK(p, p.callers[c]) && CallerOK(p, p.callers[d]);
    }
  }

  /** An entry's outcome, once set, stands. */
  lemma {:induction false} OutcomeStands(p: Pool, s: Step, e: nat)
    requires Inv(p) && Enabled(p, s) && e in p.table && p.table[e].outcome.Some?
    ensures e in Next(p, s).table && Next(p, s).table[e].outcome == p.table[e].outcome
  {
    if s.DialEnds? {
      assert CallerOK(p, p.callers[s.c]);
    }
  }

  /** No step takes an entry out of the map unless it is spent: a stale removal leaves a newer entry alone. */
  lemma {:induction false} OnlySpentRemoved(p: Pool, s: Step, a: Addr)
    requires Inv(p) && Enabled(p, s) && a in p.entries && !Spent(p.table[p.entries[a]])
    ensures a in Next(p, s).entries && Next(p, s).entries[a] == p.entries[a]
  {
    if s.DropDead? || s.DropFailed? {
      assert CallerOK(p, p.callers[s.c]);
    }
  }

  /** Once dialing has stopped it stays stopped, and no entry is published. */
  lemma {:induction false} NothingPublishedAfterStop(ps: seq<Pool>, ss: seq<Step>, i: nat, j: nat)
    requires IsRun(ps, ss) && i <= j <= |ss| && ps[i].noDial
    ensures ps[j].noDial && ps[j].table.Keys == ps[i].table.Keys
    ensures forall a :: a in ps[j].entries ==> a in ps[i].entries && ps[j].entries[a] == ps[i].entries[a]
    decreases j - i
  {
    if i < j {
      NothingPublishedAfterStop(ps, ss, i, j - 1);
      StoppedStep(ps, ss, j - 1);
    }
  }

  lemma {:induction false} StoppedStep(ps: seq<Pool>, ss: seq<Step>, j: nat)
    requires IsRun(ps, ss) && j < |ss| && ps[j].noDial
    ensures ps[j + 1].noDial && ps[j + 1].table.Keys == ps[j].table.Keys
    ensures forall a :: a in ps[j + 1].entries ==> a in ps[j].entries && ps[j + 1].entries[a] == ps[j].entries[a]
  {
    assert Enabled(ps[j], ss[j]) && ps[j + 1] == Next(ps[j], ss[j]);
  }

  // ---------------------------------------------------------------------------
  // What a caller is given
  // ---------------------------------------------------------------------------

  /**
   From p to q caller c, which asked for a, gets its result: refused only if dialing has stopped and there is no
   entry for a, or else the outcome of an entry for a whose session, if it has one, is live.
   */
  predicate AnsweredFor(p: Pool, q: Pool, c: nat, a: Addr) {
    && c in p.callers && !p.callers[c].Returned? && c in q.callers && q.callers[c].Returned?
    && var r := q.callers[c].result;
       if r.via.None? then p.noDial && a !in p.entries && r.outcome.None?
       else
         && r.via.value in q.table && r.outcome.Some?
         && q.table[r.via.value].addr == a && q.table[r.via.value].outcome == r.outcome && !q.table[r.via.value].dead
  }

  /** The k-th step is c's call for a. */
  ghost predicate Asked(ss: seq<Step>, k: int, c: nat, a: Addr) {
    0 <= k < |ss| && ss[k] == Call(c, a)
  }

  ghost predicate Answered(ps: seq<Pool>, n: nat, c: nat, a: Addr, r: Caller) {
    exists i :: 0 <= i < n < |ps| && AnsweredFor(ps[i], ps[i + 1], c, a) && ps[i + 1].callers[c] == r
  }

  /** After n steps caller c has called for a, and works on that or has been answered. */
  ghost predicate Traced(ps: seq<Pool>, n: nat, c: nat, a: Addr)
    requires n < |ps|
  {
    && c in ps[n].callers
    && (!ps[n].callers[c].Returned? ==> ps[n].callers[c].addr == a)
    && (ps[n].callers[c].Returned? ==> Answered(ps, n, c, a, ps[n].callers[c]))
  }

  lemma {:induction false} AnswerStep(p: Pool, s: Step, c: nat)
    requires Inv(p) && Enabled(p, s) && c in p.callers
    ensures var q := Next(p, s);
      && c in q.callers
      && (p.callers[c].Returned? ==> q.callers[c] == p.callers[c])
      && (!p.callers[c].Returned? && !q.callers[c].Returned? ==> q.callers[c].addr == p.callers[c].addr)
      && (!p.callers[c].Returned? && q.callers[c].Returned? ==> AnsweredFor(p, q, c, p.callers[c].addr))
  {
    assert CallerOK(p, p.callers[c]);
  }

  lemma {:induction false} TraceStep(ps: seq<Pool>, ss: seq<Step>, n: nat, c: nat, a: Addr)
    requires IsRun(ps, ss) && n < |ss| && Traced(ps, n, c, a)
    ensures Traced(ps, n + 1, c, a)
  {
    RunKeeps(ps[..n + 1], ss[..n]);
    AnswerStep(ps[n], ss[n], c);
    hide Next, Enabled, Inv, AnsweredFor;
    if ps[n].callers[c].Returned? {
      var i :| 0 <= i < n && AnsweredFor(ps[i], ps[i + 1], c, a) && ps[i + 1].callers[c] == ps[n].callers[c];
      assert 0 <= i < n + 1;
    }
  }

  lemma {:induction false} Trace(ps: seq<Pool>, ss: seq<Step>, n: nat, c: nat) returns (k: nat, a: Addr)
    requires IsRun(ps, ss) && n <= |ss| && c in ps[n].callers
    ensures Asked(ss, k, c, a) && k < n && Traced(ps, n, c, a)
    decreases n
  {
    var m := n - 1;
    assert n > 0 && Enabled(ps[m], ss[m]) && ps[m + 1] == Next(ps[m], ss[m]);
    if c in ps[m].callers {
      k, a := Trace(ps, ss, m, c);
      TraceStep(ps, ss, m, c, a);
    } else {
      k, a := m, ps[n].callers[c].addr;
    }
  }

  /**
   In every run a caller that has returned asked for some address before, and was handed a session only of that
   address and only while it lived; it was refused only once dialing had stopped and none was there.
   */
  lemma {:induction false} HandedLive(ps: seq<Pool>, ss: seq<Step>, c: nat)
    requires IsRun(ps, ss) && c in ps[|ss|].callers && ps[|ss|].callers[c].Returned?
    ensures exists k, a :: Asked(ss, k, c, a) && Answered(ps, |ss|, c, a, ps[|ss|].callers[c])
  {
    var k, a := Trace(ps, ss, |ss|, c);
    assert Asked(ss, k, c, a);
  }

  lemma {:induction false} GoneStep(p: Pool, s: Step, e: nat)
    requires Enabled(p, s) && e in p.table && e !in p.entries.Values
    ensures e in Next(p, s).table && e !in Next(p, s).entries.Values
    ensures s.Look? && Next(p, s).callers[s.c].Waiting? ==> Next(p, s).callers[s.c].e != e
  {
  }

  /** Once out of the map an entry never comes back: no caller waits for it again. */
  lemma {:induction false} GoneForGood(ps: seq<Pool>, ss: seq<Step>, i: nat, j: nat, e: nat)
    requires IsRun(ps, ss) && i <= j <= |ss| && e in ps[i].table && e !in ps[i].entries.Values
    ensures e in ps[j].table && e !in ps[j].entries.Values
    ensures j < |ss| && ss[j].Look? && ps[j + 1].callers[ss[j].c].Waiting? ==> ps[j + 1].callers[ss[j].c].e != e
    decreases j - i
  {
    hide Next, Enabled;
    if i < j {
      GoneForGood(ps, ss, i, j - 1, e);
      GoneStep(ps[j - 1], ss[j - 1], e);
    }
    if j < |ss| {
      GoneStep(ps[j], ss[j], e);
    }
  }

  /** What this step is done with: the entry of the ended session, of the failed dial, or of the evicted session. */
  ghost predicate Drops(p: Pool, s: Step, e: nat) {
    match s
    case DropDead(c) => c in p.callers && p.callers[c].SawDead? && p.callers[c].e == e
    case DropFailed(c) => c in p.callers && p.callers[c].DialFailed? && p.callers[c].e == e
    case Evict(x) => x == e
    case _ => false
  }

  /** In every run an entry that is dropped is spent, and out of the map; a caller that saw it dead calls again. */
  lemma {:induction false} DroppedIsOut(ps: seq<Pool>, ss: seq<Step>, n: nat, e: nat)
    requires IsRun(ps, ss) && n < |ss| && Drops(ps[n], ss[n], e)
    ensures e in ps[n].table && Spent(ps[n].table[e]) && e !in ps[n + 1].entries.Values
    ensures ss[n].DropDead? ==> ps[n].table[e].dead && ps[n + 1].callers[ss[n].c] == Calling(ps[n].table[e].addr)
  {
    RunKeeps(ps[..n + 1], ss[..n]);
    assert Enabled(ps[n], ss[n]) && ps[n + 1] == Next(ps[n], ss[n]);
    if !ss[n].Evict? {
      assert CallerOK(ps[n], ps[n].callers[ss[n].c]);
    }
  }

  /** One of the first n steps is s. */
  ghost predicate Happened(ss: seq<Step>, n: nat, s: Step) {
    exists k :: 0 <= k < n <= |ss| && ss[k] == s
  }

  lemma {:induction false} HappenedLater(ss: seq<Step>, n: nat, s: Step)
    requires n < |ss|
    ensures Happened(ss, n + 1, s) <==> Happened(ss, n, s) || ss[n] == s
  {
  }

  lemma {:induction false} EndsStep(p: Pool, s: Step, e: nat)
    requires Inv(p) && Enabled(p, s) && e in Next(p, s).table
    ensures Next(p, s).table[e].dead <==> (e in p.table && p.table[e].dead) || s == Die(e)
  {
  }

  /** In every run a session has ended exactly if it did, and dialing has stopped exactly if it was told to. */
  lemma {:induction false} EndsExact(ps: seq<Pool>, ss: seq<Step>, n: nat, e: nat)
    requires IsRun(ps, ss) && n <= |ss|
    ensures e in ps[n].table ==> (ps[n].table[e].dead <==> Happened(ss, n, Die(e)))
    ensures e !in ps[n].table ==> !Happened(ss, n, Die(e))
    ensures ps[n].noDial <==> Happened(ss, n, StopDialing)
    decreases n
  {
    if n == 0 {
      return;
    }
    hide Happened, Inv;
    EndsExact(ps, ss, n - 1, e);
    RunKeeps(ps[..n], ss[..n - 1]);
    assert Enabled(ps[n - 1], ss[n - 1]) && ps[n] == Next(ps[n - 1], ss[n - 1]);
    HappenedLater(ss, n - 1, Die(e));
    HappenedLater(ss, n - 1, StopDialing);
    TableGrows(ps[n - 1], ss[n - 1], e);
    if e in ps[n].table {
      EndsStep(ps[n - 1], ss[n - 1], e);
    }
  }

  lemma {:induction false} TableGrows(p: Pool, s: Step, e: nat)
    requires Enabled(p, s)
    ensures e in p.table || s == Die(e) ==> e in Next(p, s).table
    ensures Next(p, s).noDial <==> p.noDial || s == StopDialing
  {
  }
}
