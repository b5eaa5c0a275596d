/**
 The pool of sessions as the relay holds it: a map of entries and a flag, under one lock. Its ghost fields
 number the entries and record the run of the machine that its methods have made, step by step.
 */
module UpstreamPoolObject {
  import opened Uint64
  import opened UpstreamPool

  class PoolEntry {
    var outcome: Option<Outcome>

    constructor ()
      ensures outcome == None
    {
      outcome := None;
    }
  }

  datatype Found = Existing(entry: PoolEntry) | Started(entry: PoolEntry) | Stopped

  /** ids numbers the entries as the machine does, each with a number of its own below nextID. */
  ghost predicate Numbers(m: Pool, entries: map<Addr, PoolEntry>, ids: map<PoolEntry, nat>, nextID: nat) {
    && (forall n :: n in m.table ==> n < nextID)
    && (forall a :: a in entries <==> a in m.entries)
    && (forall a :: a in entries ==> entries[a] in ids && ids[entries[a]] == m.entries[a])
    && (forall e :: e in ids ==> ids[e] < nextID)
    && (forall d, e :: d in ids && e in ids && ids[d] == ids[e] ==> d == e)
  }

  lemma {:induction false} StartNumbers(
    m: Pool, entries: map<Addr, PoolEntry>, ids: map<PoolEntry, nat>, nextID: nat, addr: Addr, c: nat, e: PoolEntry)
    requires Numbers(m, entries, ids, nextID) && e !in ids && addr !in entries && !m.noDial
    requires c in m.callers && m.callers[c] == Calling(addr)
    ensures Enabled(m, Look(c, nextID))
    ensures var r := Next(m, Look(c, nextID));
      && Numbers(r, entries[addr := e], ids[e := nextID], nextID + 1)
      && r.table == m.table[nextID := Entry(addr, None, false)] && r.noDial == m.noDial
  {
  }

  lemma {:induction false} DropNumbers(
    m: Pool, entries: map<Addr, PoolEntry>, ids: map<PoolEntry, nat>, nextID: nat, addr: Addr, e: PoolEntry, s: Step)
    requires Numbers(m, entries, ids, nextID) && e in ids && Removes(m, s, addr, ids[e])
    ensures var r := Next(m, s);
      && Numbers(r, if addr in entries && entries[addr] == e then entries - {addr} else entries, ids, nextID)
      && r.table == m.table && r.noDial == m.noDial
  {
    RemovalIs(m, s, addr, ids[e]);
    hide Next, Enabled;
  }

  /** s is a removal of entry n of addr: by who dialled it, by who found it dead, or by its session's end. */
  predicate Removes(m: Pool, s: Step, addr: Addr, n: nat) {
    Enabled(m, s)
    && ((s.Evict? && s.e == n && m.table[n].addr == addr)
        || (s.DropDead? && m.callers[s.c] == SawDead(addr, n))
        || (s.DropFailed? && m.callers[s.c] == DialFailed(addr, n)))
  }

  lemma {:induction false} RemovalIs(m: Pool, s: Step, addr: Addr, n: nat)
    requires Removes(m, s, addr, n)
    ensures var r := Next(m, s); r.entries == Removed(m.entries, addr, n) && r.table == m.table && r.noDial == m.noDial
  {
  }

  class RelayPool {
    var entries: map<Addr, PoolEntry>
    var noDial: bool

    ghost var ids: map<PoolEntry, nat>
    ghost var nextID: nat
    ghost var states: seq<Pool>
    ghost var steps: seq<Step>

    /** Where the run stands. */
    ghost function Machine(): Pool
      reads this
      requires states != []
    {
      states[|states| - 1]
    }

    /** The fields are the state a run of the machine has reached. */
    ghost predicate Valid()
      reads this, ids.Keys
    {
      && |states| == |steps| + 1 && IsRun(states, steps) && noDial == Machine().noDial
      && Numbers(Machine(), entries, ids, nextID)
      && (forall e :: e in ids ==> ids[e] in Machine().table && Machine().table[ids[e]].outcome == e.outcome)
    }

    constructor ()
      ensures Valid() && states == [EMPTY_POOL] && entries == map[] && !noDial
    {
      entries, noDial := map[], false;
      ids, nextID, states, steps := map[], 0, [EMPTY_POOL], [];
    }

    /** A step that changes nothing the pool holds: a call, a wait that ends, a session that ends. */
    ghost method Observe(s: Step)
      requires Valid() && Enabled(Machine(), s) && (s.Call? || s.Wake? || s.Die?)
      modifies `states, `steps
      ensures Valid() && Machine() == Next(old(Machine()), s) && steps == old(steps) + [s]
    {
      ExtendRun(states, steps, s);
      states, steps := states + [Next(Machine(), s)], steps + [s];
    }

    /** Puts a new entry in the map for caller c to dial for. */
    method Start(addr: Addr, ghost c: nat) returns (e: PoolEntry)
      requires Valid() && c in Machine().callers && Machine().callers[c] == Calling(addr) && addr !in entries && !noDial
      modifies `entries, `ids, `nextID, `states, `steps
      ensures Valid() && Machine() == Next(old(Machine()), Look(c, old(nextID)))
      ensures steps == old(steps) + [Look(c, old(nextID))]
      ensures fresh(e) && e.outcome == None && entries == old(entries)[addr := e]
    {
      hide IsRun, Next, Enabled, Numbers;
      e := new PoolEntry();
      StartNumbers(Machine(), entries, ids, nextID, addr, c, e);
      ghost var s := Look(c, nextID);
      ghost var next := Next(Machine(), s);
      ExtendRun(states, steps, s);
      entries := entries[addr := e];
      ids, nextID := ids[e := nextID], nextID + 1;
      states, steps := states + [next], steps + [s];
    }

    /** The entry to wait on, or a new one for caller c to dial for, unless dialing has stopped. */
    method LookUp(addr: Addr, ghost c: nat) returns (r: Found)
      requires Valid() && c in Machine().callers && Machine().callers[c] == Calling(addr)
      modifies `entries, `ids, `nextID, `states, `steps
      ensures Valid() && Machine() == Next(old(Machine()), Look(c, old(nextID)))
      ensures steps == old(steps) + [Look(c, old(nextID))] && (addr in old(entries) || noDial ==>
        entries == old(entries))
      ensures addr in old(entries) ==> r == Existing(old(entries)[addr])
      ensures addr !in old(entries) && noDial ==> r.Stopped?
      ensures addr !in old(entries) && !noDial ==>
        r.Started? && fresh(r.entry) && entries == old(entries)[addr := r.entry]
    {
      if addr !in entries && !noDial {
        var e := Start(addr, c);
        return Started(e);
      }
      ghost var s := Look(c, nextID);
      ghost var next := Next(Machine(), s);
      ExtendRun(states, steps, s);
      hide IsRun, Next, Enabled;
      r := if addr in entries then Existing(entries[addr]) else Stopped;
      states, steps := states + [next], steps + [s];
    }

    /** Caller c's dial has ended: everyone waiting on e may go on. */
    method Resolve(e: PoolEntry, outcome: Outcome, ghost c: nat)
      requires Valid() && e in ids && c in Machine().callers
      requires Machine().callers[c].Dialing? && Machine().callers[c].e == ids[e]
      modifies `states, `steps, e
      ensures Valid() && Machine() == Next(old(Machine()), DialEnds(c, outcome))
      ensures steps == old(steps) + [DialEnds(c, outcome)] && e.outcome == Some(outcome)
    {
      ghost var s := DialEnds(c, outcome);
      ghost var next := Next(Machine(), s);
      ExtendRun(states, steps, s);
      e.outcome := Some(outcome);
      states, steps := states + [next], steps + [s];
    }

    /** Takes e out of the map, unless its place has been taken since. */
    method Drop(addr: Addr, e: PoolEntry, ghost s: Step)
      requires Valid() && e in ids && Removes(Machine(), s, addr, ids[e])
      modifies `entries, `states, `steps
      ensures Valid() && Machine() == Next(old(Machine()), s) && steps == old(steps) + [s]
      ensures addr in entries ==> entries[addr] != e
      ensures forall a :: a in old(entries) && (a != addr || old(entries)[a] != e) ==>
        a in entries && entries[a] == old(entries)[a]
    {
      hide IsRun, Enabled, Next, Numbers;
      ghost var next := Next(Machine(), s);
      ExtendRun(states, steps, s);
      DropNumbers(Machine(), entries, ids, nextID, addr, e, s);
      if addr in entries && entries[addr] == e {
        entries := entries - {addr};
      }
      states, steps := states + [next], steps + [s];
    }

    method StopDialing()
      requires Valid()
      modifies `noDial, `states, `steps
      ensures Valid() && noDial && Machine() == Next(old(Machine()), Step.StopDialing)
      ensures steps == old(steps) + [Step.StopDialing]
    {
      ghost var next := Next(Machine(), Step.StopDialing);
      ExtendRun(states, steps, Step.StopDialing);
      noDial := true;
      states, steps := states + [next], steps + [Step.StopDialing];
    }
  }

  /** A pool in use never dials one address twice at a time, nor where a session lives. */
  lemma {:induction false} PoolDialsOnce(p: RelayPool, c: nat, d: nat)
    requires p.Valid()
    ensures var m := p.Machine();
      && (c in m.callers && d in m.callers && m.callers[c].Dialing? && m.callers[d].Dialing?
          && m.callers[c].addr == m.callers[d].addr
          ==> c == d)
      && (forall s :: Enabled(m, s) && StartsDial(m, s) ==>
            forall e :: e in m.table && m.table[e].addr == m.callers[s.c].addr ==> Spent(m.table[e]))
  {
    SingleFlight(p.states, p.steps, c, d);
  }
}
