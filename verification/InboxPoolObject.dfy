/**
 The pool as the relay holds it: queues that are objects, handed from writer to writer. The ghost fields
 number the queues and record the run of the machine made so far.
 */
module InboxPoolObject {
  import opened Uint64
  import opened InboxPool

  class Inbox {
    const capacity: nat
    var items: seq<Item>

    constructor (capacity: nat)
      ensures this.capacity == capacity && items == []
    {
      this.capacity := capacity;
      items := [];
    }
  }

  /** ids numbers the queues as the machine does, each with a number of its own below nextID; all hold as many. */
  ghost predicate Numbers(m: Pool, free: seq<Inbox>, ids: map<Inbox, nat>, nextID: nat) {
    && |free| == |m.free|
    && (forall i :: 0 <= i < |free| ==> free[i] in ids && ids[free[i]] == m.free[i])
    && (forall q :: q in m.queues ==> q < nextID)
    && (forall e :: e in ids ==> ids[e] in m.queues && e.capacity == m.size)
    && (forall d, e :: d in ids && e in ids && ids[d] == ids[e] ==> d == e)
  }

  /** Inbox e is writer w's. */
  ghost predicate Has(m: Pool, ids: map<Inbox, nat>, w: nat, e: Inbox) {
    e in ids && w in m.writers && m.writers[w].inbox == Some(ids[e])
  }

  /** e is nobody's but w's. */
  ghost predicate Alone(m: Pool, free: seq<Inbox>, ids: map<Inbox, nat>, w: nat, e: Inbox) {
    Has(m, ids, w, e) && e !in free && forall v :: v in m.writers && v != w ==> !Has(m, ids, v, e)
  }

  lemma {:induction false} TakeNew(m: Pool, ids: map<Inbox, nat>, nextID: nat, w: nat, e: Inbox)
    requires Numbers(m, [], ids, nextID) && e !in ids && e.capacity == m.size && w !in m.writers
    ensures Enabled(m, Get(w, nextID)) && nextID !in m.queues
    ensures var r := Next(m, Get(w, nextID));
      && Numbers(r, [], ids[e := nextID], nextID + 1)
      && r.queues == m.queues[nextID := []] && r.size == m.size && Has(r, ids[e := nextID], w, e)
  {
  }

  lemma {:induction false} TakeFree(m: Pool, free: seq<Inbox>, ids: map<Inbox, nat>, nextID: nat, w: nat)
    requires Numbers(m, free, ids, nextID) && free != [] && w !in m.writers
    ensures Enabled(m, Get(w, ids[free[0]]))
    ensures var r := Next(m, Get(w, ids[free[0]]));
      && Numbers(r, free[1..], ids, nextID)
      && r.queues == m.queues && r.size == m.size && Has(r, ids, w, free[0])
  {
  }

  /** Whoever has a queue has it alone. */
  lemma {:induction false} HasAlone(m: Pool, free: seq<Inbox>, ids: map<Inbox, nat>, nextID: nat, w: nat, e: Inbox)
    requires Inv(m) && Numbers(m, free, ids, nextID) && Has(m, ids, w, e)
    ensures Alone(m, free, ids, w, e)
  {
    assert forall i :: 0 <= i < |free| ==> m.free[i] in m.free;
  }

  lemma {:induction false} OwnQueue(m: Pool, s: Step, free: seq<Inbox>, ids: map<Inbox, nat>, nextID: nat, e: Inbox)
    requires Numbers(m, free, ids, nextID) && Has(m, ids, s.w, e) && Enabled(m, s) && !s.Get? && !s.Put?
    ensures var r := Next(m, s);
      && Numbers(r, free, ids, nextID) && Has(r, ids, s.w, e) && r.size == m.size
      && r.queues == m.queues[ids[e] := r.queues[ids[e]]]
  {
  }

  lemma {:induction false} PutNumbers(m: Pool, w: nat, free: seq<Inbox>, ids: map<Inbox, nat>, nextID: nat, e: Inbox)
    requires Numbers(m, free, ids, nextID) && Has(m, ids, w, e) && Enabled(m, Put(w))
    ensures var r := Next(m, Put(w));
      && Numbers(r, if |free| < MAX_FREE then free + [e] else free, ids, nextID)
      && r.queues == m.queues && r.size == m.size && r.writers == m.writers[w := r.writers[w]]
      && (Alone(m, free, ids, w, e) ==> forall v :: v in r.writers ==> !Has(r, ids, v, e))
  {
  }

  class SubgroupInboxPool {
    const size: nat
    var free: seq<Inbox>

    ghost var ids: map<Inbox, nat>
    ghost var nextID: nat
    ghost var states: seq<Pool>
    ghost var steps: seq<Step>

    ghost predicate Runs()
      reads this
    {
      |states| == |steps| + 1 && IsRun(states, steps)
    }

    /** Where the run stands. */
    ghost function Machine(): Pool
      reads this
      requires states != []
    {
      states[|states| - 1]
    }

    /** The queues and the free list are those a run of the machine has reached. */
    ghost predicate Valid()
      reads this, ids.Keys
    {
      && Runs() && Machine().size == size
      && Numbers(Machine(), free, ids, nextID)
      && (forall e :: e in ids ==> ids[e] in Machine().queues && Machine().queues[ids[e]] == e.items)
    }

    constructor (size: nat)
      ensures Valid() && this.size == size && free == [] && states == [Pool(size, map[], [], map[])]
    {
      this.size := size;
      free := [];
      ids, nextID, states, steps := map[], 0, [Pool(size, map[], [], map[])], [];
    }

    ghost method Record(s: Step)
      requires Runs() && Enabled(Machine(), s)
      modifies `states, `steps
      ensures Runs() && Machine() == Next(old(Machine()), s) && steps == old(steps) + [s]
    {
      ExtendRun(states, steps, s);
      hide IsRun, Next, Enabled;
      states, steps := states + [Next(Machine(), s)], steps + [s];
    }

    /** A step of a writer that leaves its queue as it is. */
    ghost method Observe(s: Step, inbox: Inbox)
      requires Valid() && Has(Machine(), ids, s.w, inbox) && Enabled(Machine(), s)
      requires !s.Get? && !s.Put? && Contents(Next(Machine(), s), s.w) == inbox.items
      modifies `states, `steps
      ensures Valid() && Machine() == Next(old(Machine()), s) && steps == old(steps) + [s]
      ensures Has(Machine(), ids, s.w, inbox)
    {
      hide IsRun, Next, Enabled, Numbers;
      OwnQueue(Machine(), s, free, ids, nextID, inbox);
      Record(s);
    }

    /** A queue for writer w, empty and nobody else's: the one free longest, or a new one. */
    method Take(ghost w: nat) returns (inbox: Inbox)
      requires Valid() && w !in Machine().writers
      modifies `free, `ids, `nextID, `states, `steps
      ensures Valid() && Alone(Machine(), free, ids, w, inbox) && inbox.items == []
      ensures if old(free) == [] then fresh(inbox) && free == [] else [inbox] + free == old(free)
      ensures Machine() == Next(old(Machine()), Get(w, if old(free) == [] then old(nextID) else old(ids[free[0]])))
    {
      hide IsRun, Next, Enabled, Numbers, Has, Alone;
      if free == [] {
        inbox := Make(w);
      } else {
        inbox := Reuse(w);
      }
      assert Inv(Machine()) by { RunKeeps(states, steps); }
      HasAlone(Machine(), free, ids, nextID, w, inbox);
    }

    method Make(ghost w: nat) returns (inbox: Inbox)
      requires Valid() && w !in Machine().writers && free == []
      modifies `ids, `nextID, `states, `steps
      ensures Valid() && Has(Machine(), ids, w, inbox) && fresh(inbox) && inbox.items == []
      ensures Machine() == Next(old(Machine()), Get(w, old(nextID)))
    {
      hide IsRun, Next, Enabled, Numbers, Has;
      inbox := new Inbox(size);
      TakeNew(Machine(), ids, nextID, w, inbox);
      Record(Get(w, nextID));
      ids, nextID := ids[inbox := nextID], nextID + 1;
    }

    method Reuse(ghost w: nat) returns (inbox: Inbox)
      requires Valid() && w !in Machine().writers && free != []
      modifies `free, `states, `steps
      ensures Valid() && Has(Machine(), ids, w, inbox) && inbox.items == [] && [inbox] + free == old(free)
      ensures Machine() == Next(old(Machine()), Get(w, ids[old(free)[0]]))
    {
      FreeIsEmpty();
      hide IsRun, Next, Enabled, Numbers, Has;
      inbox := free[0];
      TakeFree(Machine(), free, ids, nextID, w);
      Record(Get(w, ids[inbox]));
      free := free[1..];
    }

    lemma {:induction false} FreeIsEmpty()
      requires Valid()
      ensures forall i :: 0 <= i < |free| ==> free[i] in ids && free[i].items == []
    {
      RunKeeps(states, steps);
      hide IsRun;
    }

    /** Enqueues an Object for w, unless w has closed or its queue is full. */
    method Publish(w: nat, inbox: Inbox, obj: nat, closed: bool) returns (accepted: bool)
      requires Valid() && Has(Machine(), ids, w, inbox) && closed == Machine().writers[w].closed
      modifies `states, `steps, inbox
      ensures Valid() && Machine() == Next(old(Machine()), Step.Publish(w, obj)) && Has(Machine(), ids, w, inbox)
      ensures accepted == (!closed && |old(inbox.items)| < size)
      ensures Machine().writers[w].accepted ==
        old(Machine()).writers[w].accepted + if accepted then [Item(w, obj)] else []
    {
      ghost var s := Step.Publish(w, obj);
      OwnQueue(Machine(), s, free, ids, nextID, inbox);
      hide IsRun, Numbers, Enabled;
      Record(s);
      accepted := !closed && |inbox.items| < size;
      if accepted {
        inbox.items := inbox.items + [Item(w, obj)];
      }
    }

    /** The Object writer w has waited for longest. */
    method Receive(inbox: Inbox, ghost w: nat) returns (item: Item)
      requires Valid() && Has(Machine(), ids, w, inbox) && Receiving(At(Machine(), w)) && inbox.items != []
      modifies `states, `steps, inbox
      ensures Valid() && Machine() == Next(old(Machine()), Step.Receive(w)) && Has(Machine(), ids, w, inbox)
      ensures [item] + inbox.items == old(inbox.items) && item.owner == w
    {
      ghost var s := Step.Receive(w);
      assert inbox.items[0].owner == w by {
        RunKeeps(states, steps);
        assert InOrder(Machine(), w) && Contents(Machine(), w) == inbox.items;
      }
      OwnQueue(Machine(), s, free, ids, nextID, inbox);
      hide IsRun, Numbers, Enabled;
      Record(s);
      item := inbox.items[0];
      inbox.items := inbox.items[1..];
    }

    /** Throws the Object in front away. */
    method DiscardOne(inbox: Inbox, ghost w: nat)
      requires Valid() && Has(Machine(), ids, w, inbox) && At(Machine(), w).Emptying? && inbox.items != []
      modifies `states, `steps, inbox
      ensures Valid() && Has(Machine(), ids, w, inbox) && Machine().writers == old(Machine()).writers
      ensures inbox.items == old(inbox.items)[1..]
    {
      ghost var s := Discard(w);
      OwnQueue(Machine(), s, free, ids, nextID, inbox);
      hide IsRun, Numbers, Enabled;
      Record(s);
      inbox.items := inbox.items[1..];
    }

    /**
     Takes a queue back from writer w: emptied, and kept if there is room; no other writer notices. A queue of
     another capacity is not the pool's, and is left alone.
     */
    method GiveBack(inbox: Inbox, ghost w: nat)
      requires Valid() && (inbox.capacity == size ==> Has(Machine(), ids, w, inbox) && At(Machine(), w).Emptying?)
      modifies `free, `states, `steps, inbox
      ensures Valid() && (forall v :: v in Machine().writers ==> !Has(Machine(), ids, v, inbox))
      ensures inbox.items == if inbox.capacity == size then [] else old(inbox.items)
      ensures free == if inbox.capacity == size && |old(free)| < MAX_FREE then old(free) + [inbox] else old(free)
      ensures forall v :: v in old(Machine()).writers && v != w ==>
        v in Machine().writers && Machine().writers[v] == old(Machine()).writers[v]
    {
      assert inbox in ids ==> inbox.capacity == size;
      hide IsRun, Next, Enabled, Numbers, Alone;
      if inbox.capacity != size {
        return;
      }
      while inbox.items != []
        invariant Valid() && Has(Machine(), ids, w, inbox)
        invariant Machine().writers == old(Machine()).writers && free == old(free)
        decreases |inbox.items|
      {
        DiscardOne(inbox, w);
      }
      Finish(inbox, w);
      Put(inbox, w);
    }

    ghost method Finish(inbox: Inbox, w: nat)
      requires Valid() && Has(Machine(), ids, w, inbox) && At(Machine(), w).Emptying? && inbox.items == []
      modifies `states, `steps
      ensures Valid() && Has(Machine(), ids, w, inbox) && At(Machine(), w).Returning?
      ensures Machine().writers == old(Machine()).writers[w := Machine().writers[w]]
    {
      Observe(SeeEmpty(w), inbox);
      hide IsRun, Numbers;
    }

    /** Keeps an empty queue that writer w is done with, if there is room. */
    method Put(inbox: Inbox, ghost w: nat)
      requires Valid() && Has(Machine(), ids, w, inbox) && At(Machine(), w).Returning?
      modifies `free, `states, `steps
      ensures Valid() && (forall v :: v in Machine().writers ==> !Has(Machine(), ids, v, inbox))
      ensures free == if |old(free)| < MAX_FREE then old(free) + [inbox] else old(free)
      ensures w in Machine().writers && Machine().writers == old(Machine()).writers[w := Machine().writers[w]]
    {
      assert Alone(Machine(), free, ids, w, inbox) by {
        RunKeeps(states, steps);
        HasAlone(Machine(), free, ids, nextID, w, inbox);
      }
      PutNumbers(Machine(), w, free, ids, nextID, inbox);
      hide IsRun, Numbers, Enabled, Next, Alone;
      Record(Step.Put(w));
      if |free| < MAX_FREE {
        free := free + [inbox];
      }
    }
  }

  /** However its methods are called, no two writers have one queue, nor does the free list have a writer's. */
  lemma {:induction false} QueuesApart(p: SubgroupInboxPool, v: nat, w: nat, d: Inbox, e: Inbox)
    requires p.Valid() && Has(p.Machine(), p.ids, v, d) && Has(p.Machine(), p.ids, w, e) && v != w
    ensures d != e && d !in p.free && e !in p.free
    ensures forall i :: 0 <= i < |d.items| ==> d.items[i].owner == v
  {
    RunKeeps(p.states, p.steps);
    HasAlone(p.Machine(), p.free, p.ids, p.nextID, v, d);
    HasAlone(p.Machine(), p.free, p.ids, p.nextID, w, e);
    assert InOrder(p.Machine(), v) && Contents(p.Machine(), v) == d.items;
  }
}
