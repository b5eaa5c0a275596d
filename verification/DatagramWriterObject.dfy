/**
 The writer as the relay holds it: a bounded queue, made when it is first needed, and a flag, under one lock.
 Each method is what is done under the lock, or the worker's way out; the ghost fields record the run of the
 machine made so far.
 */
module DatagramWriterObject {
  import opened Uint64
  import opened DatagramWriter

  class DatagramQueue {
    const size: nat
    var queue: seq<Item>
    var started: bool
    var stopped: bool

    ghost var states: seq<Writer>
    ghost var steps: seq<Step>

    ghost predicate Runs()
      reads this
    {
      |states| == |steps| + 1 && IsRun(states, steps)
    }

    /** Where the run stands. */
    ghost function Machine(): Writer
      reads this
      requires states != []
    {
      states[|states| - 1]
    }

    /** The fields are the state a run of the machine has reached, and the queue holds no more than it may. */
    ghost predicate Valid()
      reads this
    {
      && Runs() && Machine().size == size && stopped == Machine().stopped
      && Machine().queue == (if started then Some(queue) else None)
      && (!started ==> queue == []) && |queue| <= size
    }

    constructor (size: nat)
      ensures Valid() && this.size == size && !stopped && states == [NewWriter(size)]
    {
      this.size := size;
      queue, started, stopped := [], false, false;
      states, steps := [NewWriter(size)], [];
    }

    ghost method Record(s: Step)
      requires Runs() && Enabled(Machine(), s)
      modifies `states, `steps
      ensures Runs() && Machine() == Next(old(Machine()), s) && steps == old(steps) + [s]
    {
      ExtendRun(states, steps, s);
      hide IsRun, Next, Enabled;
      states, steps := states + [Next(Machine(), s)], steps + [s];
    }

    /** A step outside the lock: a publisher releases what it dropped, a send starts or ends, the session ends. */
    ghost method Observe(s: Step)
      requires Valid() && Enabled(Machine(), s)
      requires s.ReleaseDropped? || s.EndSession? || s.Quit? || s.CheckItem? || s.Sent?
      modifies `states, `steps
      ensures Valid() && Machine() == Next(old(Machine()), s) && steps == old(steps) + [s]
    {
      Record(s);
      hide IsRun;
    }

    /** Reserves and enqueues item, unless no more are taken; full: item is the caller's to release again. */
    method Enqueue(item: Item, admitted: bool) returns (full: bool)
      requires Valid() && item.serial == |Machine().begun|
      modifies `queue, `started, `states, `steps
      ensures Valid() && Machine() == Next(old(Machine()), Step.Enqueue(item.sub, admitted))
      ensures stopped || !admitted ==> !full && Machine() == old(Machine())
      ensures !stopped && admitted ==>
        && Machine().begun == old(Machine().begun) + [item] && full == (old(|queue|) == size)
        && Machine().dropping == old(Machine().dropping) + if full then [item] else []
    {
      Record(Step.Enqueue(item.sub, admitted));
      hide IsRun;
      if stopped || !admitted {
        return false;
      }
      if !started {
        queue, started := [], true;
      }
      if |queue| < size {
        queue, full := queue + [item], false;
      } else {
        full := true;
      }
    }

    method Stop()
      requires Valid()
      modifies `stopped, `states, `steps
      ensures Valid() && Machine() == Next(old(Machine()), Step.Stop)
    {
      Record(Step.Stop);
      hide IsRun;
      stopped := true;
    }

    /** The worker's next datagram: the one enqueued first. */
    method TakeOne() returns (item: Item)
      requires Valid() && Machine().worker.Running? && queue != []
      modifies `queue, `states, `steps
      ensures Valid() && Machine() == Next(old(Machine()), Take) && [item] + queue == old(queue)
    {
      Record(Take);
      hide IsRun;
      item := queue[0];
      queue := queue[1..];
    }

    /** Takes the datagram in front and releases it. */
    method DropOne()
      requires Valid() && Machine().worker.Draining? && queue != []
      modifies `queue, `states, `steps
      ensures Valid() && queue == old(queue)[1..]
      ensures Machine() == old(Machine()).(queue := Some(queue), ended := old(Machine().ended) + [old(queue)[0]])
    {
      Record(DrainOne);
      Record(Discard);
      hide IsRun;
      queue := queue[1..];
    }

    /** The worker's way out: it lets no more in, releases what is queued, in order, and leaves nothing reserved. */
    method StopAndDrain()
      requires Valid() && Machine().worker.Quitting?
      modifies `queue, `stopped, `states, `steps
      ensures Valid() && stopped && queue == [] && Machine().worker.Exited? && Machine().begun == old(Machine().begun)
      ensures Machine().ended == old(Machine().ended) + old(queue) && Machine().dropping == old(Machine().dropping)
      ensures forall item ::
        Count(Machine().begun, item) == Count(Machine().ended, item) + Count(Machine().dropping, item)
    {
      Record(RefuseMore);
      stopped := true;
      ghost var before := Machine();
      assert started by { RunKeeps(states, steps); }
      hide IsRun, Next, Enabled;
      while queue != []
        invariant Valid() && stopped && started
        invariant Machine() == before.(queue := Some(queue), ended := Machine().ended)
        invariant Machine().ended + queue == before.ended + old(queue)
        decreases |queue|
      {
        ghost var d := queue[0];
        assert Machine().ended + queue == (Machine().ended + [d]) + queue[1..];
        DropOne();
      }
      Leave();
    }

    ghost method Leave()
      requires Valid() && Machine().worker.Draining? && queue == []
      modifies `states, `steps
      ensures Valid() && Machine() == old(Machine()).(worker := Exited)
      ensures forall item ::
        Count(Machine().begun, item) == Count(Machine().ended, item) + Count(Machine().dropping, item)
    {
      Record(Exit);
      forall item
        ensures Count(Machine().begun, item) == Count(Machine().ended, item) + Count(Machine().dropping, item)
      {
        NothingLeftReserved(states, steps, 0, false, item);
      }
    }
  }

  /** However its methods are called, a queue loses no reservation and releases none twice. */
  lemma {:induction false} QueueConserves(q: DatagramQueue)
    requires q.Valid()
    ensures Conserved(q.Machine()) && forall item :: Count(q.Machine().ended, item) <= 1
    ensures |q.Machine().begun|
      == |q.Machine().ended| + |q.queue| + |Held(q.Machine().worker)| + |q.Machine().dropping|
  {
    ReservationsConserved(q.states, q.steps);
  }
}
