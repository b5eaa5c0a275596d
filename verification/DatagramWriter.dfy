/**
 One connection's datagrams: publishers reserve and enqueue, one worker sends, and every reservation is
 released exactly once, whatever is dropped on the way.
 */
module DatagramWriter {
  import opened Uint64

  /** A datagram with its own number, reserved on subscription sub. */
  datatype Item = Item(sub: nat, serial: nat)

  datatype Worker =
    | NotStarted
    | Running
    | InHand(item: Item)
    | Sending(item: Item)
    | Quitting
    | Draining
    | Discarding(item: Item)
    | Exited

  /** dropping: datagrams publishers found no room for and are about to release; sent: those handed to the session. */
  datatype Writer = Writer(
    size: nat,
    queue: Option<seq<Item>>,
    stopped: bool,
    sessionDone: bool,
    worker: Worker,
    dropping: seq<Item>,
    begun: seq<Item>,
    ended: seq<Item>,
    sent: seq<Item>
  )

  function NewWriter(size: nat): Writer {
    Writer(size, None, false, false, NotStarted, [], [], [], [])
  }

  /** unwanted: the datagram's subscription is cancelled, or it came in too long ago. */
  datatype Step =
    | Enqueue(sub: nat, admitted: bool)
    | ReleaseDropped(i: nat)
    | Stop
    | EndSession
    | Take
    | Quit
    | RefuseMore
    | CheckItem(unwanted: bool)
    | Sent
    | DrainOne
    | Discard
    | Exit

  function Queued(w: Writer): seq<Item> {
    if w.queue.Some? then w.queue.value else []
  }

  predicate Enabled(w: Writer, s: Step) {
    match s
    case Enqueue(_, _) => true
    case ReleaseDropped(i) => i < |w.dropping|
    case Stop => true
    case EndSession => true
    case Take => w.worker.Running? && Queued(w) != []
    case Quit => w.worker.Running? && (w.stopped || w.sessionDone)
    case RefuseMore => w.worker.Quitting?
    case CheckItem(_) => w.worker.InHand?
    case Sent => w.worker.Sending?
    case DrainOne => w.worker.Draining? && Queued(w) != []
    case Discard => w.worker.Discarding?
    case Exit => w.worker.Draining? && Queued(w) == []
  }

  /** A datagram is reserved under the writer's lock, unless it has stopped or the subscription refuses. */
  function Enqueued(w: Writer, sub: nat, admitted: bool): Writer {
    if w.stopped || !admitted then w
    else
      var item := Item(sub, |w.begun|);
      var w := w.(begun := w.begun + [item], queue := Some(Queued(w)),
                  worker := if w.queue.None? then Running else w.worker);
      if |Queued(w)| < w.size then w.(queue := Some(Queued(w) + [item])) else w.(dropping := w.dropping + [item])
  }

  function Next(w: Writer, s: Step): Writer
    requires Enabled(w, s)
  {
    match s
    case Enqueue(sub, admitted) => Enqueued(w, sub, admitted)
    case ReleaseDropped(i) =>
      w.(dropping := w.dropping[..i] + w.dropping[i + 1..], ended := w.ended + [w.dropping[i]])
    case Stop => w.(stopped := true)
    case EndSession => w.(sessionDone := true)
    case Take => w.(queue := Some(Queued(w)[1..]), worker := InHand(Queued(w)[0]))
    case Quit => w.(worker := Quitting)
    case RefuseMore => w.(stopped := true, worker := Draining)
    case CheckItem(unwanted) =>
      if w.stopped || w.sessionDone || unwanted then w.(worker := Running, ended := w.ended + [w.worker.item])
      else w.(worker := Sending(w.worker.item), sent := w.sent + [w.worker.item])
    case Sent => w.(worker := Running, ended := w.ended + [w.worker.item])
    case DrainOne => w.(queue := Some(Queued(w)[1..]), worker := Discarding(Queued(w)[0]))
    case Discard => w.(worker := Draining, ended := w.ended + [w.worker.item])
    case Exit => w.(worker := Exited)
  }

  // ---------------------------------------------------------------------------
  // Conservation
  // ---------------------------------------------------------------------------

  function One(x: Item, item: Item): nat {
    if x == item then 1 else 0
  }

  /** How often item is in s. */
  function Count(s: seq<Item>, item: Item): nat {
    if s == [] then 0 else Count(s[..|s| - 1], item) + One(s[|s| - 1], item)
  }

  /** What the worker has in hand. */
  function Held(x: Worker): seq<Item> {
    if x.InHand? || x.Sending? || x.Discarding? then [x.item] else []
  }

  /** How often item is released, queued, in the worker's hand or in a publisher's. */
  function Places(w: Writer, item: Item): nat {
    Count(w.ended, item) + Count(Queued(w), item) + Count(Held(w.worker), item) + Count(w.dropping, item)
  }

  ghost predicate Conserved(w: Writer) {
    forall item :: Count(w.begun, item) == Places(w, item)
  }

  lemma {:induction false} CountConcat(a: seq<Item>, b: seq<Item>, item: Item)
    ensures Count(a + b, item) == Count(a, item) + Count(b, item)
    decreases |b|
  {
    if b == [] {
      assert a + b == a;
    } else {
      var n := |b| - 1;
      CountConcat(a, b[..n], item);
      assert (a + b)[..|a| + n] == a + b[..n] && (a + b)[|a| + n] == b[n];
    }
  }

  lemma {:induction false} CountOne(x: Item, item: Item)
    ensures Count([x], item) == One(x, item) && Count([], item) == 0
  {
    assert [x][..0] == [];
  }

  lemma {:induction false} Counts(s: seq<Item>, x: Item, item: Item)
    ensures Count(s + [x], item) == Count(s, item) + One(x, item)
    ensures Count([x] + s, item) == Count(s, item) + One(x, item)
  {
    CountOne(x, item);
    CountConcat(s, [x], item);
    CountConcat([x], s, item);
  }

  ghost predicate Shape(w: Writer) {
    && (forall i :: 0 <= i < |w.begun| ==> w.begun[i].serial == i)
    && (w.queue.None? <==> w.worker.NotStarted?)
    && (w.worker.Draining? || w.worker.Discarding? || w.worker.Exited? ==> w.stopped)
    && (w.worker.Exited? ==> Queued(w) == [])
    && |w.begun| == |w.ended| + |Queued(w)| + |Held(w.worker)| + |w.dropping|
  }

  ghost predicate Inv(w: Writer) {
    Conserved(w) && Shape(w)
  }

  lemma {:induction false} ShapeStep(w: Writer, s: Step)
    requires Shape(w) && Enabled(w, s)
    ensures Shape(Next(w, s))
  {
  }

  lemma {:induction false} EnqueueConserves(w: Writer, sub: nat, admitted: bool, item: Item)
    requires Inv(w)
    ensures var r := Enqueued(w, sub, admitted); Count(r.begun, item) == Places(r, item)
  {
    hide Count;
    var x := Item(sub, |w.begun|);
    Counts(w.begun, x, item);
    Counts(Queued(w), x, item);
    Counts(w.dropping, x, item);
    assert Count(w.begun, item) == Places(w, item);
  }

  lemma {:induction false} ReleaseConserves(w: Writer, i: nat, item: Item)
    requires i < |w.dropping|
    ensures Places(Next(w, ReleaseDropped(i)), item) == Places(w, item)
  {
    hide Count;
    var x, before, after := w.dropping[i], w.dropping[..i], w.dropping[i + 1..];
    assert w.dropping == before + ([x] + after);
    Counts(after, x, item);
    Counts(w.ended, x, item);
    CountConcat(before, [x] + after, item);
    CountConcat(before, after, item);
  }

  /** The head of the queue comes into the worker's hand, and what is in hand is released or stays there. */
  lemma {:induction false} WorkerConserves(w: Writer, s: Step, item: Item)
    requires Enabled(w, s) && !s.Enqueue? && !s.ReleaseDropped?
    ensures Places(Next(w, s), item) == Places(w, item)
  {
    hide Count;
    if s.Take? || s.DrainOne? {
      assert Queued(w) == [Queued(w)[0]] + Queued(w)[1..];
      Counts(Queued(w)[1..], Queued(w)[0], item);
      CountOne(Queued(w)[0], item);
    }
    if w.worker.InHand? || w.worker.Sending? || w.worker.Discarding? {
      Counts(w.ended, w.worker.item, item);
      CountOne(w.worker.item, item);
    }
  }

  lemma {:induction false} InvStep(w: Writer, s: Step)
    requires Inv(w) && Enabled(w, s)
    ensures Inv(Next(w, s))
  {
    ShapeStep(w, s);
    var r := Next(w, s);
    forall item
      ensures Count(r.begun, item) == Places(r, item)
    {
      hide Places, Shape, Held, Queued, Enqueued, Count;
      assert Count(w.begun, item) == Places(w, item);
      if s.Enqueue? {
        EnqueueConserves(w, s.sub, s.admitted, item);
      } else if s.ReleaseDropped? {
        ReleaseConserves(w, s.i, item);
      } else {
        WorkerConserves(w, s, item);
      }
    }
  }

  ghost predicate IsRun(ws: seq<Writer>, ss: seq<Step>) {
    && |ws| == |ss| + 1
    && ws[0] == NewWriter(ws[0].size)
    && (forall i :: 0 <= i < |ss| ==> Enabled(ws[i], ss[i]) && ws[i + 1] == Next(ws[i], ss[i]))
  }

  lemma {:induction false} ExtendRun(ws: seq<Writer>, ss: seq<Step>, s: Step)
    requires IsRun(ws, ss) && Enabled(ws[|ss|], s)
    ensures IsRun(ws + [Next(ws[|ss|], s)], ss + [s])
  {
    hide Enabled, Next;
    var vs, ts := ws + [Next(ws[|ss|], s)], ss + [s];
    assert forall i :: 0 <= i < |ws| ==> vs[i] == ws[i];
    assert forall i :: 0 <= i < |ss| ==> ts[i] == ss[i];
  }

  lemma {:induction false} RunKeeps(ws: seq<Writer>, ss: seq<Step>)
    requires IsRun(ws, ss)
    ensures Inv(ws[|ss|])
    decreases |ss|
  {
    if ss == [] {
    } else {
      hide Next, Enabled, Inv;
      var n := |ss| - 1;
      RunKeeps(ws[..n + 1], ss[..n]);
      InvStep(ws[n], ss[n]);
    }
  }

  /** In every run nothing reserved is lost, and no reservation is released twice. */
  lemma {:induction false} ReservationsConserved(ws: seq<Writer>, ss: seq<Step>)
    requires IsRun(ws, ss)
    ensures Conserved(ws[|ss|])
    ensures forall item :: Count(ws[|ss|].ended, item) <= 1
    ensures |ws[|ss|].begun|
      == |ws[|ss|].ended| + |Queued(ws[|ss|])| + |Held(ws[|ss|].worker)| + |ws[|ss|].dropping|
  {
    RunKeeps(ws, ss);
    var w := ws[|ss|];
    forall item
      ensures Count(w.ended, item) <= 1
    {
      Serial(w.begun, item);
      assert Count(w.begun, item) == Places(w, item);
    }
  }

  lemma {:induction false} Serial(s: seq<Item>, item: Item)
    requires forall i :: 0 <= i < |s| ==> s[i].serial == i
    ensures Count(s, item) <= 1
    ensures item.serial >= |s| ==> Count(s, item) == 0
    decreases |s|
  {
    if s != [] {
      Serial(s[..|s| - 1], item);
    }
  }

  /**
   Once the worker has returned nothing can be enqueued, and everything reserved has been released but for
   what a publisher is still about to release itself.
   */
  lemma {:induction false} NothingLeftReserved(ws: seq<Writer>, ss: seq<Step>, sub: nat, admitted: bool, item: Item)
    requires IsRun(ws, ss) && ws[|ss|].worker.Exited?
    ensures Enqueued(ws[|ss|], sub, admitted) == ws[|ss|]
    ensures Count(ws[|ss|].begun, item) == Count(ws[|ss|].ended, item) + Count(ws[|ss|].dropping, item)
  {
    RunKeeps(ws, ss);
    assert Count(ws[|ss|].begun, item) == Places(ws[|ss|], item);
  }

  // ---------------------------------------------------------------------------
  // What is sent, and what is not
  // ---------------------------------------------------------------------------

  ghost predicate Ascends(s: seq<Item>) {
    forall i, j :: 0 <= i < j < |s| ==> s[i].serial < s[j].serial
  }

  /** What has been sent, and what may still be, in the order it goes out. */
  function Line(w: Writer): seq<Item> {
    w.sent + (if w.worker.InHand? then [w.worker.item] else []) + Queued(w)
  }

  /** The datagrams of l are among those reserved, and in the order of their reservation. */
  ghost predicate InLine(begun: seq<Item>, l: seq<Item>) {
    && (forall i :: 0 <= i < |begun| ==> begun[i].serial == i)
    && Ascends(l)
    && (forall i :: 0 <= i < |l| ==> l[i].serial < |begun| && l[i] == begun[l[i].serial])
  }

  ghost predicate Orderly(w: Writer) {
    InLine(w.begun, Line(w)) && (w.queue.None? ==> w.worker.NotStarted?)
  }

  lemma {:induction false} InLineMore(begun: seq<Item>, l: seq<Item>, item: Item)
    requires InLine(begun, l) && item.serial == |begun|
    ensures InLine(begun + [item], l) && InLine(begun + [item], l + [item])
  {
  }

  lemma {:induction false} InLineLess(begun: seq<Item>, l: seq<Item>, m: seq<Item>, cut: nat)
    requires InLine(begun, l) && Leaves(l, m, cut)
    ensures InLine(begun, m)
  {
    if m != l {
      assert forall i :: 0 <= i < |m| ==> m[i] == if i < cut then l[i] else l[i + 1];
    }
  }

  /** item joins the end of the line, reserved just now. */
  ghost predicate Joins(w: Writer, r: Writer, item: Item) {
    item.serial == |w.begun| && r.begun == w.begun + [item] && (Line(r) == Line(w) + [item] || Line(r) == Line(w))
  }

  /** One leaves the line, or none does. */
  ghost predicate Leaves(l: seq<Item>, m: seq<Item>, cut: nat) {
    m == l || (cut < |l| && m == l[..cut] + l[cut + 1..])
  }

  lemma {:induction false} LineJoins(w: Writer, sub: nat, admitted: bool)
    requires w.queue.None? ==> w.worker.NotStarted?
    ensures var r := Enqueued(w, sub, admitted); r == w || Joins(w, r, Item(sub, |w.begun|))
  {
    var r := Enqueued(w, sub, admitted);
    if r != w {
      var item := Item(sub, |w.begun|);
      var front := w.sent + (if w.worker.InHand? then [w.worker.item] else []);
      assert Line(w) == front + Queued(w);
      if |Queued(w)| < w.size {
        assert Line(r) == front + (Queued(w) + [item]);
      }
    }
  }

  lemma {:induction false} LineLeaves(w: Writer, s: Step)
    requires Enabled(w, s) && !s.Enqueue?
    ensures Next(w, s).begun == w.begun && Leaves(Line(w), Line(Next(w, s)), |w.sent|)
  {
    var l, m, n := Line(w), Line(Next(w, s)), |w.sent|;
    if (s.CheckItem? && Next(w, s).worker.Running?) || s.DrainOne? {
      assert m == l[..n] + l[n + 1..];
    } else {
      assert m == l;
    }
  }

  lemma {:induction false} OrderlyStep(w: Writer, s: Step)
    requires Orderly(w) && Enabled(w, s)
    ensures Orderly(Next(w, s))
  {
    hide InLine, Line, Leaves;
    if s.Enqueue? {
      LineJoins(w, s.sub, s.admitted);
      InLineMore(w.begun, Line(w), Item(s.sub, |w.begun|));
    } else {
      LineLeaves(w, s);
      InLineLess(w.begun, Line(w), Line(Next(w, s)), |w.sent|);
    }
  }

  lemma {:induction false} OrderlyRun(ws: seq<Writer>, ss: seq<Step>)
    requires IsRun(ws, ss)
    ensures Orderly(ws[|ss|])
    decreases |ss|
  {
    if ss == [] {
    } else {
      hide Next, Enabled, Orderly;
      var n := |ss| - 1;
      OrderlyRun(ws[..n + 1], ss[..n]);
      OrderlyStep(ws[n], ss[n]);
    }
  }

  /** In every run datagrams go out in the order they were enqueued, each at most once. */
  lemma {:induction false} SentInOrder(ws: seq<Writer>, ss: seq<Step>)
    requires IsRun(ws, ss)
    ensures Ascends(ws[|ss|].sent)
    ensures forall item :: item in ws[|ss|].sent ==> item in ws[|ss|].begun
  {
    OrderlyRun(ws, ss);
    var w := ws[|ss|];
    assert forall i :: 0 <= i < |w.sent| ==> Line(w)[i] == w.sent[i];
  }

  /** item was reserved at this step and found the queue full. */
  ghost predicate NoRoom(w: Writer, r: Writer, item: Item) {
    r.begun == w.begun + [item] && |Queued(w)| >= w.size && item in r.dropping && item !in w.dropping
  }

  /** Whatever a publisher is about to release had found no room, and so had not been queued or sent. */
  ghost predicate Overflown(ws: seq<Writer>, n: nat)
    requires n < |ws|
  {
    forall item :: item in ws[n].dropping ==> exists k :: 0 <= k < n && NoRoom(ws[k], ws[k + 1], item)
  }

  lemma {:induction false} OverflowRun(ws: seq<Writer>, ss: seq<Step>, n: nat)
    requires IsRun(ws, ss) && n <= |ss|
    ensures Overflown(ws, n)
    decreases n
  {
    if n > 0 {
      OverflowRun(ws, ss, n - 1);
      var w, r := ws[n - 1], ws[n];
      assert Enabled(w, ss[n - 1]) && r == Next(w, ss[n - 1]);
      forall item | item in r.dropping
        ensures exists k :: 0 <= k < n && NoRoom(ws[k], ws[k + 1], item)
      {
        if item in w.dropping {
          var k :| 0 <= k < n - 1 && NoRoom(ws[k], ws[k + 1], item);
          assert 0 <= k < n;
        } else {
          assert NoRoom(ws[n - 1], ws[n - 1 + 1], item);
        }
      }
    }
  }

  /** In every run a datagram is reserved unless the writer refuses, and queued exactly if there is room. */
  lemma {:induction false} ReservedExact(ws: seq<Writer>, ss: seq<Step>, n: nat)
    requires IsRun(ws, ss) && n < |ss|
    ensures ws[n + 1].begun != ws[n].begun <==> ss[n].Enqueue? && ss[n].admitted && !ws[n].stopped
    ensures ss[n].Enqueue? && ws[n + 1].begun != ws[n].begun ==>
      && |ws[n + 1].begun| == |ws[n].begun| + 1 && ws[n].begun <= ws[n + 1].begun
      && var item := ws[n + 1].begun[|ws[n].begun|];
         && item.sub == ss[n].sub
         && Queued(ws[n + 1]) == Queued(ws[n]) + (if |Queued(ws[n])| < ws[n].size then [item] else [])
  {
    assert Enabled(ws[n], ss[n]) && ws[n + 1] == Next(ws[n], ss[n]);
  }

  /** A datagram is handed to the session exactly if, when looked at, neither it nor the connection is done for. */
  lemma {:induction false} SentExact(ws: seq<Writer>, ss: seq<Step>, n: nat)
    requires IsRun(ws, ss) && n < |ss|
    ensures ws[n + 1].sent != ws[n].sent <==>
      ss[n] == CheckItem(false) && !ws[n].stopped && !ws[n].sessionDone
    ensures ws[n + 1].sent != ws[n].sent ==> ws[n].worker.InHand? && ws[n + 1].sent == ws[n].sent + [ws[n].worker.item]
  {
    assert Enabled(ws[n], ss[n]) && ws[n + 1] == Next(ws[n], ss[n]);
  }

  /**
   In every run a datagram released without having been sent had found the queue full, was unwanted, or was left
   when the writer had stopped or the session was over.
   */
  lemma {:induction false} UnsentOnlyFor(ws: seq<Writer>, ss: seq<Step>, n: nat)
    requires IsRun(ws, ss) && n < |ss| && ws[n + 1].ended != ws[n].ended
    ensures |ws[n + 1].ended| == |ws[n].ended| + 1 && ws[n].ended <= ws[n + 1].ended
    ensures var item := ws[n + 1].ended[|ws[n].ended|];
      || item in ws[n].sent || ws[n].stopped || ws[n].sessionDone || ss[n] == CheckItem(true)
      || (exists k :: 0 <= k < n && NoRoom(ws[k], ws[k + 1], item))
  {
    var w := ws[n];
    OverflowRun(ws, ss, n);
    RunKeeps(ws[..n + 1], ss[..n]);
    SendingIsSent(ws, ss, n);
    assert Enabled(w, ss[n]) && ws[n + 1] == Next(w, ss[n]);
    var item := if ss[n].ReleaseDropped? then w.dropping[ss[n].i] else w.worker.item;
    assert ws[n + 1].ended == w.ended + [item];
    if ss[n].ReleaseDropped? {
      assert item in w.dropping;
    }
  }

  lemma {:induction false} SendingIsSent(ws: seq<Writer>, ss: seq<Step>, n: nat)
    requires IsRun(ws, ss) && n <= |ss|
    ensures ws[n].worker.Sending? ==> ws[n].worker.item in ws[n].sent
    decreases n
  {
    if n > 0 {
      SendingIsSent(ws, ss, n - 1);
      assert Enabled(ws[n - 1], ss[n - 1]) && ws[n] == Next(ws[n - 1], ss[n - 1]);
    }
  }

  // ---------------------------------------------------------------------------
  // The way out
  // ---------------------------------------------------------------------------

  /** The worker has seen its last datagram to send. */
  predicate LeftLoop(x: Worker) {
    x.Quitting? || x.Draining? || x.Discarding? || x.Exited?
  }

  /** In the first n steps the writer was stopped from outside, the session ended, the worker let no more in. */
  ghost predicate ToldToStop(ss: seq<Step>, n: nat) {
    exists k :: 0 <= k < n <= |ss| && ss[k].Stop?
  }

  ghost predicate SessionEnded(ss: seq<Step>, n: nat) {
    exists k :: 0 <= k < n <= |ss| && ss[k].EndSession?
  }

  ghost predicate LetNoMoreIn(ss: seq<Step>, n: nat) {
    exists k :: 0 <= k < n <= |ss| && ss[k].RefuseMore?
  }

  lemma {:induction false} OneMore(ss: seq<Step>, n: nat)
    requires 0 < n <= |ss|
    ensures ToldToStop(ss, n) <==> ToldToStop(ss, n - 1) || ss[n - 1].Stop?
    ensures SessionEnded(ss, n) <==> SessionEnded(ss, n - 1) || ss[n - 1].EndSession?
    ensures LetNoMoreIn(ss, n) <==> LetNoMoreIn(ss, n - 1) || ss[n - 1].RefuseMore?
  {
  }

  lemma {:induction false} StopStep(w: Writer, s: Step)
    requires Enabled(w, s) && Inv(w)
    ensures Next(w, s).stopped <==> w.stopped || s.Stop? || s.RefuseMore?
    ensures Next(w, s).sessionDone <==> w.sessionDone || s.EndSession?
    ensures LeftLoop(Next(w, s).worker) <==> LeftLoop(w.worker) || s.Quit?
    ensures s.Quit? ==> w.stopped || w.sessionDone
    ensures s.RefuseMore? ==> LeftLoop(w.worker)
  {
    hide Count;
  }

  /**
   In every run the writer is stopped exactly if it was told to or its worker is leaving, the session is over
   exactly if it ended, and the worker leaves only for one of the two.
   */
  lemma {:induction false} StoppedExact(ws: seq<Writer>, ss: seq<Step>, n: nat)
    requires IsRun(ws, ss) && n <= |ss|
    ensures ws[n].stopped <==> ToldToStop(ss, n) || LetNoMoreIn(ss, n)
    ensures ws[n].sessionDone <==> SessionEnded(ss, n)
    ensures LeftLoop(ws[n].worker) || LetNoMoreIn(ss, n) ==> ToldToStop(ss, n) || SessionEnded(ss, n)
    decreases n
  {
    if n == 0 {
      return;
    }
    hide Enabled, Next, Inv, LeftLoop, ToldToStop, SessionEnded, LetNoMoreIn;
    StoppedExact(ws, ss, n - 1);
    RunKeeps(ws[..n], ss[..n - 1]);
    StopStep(ws[n - 1], ss[n - 1]);
    OneMore(ss, n);
  }

  /** How many steps of its own the worker is from having returned, once it has left its loop. */
  function Remaining(w: Writer): nat {
    match w.worker
    case Quitting => 2 * |Queued(w)| + 2
    case Draining => 2 * |Queued(w)| + 1
    case Discarding(_) => 2 * |Queued(w)| + 2
    case _ => 0
  }

  /** What the worker does next: it is never stuck, but for waiting for a datagram or a reason to leave. */
  function WorkerStep(w: Writer, unwanted: bool): Option<Step> {
    match w.worker
    case NotStarted => None
    case Running => if w.stopped || w.sessionDone then Some(Quit) else if Queued(w) != [] then Some(Take) else None
    case InHand(_) => Some(CheckItem(unwanted))
    case Sending(_) => Some(Sent)
    case Quitting => Some(RefuseMore)
    case Draining => Some(if Queued(w) != [] then DrainOne else Exit)
    case Discarding(_) => Some(Discard)
    case Exited => None
  }

  /** Whatever it holds, a worker told to stop leaves its loop, and then returns after so many steps of its own. */
  lemma {:induction false} WorkerLeaves(w: Writer, unwanted: bool)
    requires w.stopped || w.sessionDone || LeftLoop(w.worker)
    ensures WorkerStep(w, unwanted).None? <==> w.worker.NotStarted? || w.worker.Exited?
    ensures var s := WorkerStep(w, unwanted);
      s.Some? ==>
        && Enabled(w, s.value)
        && var r := Next(w, s.value);
           && (w.worker.InHand? || w.worker.Sending? ==> r.worker.Running?)
           && (w.worker.Running? ==> LeftLoop(r.worker) && Remaining(r) == 2 * |Queued(w)| + 2)
           && (LeftLoop(w.worker) ==> LeftLoop(r.worker) && Remaining(r) == Remaining(w) - 1)
    ensures LeftLoop(w.worker) ==> (Remaining(w) == 0 <==> w.worker.Exited?)
  {
  }

  /** The worker's next n steps, nothing else happening. */
  function Alone(w: Writer, n: nat): Writer
    decreases n
  {
    if n == 0 || WorkerStep(w, false).None? || !Enabled(w, WorkerStep(w, false).value) then w
    else Alone(Next(w, WorkerStep(w, false).value), n - 1)
  }

  lemma {:induction false} OnlyReleases(w: Writer)
    requires LeftLoop(w.worker) && !w.worker.Exited?
    ensures WorkerStep(w, false).Some? && Enabled(w, WorkerStep(w, false).value)
    ensures var r := Next(w, WorkerStep(w, false).value);
      && r.begun == w.begun && r.sent == w.sent && (r.worker.Exited? ==> Held(r.worker) == [] && Queued(r) == [])
      && r.ended + Held(r.worker) + Queued(r) == w.ended + Held(w.worker) + Queued(w)
  {
  }

  /** A worker that has left its loop returns, and releases all it held and all that was queued, in order. */
  lemma {:induction false} WorkerReturns(w: Writer)
    requires LeftLoop(w.worker)
    ensures var r := Alone(w, Remaining(w));
      && r.worker.Exited? && r.begun == w.begun && r.sent == w.sent
      && r.ended + Queued(r) == w.ended + Held(w.worker) + Queued(w) && (!w.worker.Exited? ==> Queued(r) == [])
    decreases Remaining(w)
  {
    WorkerLeaves(w, false);
    if !w.worker.Exited? {
      var r := Next(w, WorkerStep(w, false).value);
      OnlyReleases(w);
      hide Next, Enabled, WorkerStep, Held, Queued;
      WorkerReturns(r);
    }
  }
}
