/** How contributors end, when the merged streams do, and that every writer then comes to its own end. */
module FanoutEnds {
  import opened Uint64
  import opened SubgroupSet
  import opened Fanout
  import opened FanoutWriters
  import W = SubgroupWriter

  // ---------------------------------------------------------------------------
  // Contributors
  // ---------------------------------------------------------------------------

  /** Contributor c stops part way through an Object, or finds a copy malformed. */
  predicate Breaks(e: Event, c: nat) {
    e == Abandon(c) || e == DropCopy(c, true)
  }

  predicate Leaves(e: Event, c: nat, reset: bool) {
    e.LeaveSet? && e.c == c && e.reset == reset
  }

  ghost predicate EverBroke(es: seq<Event>, n: nat, c: nat) {
    exists i :: 0 <= i < n && i < |es| && Breaks(es[i], c)
  }

  ghost predicate EverLeft(es: seq<Event>, n: nat, c: nat, reset: bool) {
    exists i :: 0 <= i < n && i < |es| && Leaves(es[i], c, reset)
  }

  ghost predicate CourseIs(f: Fanout, c: nat, broke: bool, reset: bool, clean: bool) {
    if c in f.contributors then
      var x := f.contributors[c];
      && (x.broken <==> broke) && (x.left <==> reset || clean) && (x.left ==> (x.clean <==> clean) && !(reset && clean))
      && (clean ==> !broke)
    else !broke && !reset && !clean
  }

  lemma {:induction false} CourseStep(
    f: Fanout, objects: set<u64>, e: Event, c: nat, broke: bool, reset: bool, clean: bool)
    requires Enabled(f, objects, e) && CourseIs(f, c, broke, reset, clean)
    ensures CourseIs(Next(f, objects, e), c, broke || Breaks(e, c), reset || Leaves(e, c, true),
                     clean || Leaves(e, c, false))
  {
    hide W.Next, W.Enabled, Outcome, AdmissionOf, Widened, Noted, Released, OfferAll, AgeOutAll, TearDownAll, ReadAllOf;
  }

  lemma {:induction false} OneMore(es: seq<Event>, n: nat, c: nat, reset: bool)
    requires n < |es|
    ensures EverBroke(es, n + 1, c) <==> EverBroke(es, n, c) || Breaks(es[n], c)
    ensures EverLeft(es, n + 1, c, reset) <==> EverLeft(es, n, c, reset) || Leaves(es[n], c, reset)
  {
    hide Breaks, Leaves;
  }

  lemma {:induction false} NotYet(es: seq<Event>, c: nat)
    ensures !EverBroke(es, 0, c) && !EverLeft(es, 0, c, true) && !EverLeft(es, 0, c, false)
  {
  }

  /**
   In every run a contributor is broken exactly if it stopped part way through an Object or found one malformed,
   has ended exactly if it left, and cleanly exactly if it left without a reset; one that is broken never does.
   */
  lemma {:induction false} CourseExact(fs: seq<Fanout>, objects: set<u64>, es: seq<Event>, n: nat, c: nat)
    requires IsRun(fs, objects, es) && n <= |es|
    ensures CourseIs(fs[n], c, EverBroke(es, n, c), EverLeft(es, n, c, true), EverLeft(es, n, c, false))
    decreases n
  {
    hide Next, Enabled, EverBroke, EverLeft;
    if n == 0 {
      NotYet(es, c);
      return;
    }
    hide CourseIs;
    CourseExact(fs, objects, es, n - 1, c);
    OneMore(es, n - 1, c, true);
    OneMore(es, n - 1, c, false);
    CourseStep(fs[n - 1], objects, es[n - 1], c, EverBroke(es, n - 1, c), EverLeft(es, n - 1, c, true),
               EverLeft(es, n - 1, c, false));
  }

  /** The merged streams are over exactly if there have been contributors and all have left. */
  ghost predicate OverWhenLeft(f: Fanout) {
    f.ended.Some? <==> f.contributors.Keys != {} && forall c :: c in f.contributors ==> f.contributors[c].left
  }

  lemma {:induction false} OverStep(f: Fanout, objects: set<u64>, e: Event)
    requires Enabled(f, objects, e) && OverWhenLeft(f)
    ensures OverWhenLeft(Next(f, objects, e))
  {
    hide W.Next, W.Enabled, Outcome, AdmissionOf, Widened, Noted, Released, OfferAll, AgeOutAll, TearDownAll, ReadAllOf;
    var r := Next(f, objects, e);
    assert forall c :: c in f.contributors ==> c in r.contributors;
    if e.Join? {
      assert e.c in r.contributors && !r.contributors[e.c].left;
    }
    if e.LeaveSet? {
      assert r.contributors[e.c].left;
      assert forall c :: c in f.contributors && c != e.c ==> r.contributors[c] == f.contributors[c];
    }
  }

  lemma {:induction false} EndedExact(fs: seq<Fanout>, objects: set<u64>, es: seq<Event>)
    requires IsRun(fs, objects, es)
    ensures OverWhenLeft(fs[|es|])
    decreases |es|
  {
    if es == [] {
      return;
    }
    hide Next, Enabled, OverWhenLeft;
    var n := |es| - 1;
    EndedExact(fs[..n + 1], objects, es[..n]);
    OverStep(fs[n], objects, es[n]);
  }

  // ---------------------------------------------------------------------------
  // Writers
  // ---------------------------------------------------------------------------

  lemma {:induction false} ExtendRun(fs: seq<Fanout>, objects: set<u64>, es: seq<Event>, e: Event)
    requires IsRun(fs, objects, es) && Enabled(fs[|es|], objects, e)
    ensures IsRun(fs + [Next(fs[|es|], objects, e)], objects, es + [e])
  {
    hide Enabled, Next;
    var gs, ds := fs + [Next(fs[|es|], objects, e)], es + [e];
    assert forall i :: 0 <= i < |fs| ==> gs[i] == fs[i];
    assert forall i :: 0 <= i < |es| ==> ds[i] == es[i];
  }

  /** What the loop of w does next if every write succeeds. */
  function LoopMove(w: W.Writer): W.Step {
    if w.loop.lagExceeded || w.shared.inbox == [] then W.FinishStep else W.TakeStep(W.Writes)
  }

  /** The stream in use at the end was ended by FIN, with everything admitted written. */
  ghost predicate Complete(w: W.Writer, admitted: seq<W.Fwd>) {
    && w.loop.written == admitted
    && (admitted != [] ==> w.loop.streams != [] && w.loop.streams[|w.loop.streams| - 1].end.Fin?)
  }

  /** Nothing was lost so far, and what was written is on a stream still open. */
  ghost predicate StillWhole(w: W.Writer) {
    W.Lossless(w.shared, w.loop) && (w.loop.written != [] ==> w.loop.open)
  }

  lemma {:induction false} LoopGoesOn(w: W.Writer)
    requires W.FinInv(w) && w.gate.tornDown && !w.loop.ended
    ensures W.Enabled(w, LoopMove(w))
    ensures var r := W.Next(w, LoopMove(w));
      && r.gate == w.gate && (r.loop.ended || |r.shared.inbox| < |w.shared.inbox|)
      && (StillWhole(w) ==> if r.loop.ended then Complete(r, w.gate.admitted) else StillWhole(r))
  {
    if LoopMove(w).TakeStep? {
      W.PrepareOpens(w.loop, w.shared.inbox[0], W.CodeForReset(w.shared.(inbox := w.shared.inbox[1..])));
      hide W.Prepare, W.Placements;
    } else {
      assert w.loop.written + [] == w.loop.written;
    }
  }

  /**
   Once the merged streams are over, the loop of every writer, left to itself, comes to its end; and if nothing was
   lost to that writer by then, everything admitted is written and the stream ends by FIN.
   */
  lemma {:induction false} WriterEnds(fs: seq<Fanout>, objects: set<u64>, es: seq<Event>, k: nat)
    returns (gs: seq<Fanout>, ds: seq<Event>)
    requires IsRun(fs, objects, es) && fs[|es|].ended.Some? && k in fs[|es|].writers
    ensures IsRun(gs, objects, ds) && es <= ds && (forall i :: |es| <= i < |ds| ==> ds[i].LoopStep? && ds[i].k == k)
    ensures k in gs[|ds|].writers && gs[|ds|].writers[k].loop.ended
    ensures var w := fs[|es|].writers[k];
      !w.loop.ended && StillWhole(w) ==> Complete(gs[|ds|].writers[k], w.gate.admitted)
    decreases |fs[|es|].writers[k].shared.inbox|
  {
    var f := fs[|es|];
    if f.writers[k].loop.ended {
      return fs, es;
    }
    RunKeeps(fs, objects, es);
    SoundOf(f, objects, k);
    hide Inv, W.FinInv, W.Next, W.Enabled, StillWhole, Complete, Next, Enabled;
    LoopGoesOn(f.writers[k]);
    var e := LoopStep(k, LoopMove(f.writers[k]));
    MoveIs(f, objects, k, LoopMove(f.writers[k]));
    ExtendRun(fs, objects, es, e);
    hide IsRun;
    gs, ds := fs + [Next(f, objects, e)], es + [e];
    if !gs[|ds|].writers[k].loop.ended {
      gs, ds := WriterEnds(gs, objects, ds, k);
    }
  }

  lemma {:induction false} MoveIs(f: Fanout, objects: set<u64>, k: nat, s: W.Step)
    requires k in f.writers && W.Enabled(f.writers[k], s) && (s.TakeStep? || s.FinishStep?)
    ensures Enabled(f, objects, LoopStep(k, s))
    ensures Next(f, objects, LoopStep(k, s)) == f.(writers := f.writers[k := W.Next(f.writers[k], s)])
  {
    hide W.Next, W.Enabled;
  }

  lemma {:induction false} SoundOf(f: Fanout, objects: set<u64>, k: nat)
    requires Inv(f, objects) && k in f.writers && f.ended.Some?
    ensures W.FinInv(f.writers[k]) && f.writers[k].gate.tornDown
  {
    hide CoverInv, RunInv, EndInv, ReadingInv, OpenInv, HeardInv, CutInv, ClosingInv, PresentInv, OffersInv, LostInv;
    hide W.FinInv;
  }
}
