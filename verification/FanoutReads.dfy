/**
 What the fanout makes of the order in which contributors read: which Object starts the Subgroup, which follows
 which, and from where on a contributor vouches.
 */
module FanoutReads {
  import opened Uint64
  import opened SubgroupSet
  import opened Fanout
  import opened FanoutWriters
  import W = SubgroupWriter
  import G = SubgroupGate

  // ---------------------------------------------------------------------------
  // Contributors
  // ---------------------------------------------------------------------------

  /**
   A contributor numbers what it reads from 1. The first Object of a stream that is no replay is said to start
   the Subgroup. A replay vouches from its first Object on, any other stream from 0.
   */
  ghost predicate ReadsRight(x: Contributor) {
    && (x.started <==> x.seqNo > 0)
    && (x.phase.Claimed? ==> x.seqNo > 0 && (x.phase.first <==> !x.replay && x.seqNo == 1))
    && (if x.replay then x.covers <==> x.started else x.covers && x.coverFrom == 0)
  }

  ghost predicate ReadsInv(f: Fanout) {
    forall c :: c in f.contributors ==> ReadsRight(f.contributors[c])
  }

  lemma {:induction false} ReadsStep(f: Fanout, objects: set<u64>, e: Event)
    requires ReadsInv(f) && Enabled(f, objects, e)
    ensures ReadsInv(Next(f, objects, e))
  {
    hide W.Next, W.Enabled, Outcome, AdmissionOf, Widened, Noted, Released, OfferAll, AgeOutAll, TearDownAll;
  }

  /** c claims its first Object at event i, and the Object is id. */
  ghost predicate FirstClaim(fs: seq<Fanout>, es: seq<Event>, i: nat, c: nat, id: u64) {
    && i < |es| && i < |fs| && es[i].ClaimObject? && es[i].c == c
    && c in fs[i].contributors && fs[i].contributors[c].seqNo == 0
    && fs[i].contributors[c].phase.Reading? && fs[i].contributors[c].phase.id == id
  }

  lemma {:induction false} CoverAfter(f: Fanout, objects: set<u64>, e: Event, c: nat)
    requires ReadsInv(f) && Enabled(f, objects, e) && c in Next(f, objects, e).contributors
    ensures var y := Next(f, objects, e).contributors[c];
      if c !in f.contributors then !y.started
      else
        var x := f.contributors[c];
        if e.ClaimObject? && e.c == c then
          y.started && y.replay == x.replay && y.coverFrom == if x.covers then x.coverFrom else x.phase.id
        else y.started == x.started && y.replay == x.replay && y.coverFrom == x.coverFrom && y.covers == x.covers
  {
    hide W.Next, W.Enabled, Outcome, AdmissionOf, Widened, Noted, Released, OfferAll, AgeOutAll, TearDownAll;
  }

  lemma {:induction false} CoverRun(fs: seq<Fanout>, objects: set<u64>, es: seq<Event>, c: nat)
    requires IsRun(fs, objects, es) && c in fs[|es|].contributors
    ensures ReadsInv(fs[|es|])
    ensures var x := fs[|es|].contributors[c];
      x.replay && x.started ==> exists i :: FirstClaim(fs, es, i, c, x.coverFrom)
    decreases |es|
  {
    if es != [] {
      var n := |es| - 1;
      ReadsRun(fs[..n + 1], objects, es[..n]);
      ReadsStep(fs[n], objects, es[n]);
      CoverAfter(fs[n], objects, es[n], c);
      if c in fs[n].contributors {
        hide Next;
        CoverRun(fs[..n + 1], objects, es[..n], c);
        var x := fs[n].contributors[c];
        if x.replay && x.started {
          var i :| FirstClaim(fs[..n + 1], es[..n], i, c, x.coverFrom);
          assert FirstClaim(fs, es, i, c, x.coverFrom);
        } else if x.replay && fs[n + 1].contributors[c].started {
          assert FirstClaim(fs, es, n, c, x.phase.id);
        }
      }
    }
  }

  lemma {:induction false} ReadsRun(fs: seq<Fanout>, objects: set<u64>, es: seq<Event>)
    requires IsRun(fs, objects, es)
    ensures ReadsInv(fs[|es|])
    decreases |es|
  {
    if es != [] {
      hide Next, Enabled, ReadsInv;
      var n := |es| - 1;
      ReadsRun(fs[..n + 1], objects, es[..n]);
      ReadsStep(fs[n], objects, es[n]);
    }
  }

  /** In every run a stream vouches from 0 on or, if it is a replay, from the first Object it read, once it has. */
  lemma {:induction false} CoverExact(fs: seq<Fanout>, objects: set<u64>, es: seq<Event>, c: nat)
    requires IsRun(fs, objects, es) && c in fs[|es|].contributors
    ensures var x := fs[|es|].contributors[c];
      if !x.replay then x.covers && x.coverFrom == 0
      else if x.seqNo == 0 then !x.covers
      else x.covers && exists i :: FirstClaim(fs, es, i, c, x.coverFrom)
  {
    CoverRun(fs, objects, es, c);
  }

  // ---------------------------------------------------------------------------
  // Offers
  // ---------------------------------------------------------------------------

  /** Everything in hs was read by one of cs, before what that one is about to deliver. */
  ghost predicate OffersRead(cs: map<nat, Contributor>, hs: seq<W.Heard>) {
    && G.InOrder(hs)
    && (forall i :: 0 <= i < |hs| ==>
          var pos := hs[i].pos;
          && pos.src in cs && pos.seqNo <= cs[pos.src].seqNo
          && (cs[pos.src].phase.Claimed? ==> pos.seqNo < cs[pos.src].seqNo))
  }

  ghost predicate OrderInv(f: Fanout) {
    forall k :: k in f.writers ==>
      OffersRead(f.contributors, f.writers[k].gate.offered) && G.PosRight(f.writers[k].gate)
  }

  /** What an event offers a writer: only a delivery does, at its contributor's number. */
  lemma {:induction false} OfferedBy(f: Fanout, objects: set<u64>, e: Event, k: nat)
    requires Enabled(f, objects, e) && k in f.writers && TornDownInv(f) && EndInv(f)
    ensures k in Next(f, objects, e).writers
    ensures var hs, more := f.writers[k].gate.offered, Next(f, objects, e).writers[k].gate.offered;
      || more == hs
      || (e.Deliver? && |more| == |hs| + 1 && more[..|hs|] == hs
          && more[|hs|].pos == W.Pos(e.c, f.contributors[e.c].seqNo))
  {
    WriterMoves(f, objects, e, k);
    var s := StepOf(f, objects, e, k);
    if s.Some? {
      G.OfferedAfter(f.writers[k], s.value);
    }
    hide Next, W.Next, AdmissionOf, Outcome, W.Follows, W.Overflows, EndInv, TornDownInv;
  }

  lemma {:induction false} OrderMore(hs: seq<W.Heard>, h: W.Heard)
    requires G.InOrder(hs)
    requires forall i :: 0 <= i < |hs| && hs[i].pos.src == h.pos.src ==> hs[i].pos.seqNo < h.pos.seqNo
    ensures G.InOrder(hs + [h])
  {
  }

  /** Contributors have read on since, and none that is about to deliver was before the last claim. */
  ghost predicate ReadOn(cs: map<nat, Contributor>, more: map<nat, Contributor>) {
    forall c :: c in cs ==>
      && c in more && cs[c].seqNo <= more[c].seqNo
      && (more[c].phase.Claimed? ==> cs[c].phase.Claimed? || cs[c].seqNo < more[c].seqNo)
  }

  lemma {:induction false} ReadMore(cs: map<nat, Contributor>, more: map<nat, Contributor>, hs: seq<W.Heard>)
    requires OffersRead(cs, hs) && ReadOn(cs, more)
    ensures OffersRead(more, hs)
  {
    hide G.InOrder;
  }

  lemma {:induction false} ReadOneMore(cs: map<nat, Contributor>, hs: seq<W.Heard>, h: W.Heard)
    requires OffersRead(cs, hs) && h.pos.src in cs && cs[h.pos.src].phase.Idle? && h.pos.seqNo == cs[h.pos.src].seqNo
    requires forall i :: 0 <= i < |hs| && hs[i].pos.src == h.pos.src ==> hs[i].pos.seqNo < h.pos.seqNo
    ensures OffersRead(cs, hs + [h])
  {
    OrderMore(hs, h);
    hide G.InOrder;
  }

  lemma {:induction false} ReadOnAfter(f: Fanout, objects: set<u64>, e: Event)
    requires Enabled(f, objects, e)
    ensures ReadOn(f.contributors, Next(f, objects, e).contributors)
    ensures e.Deliver? ==> Next(f, objects, e).contributors[e.c].phase.Idle?
                           && Next(f, objects, e).contributors[e.c].seqNo == f.contributors[e.c].seqNo
  {
    hide W.Next, W.Enabled, Outcome, AdmissionOf, Widened, Noted, Released, OfferAll, AgeOutAll, TearDownAll;
  }

  lemma {:induction false} OrderFor(f: Fanout, objects: set<u64>, e: Event, k: nat)
    requires Enabled(f, objects, e) && TornDownInv(f) && EndInv(f) && k in f.writers
    requires OffersRead(f.contributors, f.writers[k].gate.offered)
    ensures k in Next(f, objects, e).writers
    ensures OffersRead(Next(f, objects, e).contributors, Next(f, objects, e).writers[k].gate.offered)
  {
    OfferedBy(f, objects, e, k);
    ReadOnAfter(f, objects, e);
    var r := Next(f, objects, e);
    var hs, more := f.writers[k].gate.offered, r.writers[k].gate.offered;
    hide Next, EndInv, TornDownInv, W.Enabled, ReadOn;
    ReadMore(f.contributors, r.contributors, hs);
    if more != hs {
      assert more == hs + [more[|hs|]];
      ReadOneMore(r.contributors, hs, more[|hs|]);
    }
  }

  lemma {:induction false} PosFor(f: Fanout, objects: set<u64>, e: Event, k: nat)
    requires Enabled(f, objects, e) && TornDownInv(f) && EndInv(f) && k in f.writers && G.PosRight(f.writers[k].gate)
    requires k in Next(f, objects, e).writers && G.InOrder(Next(f, objects, e).writers[k].gate.offered)
    ensures G.PosRight(Next(f, objects, e).writers[k].gate)
  {
    hide Next, Enabled, EndInv, TornDownInv, W.Enabled, W.Next, G.PosRight, G.InOrder, StepOf;
    WriterMoves(f, objects, e, k);
    var s := StepOf(f, objects, e, k);
    if s.Some? {
      G.PosStep(f.writers[k], s.value);
    }
  }

  lemma {:induction false} OrderStep(f: Fanout, objects: set<u64>, e: Event)
    requires Enabled(f, objects, e) && TornDownInv(f) && EndInv(f) && OrderInv(f)
    ensures OrderInv(Next(f, objects, e))
  {
    hide Next, Enabled, EndInv, TornDownInv;
    var r := Next(f, objects, e);
    forall k | k in r.writers
      ensures OffersRead(r.contributors, r.writers[k].gate.offered) && G.PosRight(r.writers[k].gate)
    {
      if k in f.writers {
        OrderFor(f, objects, e, k);
        PosFor(f, objects, e, k);
      } else {
        NewWriters(f, objects, e, k);
      }
    }
  }

  lemma {:induction false} OrderRun(fs: seq<Fanout>, objects: set<u64>, es: seq<Event>)
    requires IsRun(fs, objects, es)
    ensures OrderInv(fs[|es|])
    decreases |es|
  {
    if es != [] {
      hide Next, Enabled, OrderInv, Inv;
      var n := |es| - 1;
      OrderRun(fs[..n + 1], objects, es[..n]);
      assert TornDownInv(fs[n]) && EndInv(fs[n]) by {
        RunKeeps(fs[..n + 1], objects, es[..n]);
        RunInvHas(fs[n], objects);
      }
      OrderStep(fs[n], objects, es[n]);
    }
  }

  lemma {:induction false} RunInvHas(f: Fanout, objects: set<u64>)
    requires Inv(f, objects)
    ensures TornDownInv(f) && EndInv(f)
  {
  }

  /** The Object a delivery admits to writer k. */
  ghost predicate AdmittedAs(f: Fanout, es: seq<Event>, e: Event, k: nat, x: W.Fwd)
    requires e.Deliver? && e.c in f.contributors && !f.contributors[e.c].phase.Idle? && k in f.writers
  {
    var c := f.contributors[e.c];
    && x.absID == c.phase.id && x.at == |f.log| && x.hasProps == e.hasProps && x.gap == e.gap
    && (x.first <==>
          && !c.replay && c.seqNo == 1
          && forall id :: id in IdsOf(f.log) || WasSeeded(es, id) ==> c.phase.id < id)
    && (x.follows <==> G.IsFollower(f.writers[k].gate.offered, W.Pos(e.c, c.seqNo)))
  }

  lemma {:induction false} OfferIs(f: Fanout, objects: set<u64>, es: seq<Event>, e: Event, k: nat)
    requires Enabled(f, objects, e) && Forwards(f, objects, e) && k in f.writers
    requires ReadsInv(f) && OrderInv(f) && LowestIs(f, es)
    ensures var s := StepOf(f, objects, e, k);
      s.Some? ==>
        && s.value.OfferStep? && s.value.verdict == e.verdicts[k]
        && AdmittedAs(f, es, e, k, s.value.fwd.(follows := W.Follows(f.writers[k].gate, s.value.pos)))
  {
    hide G.PosRight, WasSeeded, G.IsFollower, W.Follows, Outcome, W.Enabled;
    var c := f.contributors[e.c];
    var pos := W.Pos(e.c, c.seqNo);
    var hs := f.writers[k].gate.offered;
    assert OffersRead(f.contributors, hs);
    OrderMore(hs, W.Heard(pos, true, false));
    hide G.InOrder;
    G.FollowsIs(f.writers[k].gate, pos, W.Heard(pos, true, false));
    assert ReadsRight(c);
    LowersExact(f, es, c.phase.id);
  }

  lemma {:induction false} LowersExact(f: Fanout, es: seq<Event>, id: u64)
    requires LowestIs(f, es)
    ensures LowersLowest(f.set_, id) <==> forall x :: x in IdsOf(f.log) || WasSeeded(es, x) ==> id < x
  {
    hide WasSeeded;
    if f.log != [] {
      assert IdsOf(f.log)[0] in IdsOf(f.log);
    }
  }

  /**
   In every run a delivery admits to a writer that is due it and forwards it exactly the Object read, which is
   said to start the Subgroup exactly if it is the first of a stream that is no replay and no ID as low was
   forwarded, and to follow exactly if everything read on its stream since the last one taken was declined.
   */
  lemma {:induction false} DeliveryExact(fs: seq<Fanout>, objects: set<u64>, es: seq<Event>, e: Event, k: nat)
    requires IsRun(fs, objects, es) && Enabled(fs[|es|], objects, e) && Forwards(fs[|es|], objects, e)
    requires k in fs[|es|].writers && OpenBy(fs[|es|], k, SinceOf(fs[|es|], fs[|es|].contributors[e.c].phase.id))
    requires e.verdicts[k].Forward?
    ensures k in Next(fs[|es|], objects, e).writers
    ensures var f, a := fs[|es|], Next(fs[|es|], objects, e).writers[k].gate.admitted;
      && a != [] && a[..|a| - 1] == f.writers[k].gate.admitted
      && AdmittedAs(f, es, e, k, a[|a| - 1])
  {
    var f := fs[|es|];
    RunKeeps(fs, objects, es);
    ReadsRun(fs, objects, es);
    OrderRun(fs, objects, es);
    LowestExact(fs, objects, es);
    StepOffers(f, objects, e, k);
    OfferIs(f, objects, es, e, k);
    WriterMoves(f, objects, e, k);
    var s := StepOf(f, objects, e, k);
    hide Next, Enabled, StepOf, Inv, ReadsInv, OrderInv, LowestIs, AdmittedAs, W.Next, W.Enabled, W.Follows, OpenBy;
    W.GateAfter(f.writers[k], s.value);
  }
}
