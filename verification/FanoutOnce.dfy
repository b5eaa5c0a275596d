/** Which Objects the ledger knows, and that an Object is forwarded once however many streams carry it. */
module FanoutOnce {
  import opened Uint64
  import opened SubgroupSet
  import opened Fanout
  import opened FanoutWriters
  import W = SubgroupWriter

  // ---------------------------------------------------------------------------
  // The ledger
  // ---------------------------------------------------------------------------

  /** At this step a contributor has read Object id in full and claims it so. */
  predicate Claims(f: Fanout, e: Event, id: u64, claim: Claim) {
    && e.ClaimObject? && e.claim == claim && e.c in f.contributors
    && f.contributors[e.c].phase.Reading? && f.contributors[e.c].phase.id == id
  }

  lemma {:induction false} LedgerStep(f: Fanout, objects: set<u64>, e: Event, id: u64)
    requires Enabled(f, objects, e)
    ensures var r := Next(f, objects, e).ledger;
      && (id in r.claimed <==> id in f.ledger.claimed || Claims(f, e, id, Fresh))
      && (id in r.elsewhere <==> id in f.ledger.elsewhere || e == ClaimElsewhere(id))
      && (id in r.absent <==> id in f.ledger.absent || e == Announce(id))
  {
    hide W.Next, W.Enabled, Outcome, AdmissionOf, Widened, Noted, Released, OfferAll, AgeOutAll, TearDownAll, ReadAllOf;
  }

  /** Among the first n steps is a claim of id as the first copy, one by another set, word that it is absent. */
  ghost predicate WasClaimed(fs: seq<Fanout>, es: seq<Event>, n: nat, id: u64) {
    exists i :: 0 <= i < n && i < |fs| && i < |es| && Claims(fs[i], es[i], id, Fresh)
  }

  ghost predicate WasElsewhere(es: seq<Event>, n: nat, id: u64) {
    exists i :: 0 <= i < n && i < |es| && es[i] == ClaimElsewhere(id)
  }

  ghost predicate WasAnnounced(es: seq<Event>, n: nat, id: u64) {
    exists i :: 0 <= i < n && i < |es| && es[i] == Announce(id)
  }

  lemma {:induction false} OneMore(fs: seq<Fanout>, es: seq<Event>, n: nat, id: u64)
    requires n < |fs| && n < |es|
    ensures WasClaimed(fs, es, n + 1, id) <==> WasClaimed(fs, es, n, id) || Claims(fs[n], es[n], id, Fresh)
    ensures WasElsewhere(es, n + 1, id) <==> WasElsewhere(es, n, id) || es[n] == ClaimElsewhere(id)
    ensures WasAnnounced(es, n + 1, id) <==> WasAnnounced(es, n, id) || es[n] == Announce(id)
  {
    hide Claims;
  }

  lemma {:induction false} NoneYet(fs: seq<Fanout>, es: seq<Event>, id: u64)
    ensures !WasClaimed(fs, es, 0, id) && !WasElsewhere(es, 0, id) && !WasAnnounced(es, 0, id)
  {
  }

  /** In every run the ledger has exactly the Objects claimed here, claimed elsewhere and announced absent. */
  lemma {:induction false} LedgerExact(fs: seq<Fanout>, objects: set<u64>, es: seq<Event>, n: nat, id: u64)
    requires IsRun(fs, objects, es) && n <= |es|
    ensures id in fs[n].ledger.claimed <==> WasClaimed(fs, es, n, id)
    ensures id in fs[n].ledger.elsewhere <==> id in fs[0].ledger.elsewhere || WasElsewhere(es, n, id)
    ensures id in fs[n].ledger.absent <==> id in fs[0].ledger.absent || WasAnnounced(es, n, id)
    decreases n
  {
    hide Next, Enabled, Claims, WasClaimed, WasElsewhere, WasAnnounced;
    if n == 0 {
      NoneYet(fs, es, id);
      return;
    }
    LedgerExact(fs, objects, es, n - 1, id);
    OneMore(fs, es, n - 1, id);
    LedgerStep(fs[n - 1], objects, es[n - 1], id);
  }

  // ---------------------------------------------------------------------------
  // Once
  // ---------------------------------------------------------------------------

  /** Object id was forwarded once, or is about to be by one contributor, or neither. */
  ghost predicate OnceInv(f: Fanout, id: u64) {
    && (forall i, j :: 0 <= i < |f.log| && 0 <= j < |f.log| && f.log[i].id == id && f.log[j].id == id ==> i == j)
    && (WasForwarded(f, id) ==> id in f.ledger.claimed)
    && (forall c :: c in f.contributors && ClaimsFresh(f.contributors[c], id) ==>
          id in f.ledger.claimed && !WasForwarded(f, id))
    && (forall c, d :: c in f.contributors && d in f.contributors && c != d ==>
          !(ClaimsFresh(f.contributors[c], id) && ClaimsFresh(f.contributors[d], id)))
    && (forall c :: c in f.contributors ==> !HoldsLate(f.contributors[c], id))
  }

  /** What a step does to the log. */
  ghost predicate LogAfter(f: Fanout, r: Fanout, e: Event) {
    && (r.log == f.log
        || (e.Deliver? && e.c in f.contributors && f.contributors[e.c].phase.Claimed? && |r.log| == |f.log| + 1
            && f.log <= r.log && r.log[|f.log|].id == f.contributors[e.c].phase.id))
    && (e.Deliver? ==> e.c in f.contributors && (f.contributors[e.c].phase.Claimed? ==>
                                                   !f.contributors[e.c].phase.claim.Redundant?))
    && (e.ClaimObject? ==> r.log == f.log)
  }

  /** What a step does to the claims on id, and to the ledger's record of it. */
  ghost predicate ClaimsAfter(f: Fanout, r: Fanout, e: Event, id: u64) {
    && (forall c :: c in r.contributors && ClaimsFresh(r.contributors[c], id) ==>
          (Claims(f, e, id, Fresh) && c == e.c)
          || (c in f.contributors && ClaimsFresh(f.contributors[c], id) && !(e.Deliver? && e.c == c)))
    && (forall c :: c in r.contributors && HoldsLate(r.contributors[c], id) ==>
          Claims(f, e, id, Late) || (c in f.contributors && HoldsLate(f.contributors[c], id)))
    && (id in f.ledger.claimed || Claims(f, e, id, Fresh) ==> id in r.ledger.claimed)
    && (Claims(f, e, id, Fresh) ==> id !in f.ledger.claimed)
  }

  lemma {:induction false} LogIs(f: Fanout, objects: set<u64>, e: Event)
    requires Enabled(f, objects, e)
    ensures LogAfter(f, Next(f, objects, e), e)
  {
    hide W.Next, W.Enabled, Outcome, AdmissionOf, Widened, Noted, Released, OfferAll, AgeOutAll, TearDownAll, ReadAllOf;
  }

  lemma {:induction false} ClaimsAre(f: Fanout, objects: set<u64>, e: Event, id: u64)
    requires Enabled(f, objects, e)
    ensures ClaimsAfter(f, Next(f, objects, e), e, id)
  {
    hide W.Next, W.Enabled, Outcome, AdmissionOf, Widened, Noted, Released, OfferAll, AgeOutAll, TearDownAll, ReadAllOf;
    hide Leave, Forwarded, LowersLowest, DoneReading, NoteHeader, Seeded, HeardAt, PartWay, SinceOf, IsLast;
  }

  lemma {:induction false} OnceStep(f: Fanout, r: Fanout, e: Event, id: u64)
    requires OnceInv(f, id) && LogAfter(f, r, e) && ClaimsAfter(f, r, e, id) && !Claims(f, e, id, Late)
    ensures OnceInv(r, id)
  {
    assert forall i :: 0 <= i < |f.log| ==> r.log[i] == f.log[i];
    if WasForwarded(r, id) && !WasForwarded(f, id) {
      assert e.Deliver? && ClaimsFresh(f.contributors[e.c], id);
    }
    if e.Deliver? && r.log != f.log && r.log[|f.log|].id == id {
      assert ClaimsFresh(f.contributors[e.c], id) && !WasForwarded(f, id);
    }
  }

  lemma {:induction false} OnceRun(fs: seq<Fanout>, objects: set<u64>, es: seq<Event>, n: nat, id: u64)
    requires IsRun(fs, objects, es) && n <= |es|
    requires forall i :: 0 <= i < n ==> !Claims(fs[i], es[i], id, Late)
    ensures OnceInv(fs[n], id)
    decreases n
  {
    if n == 0 {
      return;
    }
    hide Next, Enabled, Claims, OnceInv, LogAfter, ClaimsAfter;
    OnceRun(fs, objects, es, n - 1, id);
    LogIs(fs[n - 1], objects, es[n - 1]);
    ClaimsAre(fs[n - 1], objects, es[n - 1], id);
    OnceStep(fs[n - 1], fs[n], es[n - 1], id);
  }

  /**
   In every run an Object that was never claimed too late is forwarded at most once, however many streams carry
   it, and claimed as the first copy at most once.
   */
  lemma {:induction false} ForwardedOnce(fs: seq<Fanout>, objects: set<u64>, es: seq<Event>, id: u64, i: nat, j: nat)
    requires IsRun(fs, objects, es)
    requires forall n :: 0 <= n < |es| ==> !Claims(fs[n], es[n], id, Late)
    ensures i < |fs[|es|].log| && j < |fs[|es|].log| && fs[|es|].log[i].id == id == fs[|es|].log[j].id ==> i == j
    ensures i < j < |es| && Claims(fs[i], es[i], id, Fresh) ==> !Claims(fs[j], es[j], id, Fresh)
  {
    OnceRun(fs, objects, es, |es|, id);
    if i < j < |es| && Claims(fs[i], es[i], id, Fresh) {
      LedgerExact(fs, objects, es, j, id);
      assert Enabled(fs[j], objects, es[j]);
    }
  }
}
