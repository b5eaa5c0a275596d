/** The set the contributors to a Subgroup share, as the relay holds it: fields updated under one lock. */
module SubgroupSetObject {
  import opened Uint64
  import S = SubgroupSet
  import W = SubgroupWriter
  import opened SubgroupWriterObject

  class SubgroupWriterSet {
    var writers: map<nat, SubgroupWriter>
    var openCount: nat
    var reading: seq<S.ObjHeard>
    var lowest: u64
    var forwarded: bool
    var runLo: u64
    var runHi: u64
    var hasRun: bool
    var unbroken: bool
    var cleanFrom: u64
    var sawClean: bool
    var resetCode: W.ResetCode

    ghost function Run(): Option<S.Span>
      reads `hasRun, `runLo, `runHi, `unbroken
    {
      if hasRun then Some(S.Span(runLo, runHi, unbroken)) else None
    }

    ghost function State(): S.SetState
      reads this
    {
      S.SetState(lowest, forwarded, Run(), if sawClean then Some(cleanFrom) else None, resetCode, openCount, reading)
    }

    /** No two subscribers share a writer, and nothing is unbroken before there is a run. */
    ghost predicate Valid()
      reads this
    {
      && (forall j, k :: j in writers && k in writers && writers[j] == writers[k] ==> j == k)
      && (unbroken ==> hasRun)
    }

    constructor ()
      ensures Valid() && State() == S.NEW_SET && writers == map[]
    {
      writers, openCount, reading := map[], 0, [];
      lowest, forwarded, runLo, runHi, hasRun, unbroken := 0, false, 0, 0, false, false;
      cleanFrom, sawClean, resetCode := 0, false, W.INTERNAL_ERROR;
    }

    method Widen(id: u64)
      modifies `runLo, `runHi, `hasRun, `unbroken
      ensures Run() == Some(S.Widened(old(Run()), id))
    {
      if !hasRun {
        runLo, runHi, hasRun, unbroken := id, id, true, true;
      } else if runHi < MAX_U64 && id == runHi + 1 {
        runHi := id;
      } else if runLo > 0 && id == runLo - 1 {
        runLo := id;
      } else {
        runLo, runHi, unbroken := Min(runLo, id), Max(runHi, id), false;
      }
    }

    /** Records that Object id is forwarded, and tells whether it starts the Subgroup. */
    method ClaimFirst(id: u64, claimed: bool) returns (first: bool)
      requires Valid()
      modifies `lowest, `forwarded, `runLo, `runHi, `hasRun, `unbroken
      ensures Valid() && State() == S.Forwarded(old(State()), id)
      ensures first <==> claimed && S.LowersLowest(old(State()), id)
    {
      var lower := !forwarded || id < lowest;
      if lower {
        lowest, forwarded := id, true;
      }
      Widen(id);
      first := claimed && lower;
    }

    method Leave(reset: bool, code: W.ResetCode, covers: bool, coverFrom: u64)
      requires Valid()
      modifies `cleanFrom, `sawClean, `resetCode
      ensures Valid() && State() == S.Leave(old(State()), reset, code, covers, coverFrom)
    {
      if reset {
        resetCode := code;
      } else if covers && (!sawClean || coverFrom < cleanFrom) {
        cleanFrom, sawClean := coverFrom, true;
      }
    }

    method Outcome() returns (end: W.Ending)
      requires Valid()
      ensures end == S.Outcome(State())
    {
      if !sawClean {
        return W.Reset(resetCode);
      }
      if cleanFrom <= lowest || (unbroken && runLo == lowest && runHi >= cleanFrom - 1) {
        return W.Fin;
      }
      return W.Reset(W.CANCELLED);
    }

    method NoteHeader(id: u64) returns (heard: nat)
      modifies `reading
      ensures State() == S.NoteHeader(old(State()), id)
      ensures heard == S.HeardAt(old(reading), id, openCount)
    {
      var i := 0;
      while i < |reading|
        invariant i <= |reading|
        invariant forall j :: 0 <= j < i ==> reading[j].id != id
        invariant reading == old(reading)
      {
        if reading[i].id == id {
          heard := reading[i].heard;
          reading := reading[i := reading[i].(readers := reading[i].readers + 1)];
          return;
        }
        i := i + 1;
      }
      heard := openCount;
      reading := reading + [S.ObjHeard(id, heard, 1)];
    }

    method DoneReading(id: u64)
      requires S.Distinct(reading)
      modifies `reading
      ensures State() == S.DoneReading(old(State()), id)
    {
      var i := 0;
      while i < |reading|
        invariant i <= |reading|
        invariant forall j :: 0 <= j < i ==> reading[j].id != id
        invariant reading == old(reading)
      {
        if reading[i].id == id {
          if reading[i].readers == 1 {
            reading := reading[..i] + reading[i + 1..];
          } else {
            reading := reading[i := reading[i].(readers := reading[i].readers - 1)];
          }
          return;
        }
        i := i + 1;
      }
    }

    /** Walks the writers once, offering fwd to those numbered up to heard. */
    method OfferAll(pos: W.Pos, fwd: W.Fwd, heard: nat, vs: map<nat, W.Verdict>)
      requires Valid() && writers.Keys <= vs.Keys
      modifies writers.Values
      ensures forall k :: k in writers ==>
        writers[k].State() ==
        if writers[k].seqNo <= heard then W.Offer(old(writers[k].State()), pos, fwd, vs[k])
        else old(writers[k].State())
    {
      hide W.Offer, SubgroupWriter.State;
      var todo := writers.Keys;
      while todo != {}
        invariant todo <= writers.Keys
        invariant forall k :: k in todo ==> writers[k].State() == old(writers[k].State())
        invariant forall k :: k in writers && k !in todo ==>
          writers[k].State() ==
          if writers[k].seqNo <= heard then W.Offer(old(writers[k].State()), pos, fwd, vs[k])
          else old(writers[k].State())
        decreases |todo|
      {
        var k :| k in todo;
        todo := todo - {k};
        if writers[k].seqNo <= heard {
          writers[k].Offer(pos, fwd, vs[k]);
        }
      }
    }

    /** Forwards Object id; claimed: its contributor says it starts the Subgroup. */
    method Forward(pos: W.Pos, id: u64, claimed: bool, hasProps: bool, gap: Option<u64>, at: nat,
                   heard: nat, vs: map<nat, W.Verdict>) returns (first: bool)
      requires Valid() && writers.Keys <= vs.Keys
      modifies this, writers.Values
      ensures Valid() && writers == old(writers) && State() == S.Forwarded(old(State()), id)
      ensures first <==> claimed && S.LowersLowest(old(State()), id)
      ensures forall k :: k in writers ==>
        writers[k].State() ==
        if writers[k].seqNo <= heard
        then W.Offer(old(writers[k].State()), pos, W.Fwd(id, first, false, hasProps, gap, at), vs[k])
        else old(writers[k].State())
    {
      hide W.Offer, S.Forwarded;
      first := ClaimFirst(id, claimed);
      OfferAll(pos, W.Fwd(id, first, false, hasProps, gap, at), heard, vs);
    }

    /** Whether a claimed Object may be forwarded; if it is lost, every writer is told. */
    method AdmitAgedOut(claim: S.Claim, id: u64, vs: map<nat, W.Verdict>) returns (admit: bool)
      requires Valid() && writers.Keys <= vs.Keys
      modifies writers.Values
      ensures admit <==> S.AdmissionOf(State(), claim, id).Admitted?
      ensures forall k :: k in writers ==>
        writers[k].State() ==
        if S.AdmissionOf(State(), claim, id).Lost? then W.AgedOut(old(writers[k].State()), id, vs[k])
        else old(writers[k].State())
    {
      hide W.AgedOut, SubgroupWriter.State;
      if !claim.Late? || (hasRun && id > runHi) {
        return true;
      }
      if hasRun && (id == runLo || id == runHi || (unbroken && runLo < id < runHi)) {
        return false;
      }
      var todo := writers.Keys;
      while todo != {}
        invariant todo <= writers.Keys
        invariant forall k :: k in todo ==> writers[k].State() == old(writers[k].State())
        invariant forall k :: k in writers && k !in todo ==>
          writers[k].State() == W.AgedOut(old(writers[k].State()), id, vs[k])
        decreases |todo|
      {
        var k :| k in todo;
        todo := todo - {k};
        writers[k].AgedOut(id, vs[k]);
      }
      return false;
    }
  }
}
