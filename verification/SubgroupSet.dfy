/**
 What the contributors to one Subgroup share under its lock: the lowest Object forwarded, the run of IDs
 forwarded, how contributors ended, and which Objects are part way through being read.
 */
module SubgroupSet {
  import opened Uint64
  import opened SubgroupWriter

  /** The Object IDs forwarded through the set lie in lo..hi; unbroken: all of those were. */
  datatype Span = Span(lo: u64, hi: u64, unbroken: bool)

  /** The note kept of an Object in transit: which writers were numbered when it was first seen, and its readers. */
  datatype ObjHeard = ObjHeard(id: u64, heard: nat, readers: nat)

  /** lowest is 0 until something was forwarded; clean is where the earliest clean contributor starts. */
  datatype SetState = SetState(
    lowest: u64,
    forwarded: bool,
    run: Option<Span>,
    clean: Option<u64>,
    resetCode: ResetCode,
    openCount: nat,
    reading: seq<ObjHeard>
  )

  const NEW_SET := SetState(0, false, None, None, INTERNAL_ERROR, 0, [])

  datatype Claim = Fresh | Redundant | Late

  /** What becomes of a claimed Object: forwarded, a copy of one forwarded, or lost. */
  datatype Admission = Admitted | Repeat | Lost

  predicate LowersLowest(s: SetState, id: u64) {
    !s.forwarded || id < s.lowest
  }

  function Widened(run: Option<Span>, id: u64): Span {
    match run
    case None => Span(id, id, true)
    case Some(r) =>
      if r.hi < MAX_U64 && id == r.hi + 1 then r.(hi := id)
      else if r.lo > 0 && id == r.lo - 1 then r.(lo := id)
      else Span(Min(r.lo, id), Max(r.hi, id), false)
  }

  /** The set once id is forwarded. */
  function Forwarded(s: SetState, id: u64): SetState {
    s.(lowest := if LowersLowest(s, id) then id else s.lowest, forwarded := true, run := Some(Widened(s.run, id)))
  }

  /** A ledger's lowest ID, from an earlier set of the same Subgroup. */
  function Seeded(s: SetState, lowest: u64): SetState {
    if LowersLowest(s, lowest) then s.(lowest := lowest, forwarded := true) else s
  }

  function Leave(s: SetState, reset: bool, code: ResetCode, covers: bool, coverFrom: u64): SetState {
    if reset then s.(resetCode := code)
    else if covers && (s.clean.None? || coverFrom < s.clean.value) then s.(clean := Some(coverFrom))
    else s
  }

  function Outcome(s: SetState): Ending {
    if s.clean.None? then Reset(s.resetCode)
    else if s.clean.value <= s.lowest then Fin
    else if s.run.Some? && s.run.value.unbroken && s.run.value.lo == s.lowest
            && s.run.value.hi >= s.clean.value - 1 then Fin
    else Reset(CANCELLED)
  }

  function AdmissionOf(s: SetState, claim: Claim, id: u64): Admission {
    if !claim.Late? || (s.run.Some? && id > s.run.value.hi) then Admitted
    else if s.run.Some? && (id == s.run.value.lo || id == s.run.value.hi
                            || (s.run.value.unbroken && s.run.value.lo < id < s.run.value.hi)) then Repeat
    else Lost
  }

  // ---------------------------------------------------------------------------
  // The run of IDs forwarded
  // ---------------------------------------------------------------------------

  /** id is one above the greatest of ids, or one below the least. */
  ghost predicate NextTo(ids: seq<u64>, id: u64) {
    || ((forall x :: x in ids ==> x < id) && exists x :: x in ids && x + 1 == id)
    || ((forall x :: x in ids ==> id < x) && exists x :: x in ids && id + 1 == x)
  }

  /** Each of ids but the first was next to those before it. */
  ghost predicate OneByOne(ids: seq<u64>) {
    forall n :: 0 < n < |ids| ==> NextTo(ids[..n], ids[n])
  }

  /** run describes ids, the IDs forwarded so far. */
  ghost predicate Describes(run: Option<Span>, ids: seq<u64>) {
    match run
    case None => ids == []
    case Some(r) =>
      && r.lo in ids && r.hi in ids
      && (forall id :: id in ids ==> r.lo <= id <= r.hi)
      && (r.unbroken <==> OneByOne(ids))
      && (r.unbroken ==> forall id :: r.lo <= id <= r.hi ==> id in ids)
  }

  lemma {:induction false} OneByOneMore(ids: seq<u64>, id: u64)
    ensures OneByOne(ids + [id]) <==> OneByOne(ids) && (ids == [] || NextTo(ids, id))
  {
    hide NextTo;
    var all := ids + [id];
    assert all[..|ids|] == ids && all[|ids|] == id;
    forall n | 0 < n < |ids|
      ensures NextTo(all[..n], all[n]) <==> NextTo(ids[..n], ids[n])
    {
      assert all[..n] == ids[..n] && all[n] == ids[n];
    }
    if OneByOne(all) {
      forall n | 0 < n < |ids|
        ensures NextTo(ids[..n], ids[n])
      {
        assert NextTo(all[..n], all[n]);
      }
      assert ids != [] ==> NextTo(all[..|ids|], all[|ids|]);
    }
  }

  lemma {:induction false} WidenedDescribes(run: Option<Span>, ids: seq<u64>, id: u64)
    requires Describes(run, ids)
    ensures Describes(Some(Widened(run, id)), ids + [id])
  {
    var r := Widened(run, id);
    var all := ids + [id];
    assert id in all;
    assert forall x :: x in ids ==> x in all;
    OneByOneMore(ids, id);
    hide OneByOne;
    if run.Some? && r.unbroken {
      forall x | r.lo <= x <= r.hi
        ensures x in all
      {
        assert x == id || run.value.lo <= x <= run.value.hi;
      }
    }
  }

  /** lowest is at or below every ID forwarded. */
  ghost predicate BelowAll(s: SetState, ids: seq<u64>) {
    && (ids != [] ==> s.forwarded)
    && (forall id :: id in ids ==> s.lowest <= id)
  }

  /** An Object is claimed to start its Subgroup only if every ID forwarded before it is higher. */
  lemma {:induction false} FirstIsLowest(s: SetState, ids: seq<u64>, id: u64)
    requires BelowAll(s, ids)
    ensures BelowAll(Forwarded(s, id), ids + [id])
    ensures LowersLowest(s, id) ==> forall x :: x in ids ==> id < x
  {
  }

  /** id is the least of ids, or the greatest. */
  ghost predicate AtEnd(ids: seq<u64>, id: u64) {
    id in ids && ((forall x :: x in ids ==> id <= x) || (forall x :: x in ids ==> x <= id))
  }

  /**
   A late copy is let through exactly if it comes after everything forwarded, dropped as a repeat exactly if
   it was forwarded and is an end of what was or everything was forwarded one by one, and else lost. Any other
   claim lets an Object through.
   */
  lemma {:induction false} AdmissionExact(s: SetState, ids: seq<u64>, claim: Claim, id: u64)
    requires Describes(s.run, ids)
    ensures AdmissionOf(s, claim, id).Admitted? <==> !claim.Late? || (ids != [] && forall x :: x in ids ==> x < id)
    ensures AdmissionOf(s, claim, id).Repeat? <==> claim.Late? && id in ids && (OneByOne(ids) || AtEnd(ids, id))
  {
    hide OneByOne;
    if ids != [] {
      assert ids[0] in ids;
    }
  }

  // ---------------------------------------------------------------------------
  // Objects part way through being read
  // ---------------------------------------------------------------------------

  function Index(reading: seq<ObjHeard>, id: u64): (i: nat)
    ensures i <= |reading|
    ensures i < |reading| ==> reading[i].id == id
    ensures forall j :: 0 <= j < i ==> reading[j].id != id
    decreases |reading|
  {
    if reading == [] || reading[0].id == id then 0 else Index(reading[1..], id) + 1
  }

  /** The number noted for id while it is in transit, and count for an id that is not. */
  function HeardAt(reading: seq<ObjHeard>, id: u64, count: nat): nat {
    var i := Index(reading, id);
    if i < |reading| then reading[i].heard else count
  }

  function ReadersOf(reading: seq<ObjHeard>, id: u64): nat {
    var i := Index(reading, id);
    if i < |reading| then reading[i].readers else 0
  }

  function Noted(reading: seq<ObjHeard>, id: u64, count: nat): seq<ObjHeard> {
    var i := Index(reading, id);
    if i < |reading| then reading[i := reading[i].(readers := reading[i].readers + 1)]
    else reading + [ObjHeard(id, count, 1)]
  }

  function Released(reading: seq<ObjHeard>, id: u64): seq<ObjHeard> {
    var i := Index(reading, id);
    if i == |reading| then reading
    else if reading[i].readers > 1 then reading[i := reading[i].(readers := reading[i].readers - 1)]
    else reading[..i] + reading[i + 1..]
  }

  function NoteHeader(s: SetState, id: u64): SetState {
    s.(reading := Noted(s.reading, id, s.openCount))
  }

  function DoneReading(s: SetState, id: u64): SetState {
    s.(reading := Released(s.reading, id))
  }

  /** One entry per Object, each with a reader. */
  ghost predicate Distinct(reading: seq<ObjHeard>) {
    && (forall i, j :: 0 <= i < j < |reading| ==> reading[i].id != reading[j].id)
    && (forall i :: 0 <= i < |reading| ==> reading[i].readers > 0)
  }

  lemma {:induction false} IndexIs(reading: seq<ObjHeard>, id: u64, i: nat)
    requires Distinct(reading) && i < |reading| && reading[i].id == id
    ensures Index(reading, id) == i
  {
  }

  lemma {:induction false} NotedDistinct(reading: seq<ObjHeard>, id: u64, count: nat)
    requires Distinct(reading)
    ensures Distinct(Noted(reading, id, count))
  {
    hide Index;
  }

  /** A header read adds one reader of its Object and touches no other entry. */
  lemma {:induction false} NotedExact(reading: seq<ObjHeard>, id: u64, count: nat, other: u64)
    requires Distinct(reading)
    ensures var r := Noted(reading, id, count);
      && ReadersOf(r, other) == ReadersOf(reading, other) + (if other == id then 1 else 0)
      && (ReadersOf(r, other) > 0 ==> HeardAt(r, other, count) == HeardAt(reading, other, count))
  {
    hide Index;
    var r := Noted(reading, id, count);
    NotedDistinct(reading, id, count);
    var i := Index(reading, other);
    if i < |reading| {
      IndexIs(r, other, i);
    } else if other == id {
      IndexIs(r, id, |reading|);
    }
  }

  lemma {:induction false} ReleasedDistinct(reading: seq<ObjHeard>, id: u64)
    requires Distinct(reading)
    ensures Distinct(Released(reading, id))
  {
    hide Index;
  }

  /** A reader done takes one off its Object's count, and the last takes the entry. */
  lemma {:induction false} ReleasedExact(reading: seq<ObjHeard>, id: u64, count: nat, other: u64)
    requires Distinct(reading) && ReadersOf(reading, id) > 0
    ensures var r := Released(reading, id);
      && ReadersOf(r, other) == ReadersOf(reading, other) - (if other == id then 1 else 0)
      && (ReadersOf(r, other) > 0 ==> HeardAt(r, other, count) == HeardAt(reading, other, count))
  {
    hide Index;
    var r := Released(reading, id);
    ReleasedDistinct(reading, id);
    var i, k := Index(reading, other), Index(reading, id);
    if reading[k].readers > 1 {
      if i < |reading| {
        IndexIs(r, other, i);
      }
    } else {
      assert forall j :: 0 <= j < |r| ==> r[j] == reading[if j < k then j else j + 1];
      if i < |reading| && other != id {
        IndexIs(r, other, if i < k then i else i - 1);
      }
    }
  }
}
