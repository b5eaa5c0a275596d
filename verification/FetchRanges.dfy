/**
 How a relay turns a FETCH range, classified into Objects, unknown, timed out and known absent
 Locations, into the ordered elements of a response.
 */
module FetchRanges {
  import opened Uint64
  import opened Locations
  import opened Sorting

  // Object Status values (section 11.1.1 of draft-ietf-moq-transport-22).
  const STATUS_NORMAL: u64 := 0x0
  const STATUS_END_OF_GROUP: u64 := 0x3
  const STATUS_END_OF_TRACK: u64 := 0x4

  /** A cached Object, or an End of Range marker on the serve path. */
  datatype CachedObject = CachedObject(
    group: u64,
    obj: u64,
    subgroup: u64,
    priority: byte,
    datagram: bool,
    status: u64,
    properties: seq<byte>,
    payload: seq<byte>,
    endOfUnknownRange: bool,
    endOfTimedOutRange: bool
  ) {
    function Loc(): Location {
      Location(group, obj)
    }
    predicate IsRangeMarker() {
      endOfUnknownRange || endOfTimedOutRange
    }
    predicate IsStatusMarker() {
      |payload| == 0 && status != 0
    }
  }

  /** How many IDs just below an Object's own do not exist, of Objects and of Groups, if it says so. */
  datatype PriorGaps = PriorGaps(group: Option<u64>, obj: Option<u64>)

  function UnknownRangeMarker(l: Location): CachedObject {
    CachedObject(l.group, l.obj, 0, 0, false, 0, [], [], true, false)
  }

  function TimedOutRangeMarker(l: Location): CachedObject {
    CachedObject(l.group, l.obj, 0, 0, false, 0, [], [], false, true)
  }

  // ---------------------------------------------------------------------------
  // What is not covered
  // ---------------------------------------------------------------------------

  /** a ends before b starts, with a Location between. */
  ghost predicate Separated(a: LocRange, b: LocRange) {
    exists m :: Less(a.hi, m) && Less(m, b.lo)
  }

  /** Ranges in ascending order, none touching the next: maximal runs of what they cover. */
  ghost predicate MaximalRuns(rs: seq<LocRange>) {
    && AllValid(rs)
    && (forall i, j :: 0 <= i < j < |rs| ==> Separated(rs[i], rs[j]))
  }

  lemma {:induction false} SameMembersSameCover(l: Location, a: seq<LocRange>, b: seq<LocRange>)
    requires forall r :: r in a <==> r in b
    ensures InAny(l, a) <==> InAny(l, b)
  {
    if InAny(l, a) {
      var i :| 0 <= i < |a| && InRange(l, a[i]);
      assert a[i] in b;
    }
    if InAny(l, b) {
      var i :| 0 <= i < |b| && InRange(l, b[i]);
      assert b[i] in a;
    }
  }

  lemma {:induction false} InAnyAppend(l: Location, rs: seq<LocRange>, r: LocRange)
    ensures InAny(l, rs + [r]) <==> InAny(l, rs) || InRange(l, r)
  {
    InAnyConcat(l, rs, [r]);
    assert InRange(l, r) <==> InRange(l, [r][0]);
  }

  /** With the ranges before i below cur and the rest from lo up, nothing covers cur through lo. */
  lemma {:induction false} HoleIsUncovered(l: Location, rs: seq<LocRange>, i: nat, cur: Location, lo: Location)
    requires i <= |rs|
    requires forall j :: 0 <= j < i ==> Less(rs[j].hi, cur)
    requires forall j :: i <= j < |rs| ==> !Less(rs[j].lo, lo)
    requires !Less(l, cur) && Less(l, lo)
    ensures !InAny(l, rs)
  {
  }

  /** The runs found below cur, extended by the hole cur through hi. */
  lemma {:induction false} ExtendRuns(out: seq<LocRange>, cur: Location, hi: Location)
    requires MaximalRuns(out)
    requires out != [] ==> Separated(out[|out| - 1], LocRange(cur, hi))
    requires !Less(hi, cur)
    ensures MaximalRuns(out + [LocRange(cur, hi)])
  {
    var last := LocRange(cur, hi);
    forall i | 0 <= i < |out| ensures Separated(out[i], last) {
      if i < |out| - 1 {
        assert Separated(out[i], out[|out| - 1]);
        var m :| Less(out[i].hi, m) && Less(m, out[|out| - 1].lo);
        assert Less(m, last.lo);
      }
    }
  }

  /** out is what rs leaves uncovered from start up to cur, with something covered before cur. */
  ghost predicate RunsBelow(out: seq<LocRange>, start: Location, cur: Location, rs: seq<LocRange>) {
    && MaximalRuns(out)
    && (out != [] ==> exists m :: Less(out[|out| - 1].hi, m) && Less(m, cur))
    && (forall l :: InAny(l, out) <==> !Less(l, start) && Less(l, cur) && !InAny(l, rs))
  }

  /** The same through hi, which rs covers. */
  ghost predicate RunsThrough(out: seq<LocRange>, start: Location, hi: Location, rs: seq<LocRange>) {
    && MaximalRuns(out)
    && (out != [] ==> Less(out[|out| - 1].hi, hi))
    && (forall l :: InAny(l, out) <==> !Less(l, start) && !Less(hi, l) && !InAny(l, rs))
  }

  /** Appending the hole cur through hi, past which rs covers some Location. */
  lemma {:induction false} ExtendBelow(
    out: seq<LocRange>, start: Location, cur: Location, rs: seq<LocRange>, hi: Location)
    requires RunsBelow(out, start, cur, rs) && !Less(cur, start) && !Less(hi, cur)
    requires forall l :: InRange(l, LocRange(cur, hi)) ==> !InAny(l, rs)
    ensures MaximalRuns(out + [LocRange(cur, hi)])
    ensures forall l ::
              InAny(l, out + [LocRange(cur, hi)]) <==> !Less(l, start) && !Less(hi, l) && !InAny(l, rs)
  {
    var hole := LocRange(cur, hi);
    if out != [] {
      assert Separated(out[|out| - 1], hole);
    }
    ExtendRuns(out, cur, hi);
    forall l ensures InAny(l, out + [hole]) <==> !Less(l, start) && !Less(hi, l) && !InAny(l, rs) {
      InAnyAppend(l, out, hole);
    }
  }

  /** The next range of the sorted list closes the hole that starts at cur, if there is one. */
  lemma {:induction false} CloseHole(out: seq<LocRange>, start: Location, cur: Location, rs: seq<LocRange>, i: nat)
    returns (out': seq<LocRange>)
    requires i < |rs| && ValidRange(rs[i])
    requires RunsBelow(out, start, cur, rs) && !Less(cur, start)
    requires forall j :: 0 <= j < i ==> Less(rs[j].hi, cur)
    requires forall j :: i <= j < |rs| ==> !Less(rs[j].lo, rs[i].lo)
    requires !Less(rs[i].hi, cur)
    ensures out' == if Less(cur, rs[i].lo) then out + [LocRange(cur, Predecessor(rs[i].lo).value)] else out
    ensures RunsThrough(out', start, rs[i].hi, rs)
  {
    var k := rs[i];
    out' := out;
    if Less(cur, k.lo) {
      var pred := Predecessor(k.lo).value;
      forall l | InRange(l, LocRange(cur, pred)) ensures !InAny(l, rs) {
        HoleIsUncovered(l, rs, i, cur, k.lo);
      }
      ExtendBelow(out, start, cur, rs, pred);
      out' := out + [LocRange(cur, pred)];
    }
    forall l ensures InAny(l, out') <==> !Less(l, start) && !Less(k.hi, l) && !InAny(l, rs) {
      if InRange(l, k) {
        assert InAny(l, rs);
      }
    }
  }

  /** After a range ending at hi the search goes on from its successor. */
  lemma {:induction false} StepPast(
    out: seq<LocRange>, start: Location, hi: Location, rs: seq<LocRange>, next: Location)
    requires RunsThrough(out, start, hi, rs)
    requires Successor(hi) == Some(next)
    ensures RunsBelow(out, start, next, rs)
  {
    SuccessorIsNext(hi);
    if out != [] {
      assert Less(hi, next);
    }
  }

  ghost predicate IsUncovered(out: seq<LocRange>, start: Location, end: Location, known: seq<LocRange>) {
    && MaximalRuns(out)
    && (forall l :: InAny(l, out) <==> InRange(l, LocRange(start, end)) && !InAny(l, known))
  }

  lemma {:induction false} UncoveredOf(
    out: seq<LocRange>, start: Location, end: Location, rs: seq<LocRange>, known: seq<LocRange>)
    requires MaximalRuns(out)
    requires forall l :: InAny(l, out) <==> InRange(l, LocRange(start, end)) && !InAny(l, rs)
    requires forall r :: r in rs <==> r in known
    ensures IsUncovered(out, start, end, known)
  {
    forall l ensures InAny(l, out) <==> InRange(l, LocRange(start, end)) && !InAny(l, known) {
      SameMembersSameCover(l, rs, known);
    }
  }

  /** A range reaching end leaves nothing more. */
  lemma {:induction false} EndsCovered(
    out: seq<LocRange>, start: Location, end: Location, hi: Location, rs: seq<LocRange>, known: seq<LocRange>, i: nat)
    requires i < |rs| && rs[i].hi == hi && !Less(end, rs[i].lo)
    requires RunsThrough(out, start, hi, rs)
    requires Successor(hi).None? || Less(end, Successor(hi).value)
    requires forall r :: r in rs <==> r in known
    ensures IsUncovered(out, start, end, known)
  {
    forall l ensures InAny(l, out) <==> InRange(l, LocRange(start, end)) && !InAny(l, rs) {
      if !Less(hi, l) && Less(end, l) {
        assert InRange(l, rs[i]);
      }
    }
    UncoveredOf(out, start, end, rs, known);
  }

  /** With no range left at or below end, the last hole runs to end. */
  lemma {:induction false} EndsOpen(
    out: seq<LocRange>, start: Location, cur: Location, end: Location, rs: seq<LocRange>, known: seq<LocRange>, i: nat)
    requires i <= |rs|
    requires RunsBelow(out, start, cur, rs) && InRange(cur, LocRange(start, end))
    requires forall j :: 0 <= j < i ==> Less(rs[j].hi, cur)
    requires forall j :: i <= j < |rs| ==> Less(end, rs[j].lo)
    requires forall r :: r in rs <==> r in known
    ensures IsUncovered(out + [LocRange(cur, end)], start, end, known)
  {
    forall l | InRange(l, LocRange(cur, end)) ensures !InAny(l, rs) {
    }
    ExtendBelow(out, start, cur, rs, end);
    UncoveredOf(out + [LocRange(cur, end)], start, end, rs, known);
  }

  lemma {:induction false} StartsEmpty(start: Location, rs: seq<LocRange>)
    ensures RunsBelow([], start, start, rs)
  {
  }

  /** known in the order of its ranges' starts. */
  function SortRanges(known: seq<LocRange>): (rs: seq<LocRange>)
    ensures forall i, j :: 0 <= i <= j < |rs| ==> !Less(rs[j].lo, rs[i].lo)
    ensures forall r :: r in rs <==> r in known
  {
    var key := (r: LocRange) => Position(r.lo, Ascending);
    SortKeepsMembers(known, key);
    StableSortSpec(known, key);
    var rs := StableSort(known, key);
    assert forall i, j :: 0 <= i < j < |rs| ==> key(rs[i]) <= key(rs[j]);
    rs
  }

  /** Finds the holes that known leaves in a range, in one pass over known sorted by start. */
  method Uncovered(start: Location, end: Location, known: seq<LocRange>) returns (out: seq<LocRange>)
    requires !Less(end, start)
    requires AllValid(known)
    ensures IsUncovered(out, start, end, known)
  {
    hide RunsBelow, RunsThrough, IsUncovered;
    StartsEmpty(start, SortRanges(known));
    var sorted := SortRanges(known);
    out := [];
    var cur := start;
    var i := 0;
    while i < |sorted|
      invariant 0 <= i <= |sorted|
      invariant InRange(cur, LocRange(start, end))
      invariant RunsBelow(out, start, cur, sorted)
      invariant forall j :: 0 <= j < i ==> Less(sorted[j].hi, cur)
    {
      var k := sorted[i];
      assert k in known;
      if Less(k.hi, cur) {
      } else if Less(end, k.lo) {
        break;
      } else {
        ghost var closed := CloseHole(out, start, cur, sorted, i);
        if Less(cur, k.lo) {
          out := out + [LocRange(cur, Predecessor(k.lo).value)];
        }
        var next := Successor(k.hi);
        if next.None? || Less(end, next.value) {
          EndsCovered(out, start, end, k.hi, sorted, known, i);
          return;
        }
        StepPast(out, start, k.hi, sorted, next.value);
        cur := next.value;
      }
      i := i + 1;
    }
    EndsOpen(out, start, cur, end, sorted, known, i);
    out := out + [LocRange(cur, end)];
  }
}
