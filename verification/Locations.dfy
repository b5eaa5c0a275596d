/**
 Pairs of a Group and an Object ID, ordered lexicographically, and the second order that a descending
 FETCH response uses, which reverses the Groups but not the Objects inside one.
 */
module Locations {
  import opened Uint64

  datatype Location = Location(group: u64, obj: u64)

  /** An inclusive range of Locations. */
  datatype LocRange = LocRange(lo: Location, hi: Location)

  datatype GroupOrder = Ascending | Descending

  function CompareInts(a: int, b: int): int {
    if a < b then -1 else if a > b then 1 else 0
  }

  function Compare(a: Location, b: Location): int {
    if CompareInts(a.group, b.group) != 0 then CompareInts(a.group, b.group)
    else CompareInts(a.obj, b.obj)
  }

  predicate Less(a: Location, b: Location) {
    Compare(a, b) < 0
  }

  function StreamCompare(a: Location, b: Location, order: GroupOrder): int {
    if order.Descending? && a.group != b.group then CompareInts(b.group, a.group)
    else Compare(a, b)
  }

  /** a is carried before b. */
  predicate Before(a: Location, b: Location, order: GroupOrder) {
    StreamCompare(a, b, order) < 0
  }

  /** Where l stands in a response in order: an integer that orders as StreamCompare does. */
  function Position(l: Location, order: GroupOrder): (p: int) {
    (if order.Descending? then MAX_U64 - l.group else l.group) * TWO64 + l.obj
  }

  /** StreamCompare is a total order, and Position represents it. */
  lemma {:induction false} PositionOrders(a: Location, b: Location, order: GroupOrder)
    ensures Before(a, b, order) <==> Position(a, order) < Position(b, order)
    ensures Position(a, order) == Position(b, order) <==> a == b
    ensures StreamCompare(a, b, order) == 0 <==> a == b
    ensures StreamCompare(a, b, order) == -StreamCompare(b, a, order)
    ensures Compare(a, b) == StreamCompare(a, b, Ascending)
  {
  }

  predicate ValidRange(r: LocRange) {
    !Less(r.hi, r.lo)
  }

  predicate InRange(l: Location, r: LocRange) {
    !Less(l, r.lo) && !Less(r.hi, l)
  }

  ghost predicate InAny(l: Location, rs: seq<LocRange>) {
    exists i :: 0 <= i < |rs| && InRange(l, rs[i])
  }

  predicate AllValid(rs: seq<LocRange>) {
    forall i :: 0 <= i < |rs| ==> ValidRange(rs[i])
  }

  lemma {:induction false} InAnyConcat(l: Location, a: seq<LocRange>, b: seq<LocRange>)
    ensures InAny(l, a + b) <==> InAny(l, a) || InAny(l, b)
  {
    if InAny(l, a) {
      var i :| 0 <= i < |a| && InRange(l, a[i]);
      assert (a + b)[i] == a[i];
    }
    if InAny(l, b) {
      var i :| 0 <= i < |b| && InRange(l, b[i]);
      assert (a + b)[|a| + i] == b[i];
    }
  }

  /** The Location right after l, if any. */
  function Successor(l: Location): Option<Location> {
    if l.obj < MAX_U64 then Some(Location(l.group, l.obj + 1))
    else if l.group < MAX_U64 then Some(Location(l.group + 1, 0))
    else None
  }

  /** The Location right before l, if any. */
  function Predecessor(l: Location): Option<Location> {
    if l.obj > 0 then Some(Location(l.group, l.obj - 1))
    else if l.group > 0 then Some(Location(l.group - 1, MAX_U64))
    else None
  }

  /** Nothing lies between l and its successor, and only the last Location has none. */
  lemma {:induction false} SuccessorIsNext(l: Location)
    ensures Successor(l).None? <==> forall m :: !Less(l, m)
    ensures Successor(l).Some? ==>
              && Predecessor(Successor(l).value) == Some(l)
              && (forall m :: Less(l, m) <==> !Less(m, Successor(l).value))
  {
    if Successor(l).Some? {
      assert Less(l, Successor(l).value);
    }
  }

  /** Predecessor inverts Successor, and only the first Location has none. */
  lemma {:induction false} PredecessorIsPrevious(l: Location)
    ensures Predecessor(l).None? <==> forall m :: !Less(m, l)
    ensures Predecessor(l).Some? ==>
              && Successor(Predecessor(l).value) == Some(l)
              && (forall m :: Less(m, l) <==> !Less(Predecessor(l).value, m))
  {
    if Predecessor(l).Some? {
      assert Less(Predecessor(l).value, l);
    }
  }
}
