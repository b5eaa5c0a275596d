/**
 What a FETCH response says about each Location (sections 3.2.2 and 11.4.1.2 of
 draft-ietf-moq-transport-22): an Object is present, an End of Range marker speaks for every
 Location since the previous element, and a plain gap says its Locations do not exist.
 */
module FetchMeaning {
  import opened Uint64
  import opened Locations

  datatype Kind = ObjectElem | UnknownEnd | TimedOutEnd | NonExistentEnd

  datatype Elem = Elem(at: Location, kind: Kind)

  datatype Status = Present | Absent | Unknown | TimedOut

  ghost predicate InStreamOrder(es: seq<Elem>, order: GroupOrder) {
    forall i, j :: 0 <= i < j < |es| ==> Before(es[i].at, es[j].at, order)
  }

  /** What e says about l, a Location after the element before e and not after e. */
  function Verdict(e: Elem, l: Location): Status {
    match e.kind
    case ObjectElem => if e.at == l then Present else Absent
    case UnknownEnd => Unknown
    case TimedOutEnd => TimedOut
    case NonExistentEnd => Absent
  }

  /** The status a response es, ended by a FIN, gives l. */
  function Meaning(es: seq<Elem>, l: Location, order: GroupOrder): Status {
    if es == [] then Absent
    else if Before(es[0].at, l, order) then Meaning(es[1..], l, order)
    else Verdict(es[0], l)
  }

  /** The first element at or after l decides. */
  lemma {:induction false} FirstDecides(es: seq<Elem>, i: nat, l: Location, order: GroupOrder)
    requires i <= |es|
    requires forall j :: 0 <= j < i ==> Before(es[j].at, l, order)
    requires i < |es| ==> !Before(es[i].at, l, order)
    ensures Meaning(es, l, order) == if i < |es| then Verdict(es[i], l) else Absent
  {
    if i > 0 {
      FirstDecides(es[1..], i - 1, l, order);
    }
  }

  /** The index of the first element at or after l, |es| if there is none. */
  ghost function FirstFrom(es: seq<Elem>, l: Location, order: GroupOrder): (i: nat)
    ensures i <= |es|
    ensures forall j :: 0 <= j < i ==> Before(es[j].at, l, order)
    ensures i < |es| ==> !Before(es[i].at, l, order)
    ensures Meaning(es, l, order) == if i < |es| then Verdict(es[i], l) else Absent
  {
    if es == [] || !Before(es[0].at, l, order) then 0 else 1 + FirstFrom(es[1..], l, order)
  }

  /** In an ordered response l is present exactly when an Object element is at l. */
  lemma {:induction false} PresentIffElement(es: seq<Elem>, l: Location, order: GroupOrder)
    requires InStreamOrder(es, order)
    ensures Meaning(es, l, order) == Present <==> Elem(l, ObjectElem) in es
  {
    var i := FirstFrom(es, l, order);
    if Elem(l, ObjectElem) in es {
      var k :| 0 <= k < |es| && es[k] == Elem(l, ObjectElem);
      PositionOrders(l, l, order);
      assert i == k;
    }
  }
}
