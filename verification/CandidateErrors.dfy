/** Which of several upstreams' errors a subscriber is answered with: the same whatever order they come in. */
module CandidateErrors {
  import opened Uint64

  const INTERNAL_ERROR: u64 := 0x0
  const TIMEOUT: u64 := 0x2
  const GOING_AWAY: u64 := 0x6
  const EXCESSIVE_LOAD: u64 := 0x9
  const DOES_NOT_EXIST: u64 := 0x10
  const UNSUPPORTED_EXTENSION: u64 := 0x33

  const RETRY_AFTER: u64 := 1000
  const MAX_RETRY: u64 := 1500

  /** A candidate's error; NoError stands for no candidate at all. */
  datatype Error =
    | NoError
    | UnknownMandatoryProperty
    | MalformedProperties
    | Draining
    | NoStreamCredit
    | Rejected(code: u64, retry: u64)
    | Transport

  datatype Answer = Answer(code: u64, retry: u64)

  predicate IsTrackProperties(e: Error) {
    e.UnknownMandatoryProperty? || e.MalformedProperties?
  }

  predicate TransportFailure(e: Error) {
    !(e.Draining? || IsTrackProperties(e) || e.NoStreamCredit?) && !e.Rejected?
  }

  /** After e a subscriber may still hope for a publisher. */
  predicate AwaitsPublisher(e: Error) {
    || e.NoError? || e.Draining? || TransportFailure(e)
    || (e.Rejected? && (e.code == DOES_NOT_EXIST || e.code == TIMEOUT || e.code == GOING_AWAY))
  }

  function Rank(e: Error): nat {
    if e.NoError? then 0
    else if e.UnknownMandatoryProperty? then 6
    else if IsTrackProperties(e) then 5
    else if !AwaitsPublisher(e) then 4
    else if e.Draining? then 3
    else if e.Rejected? && e.code == GOING_AWAY then 3
    else if e.Rejected? && e.code == TIMEOUT then 2
    else 1
  }

  function Retry(e: Error): u64 {
    if e.Draining? || e.NoStreamCredit? then MAX_RETRY
    else if !e.Rejected? then 0
    else if e.code == GOING_AWAY && e.retry == 0 then MAX_RETRY
    else e.retry
  }

  /** The REQUEST_ERROR a subscriber gets, jitter added to the relay's own Retry Intervals. */
  function UpstreamRejection(e: Error, jitter: u64): Answer
    requires jitter < RETRY_AFTER / 2
  {
    var ours := RETRY_AFTER + jitter + 1;
    match e
    case UnknownMandatoryProperty => Answer(UNSUPPORTED_EXTENSION, 0)
    case MalformedProperties => Answer(INTERNAL_ERROR, 0)
    case Draining => Answer(GOING_AWAY, ours)
    case NoStreamCredit => Answer(EXCESSIVE_LOAD, ours)
    case NoError => Answer(DOES_NOT_EXIST, 0)
    case Transport => Answer(DOES_NOT_EXIST, 0)
    case Rejected(code, retry) =>
      if code in {DOES_NOT_EXIST, TIMEOUT, EXCESSIVE_LOAD, UNSUPPORTED_EXTENSION, GOING_AWAY} then
        Answer(code, if code == GOING_AWAY && retry == 0 then ours else retry)
      else Answer(INTERNAL_ERROR, retry)
  }

  function Code(e: Error): u64 {
    UpstreamRejection(e, 0).code
  }

  function Prefer(last: Error, e: Error): Error {
    if Rank(e) != Rank(last) then if Rank(e) > Rank(last) then e else last
    else if Retry(e) != Retry(last) then
      if Retry(e) != 0 && (Retry(last) == 0 || Retry(e) < Retry(last)) then e else last
    else if Code(e) != Code(last)
            && (Code(last) == INTERNAL_ERROR || (Code(e) != INTERNAL_ERROR && Code(e) < Code(last))) then e
    else last
  }

  function Chosen(es: seq<Error>): Error {
    if es == [] then NoError else Prefer(Chosen(es[..|es| - 1]), es[|es| - 1])
  }

  method Choose(es: seq<Error>) returns (last: Error)
    ensures last == Chosen(es)
  {
    last := NoError;
    var i := 0;
    while i < |es|
      invariant 0 <= i <= |es| && last == Chosen(es[..i])
    {
      assert es[..i + 1][..i] == es[..i];
      last := Prefer(last, es[i]);
      i := i + 1;
    }
    assert es[..i] == es;
  }

  // ---------------------------------------------------------------------------
  // What makes the choice independent of order
  // ---------------------------------------------------------------------------

  /** One number per key, higher for the error preferred: a Retry Interval or code of 0 is the worst. */
  function Descending(x: u64): int {
    if x == 0 then 0 - TWO64 else 0 - x
  }

  /** e is at least as good an answer as f: by rank, then by how soon it allows a retry, then by code. */
  predicate AtLeast(e: Error, f: Error) {
    || Rank(e) > Rank(f)
    || (Rank(e) == Rank(f) && Descending(Retry(e)) > Descending(Retry(f)))
    || (Rank(e) == Rank(f) && Retry(e) == Retry(f) && Descending(Code(e)) >= Descending(Code(f)))
  }

  /** Two errors answered alike. */
  predicate SameKey(e: Error, f: Error) {
    Rank(e) == Rank(f) && Retry(e) == Retry(f) && Code(e) == Code(f)
  }

  lemma {:induction false} PreferIsMax(last: Error, e: Error)
    ensures var r := Prefer(last, e); (r == last || r == e) && AtLeast(r, last) && AtLeast(r, e)
  {
    hide Rank, Retry, Code;
  }

  lemma {:induction false} AtLeastTransitive(a: Error, b: Error, c: Error)
    requires AtLeast(a, b) && AtLeast(b, c)
    ensures AtLeast(a, c)
  {
    hide Rank, Retry, Code;
  }

  lemma {:induction false} AtLeastBothWays(a: Error, b: Error)
    requires AtLeast(a, b) && AtLeast(b, a)
    ensures SameKey(a, b)
  {
    hide Rank, Retry, Code;
  }

  /** The error chosen is one of them, and as good an answer as any. */
  lemma {:induction false} ChosenIsBest(es: seq<Error>, e: Error)
    ensures Chosen(es) == NoError || Chosen(es) in es
    ensures e in es ==> AtLeast(Chosen(es), e)
    ensures AtLeast(Chosen(es), NoError)
    decreases |es|
  {
    if es == [] {
    } else {
      hide AtLeast, Prefer;
      var n := |es| - 1;
      ChosenIsBest(es[..n], e);
      PreferIsMax(Chosen(es[..n]), es[n]);
      assert es == es[..n] + [es[n]];
      AtLeastTransitive(Chosen(es), Chosen(es[..n]), NoError);
      if e in es[..n] {
        AtLeastTransitive(Chosen(es), Chosen(es[..n]), e);
      }
    }
  }

  lemma {:induction false} ChosenDominates(a: seq<Error>, b: seq<Error>)
    requires forall e :: e in b ==> e in a
    ensures AtLeast(Chosen(a), Chosen(b))
  {
    hide AtLeast;
    ChosenIsBest(b, NoError);
    ChosenIsBest(a, Chosen(b));
  }

  /** The same errors in any order, however often repeated, are answered alike. */
  lemma {:induction false} OrderIndependent(a: seq<Error>, b: seq<Error>)
    requires forall e :: e in a <==> e in b
    ensures SameKey(Chosen(a), Chosen(b))
  {
    ChosenDominates(a, b);
    ChosenDominates(b, a);
    AtLeastBothWays(Chosen(a), Chosen(b));
  }

  /** The choice awaits a publisher exactly if every error does. */
  lemma {:induction false} AwaitsIffAllDo(es: seq<Error>)
    ensures AwaitsPublisher(Chosen(es)) <==> forall e :: e in es ==> AwaitsPublisher(e)
  {
    forall e: Error
      ensures AwaitsPublisher(e) <==> Rank(e) <= 3
    {
    }
    forall e | e in es
      ensures Rank(Chosen(es)) >= Rank(e)
    {
      ChosenIsBest(es, e);
    }
    ChosenIsBest(es, NoError);
  }

  /** Only refusals of the fourth rank can be alike in rank and retry and differ in code. */
  lemma {:induction false} CodeDiffersOnlyInRankFour(e: Error, f: Error)
    requires Rank(e) == Rank(f) && Rank(e) != 4
    ensures Code(e) == Code(f)
  {
  }

  /** Whatever the jitter, the answer has the code chosen for, and allows a retry no later than promised. */
  lemma {:induction false} AnswerKeepsPromise(e: Error, jitter: u64)
    requires jitter < RETRY_AFTER / 2
    ensures UpstreamRejection(e, jitter).code == Code(e)
    ensures UpstreamRejection(e, jitter).retry <= Retry(e)
    ensures UpstreamRejection(e, jitter).retry == 0 <==> Retry(e) == 0
    ensures e.Rejected? && e.retry > 0 ==> UpstreamRejection(e, jitter).retry == e.retry
  {
  }

  // ---------------------------------------------------------------------------
  // What the subscriber is told
  // ---------------------------------------------------------------------------

  predicate Says(e: Error, code: u64) {
    e.Rejected? && e.code == code
  }

  /** A publisher that is there but does not serve the track: not missing, not late, not leaving. */
  predicate Refuses(e: Error) {
    e.NoStreamCredit? || (e.Rejected? && !Says(e, 0x10) && !Says(e, 0x2) && !Says(e, 0x6))
  }

  predicate Leaves(e: Error) {
    e.Draining? || Says(e, 0x6)
  }

  /** The code and the class of error the subscriber is answered for. */
  ghost predicate AnswersFor(es: seq<Error>, code: u64, e: Error) {
    if UnknownMandatoryProperty in es then code == 0x33 && e.UnknownMandatoryProperty?
    else if MalformedProperties in es then code == 0x0 && e.MalformedProperties?
    else if exists x :: x in es && Refuses(x) then
      Refuses(e) && code == if e.NoStreamCredit? || Says(e, 0x9) then 0x9 else if Says(e, 0x33) then 0x33 else 0x0
    else if exists x :: x in es && Leaves(x) then code == 0x6 && Leaves(e)
    else if exists x :: x in es && Says(x, 0x2) then code == 0x2 && Says(e, 0x2)
    else code == 0x10 && (e.NoError? || e.Transport? || Says(e, 0x10))
  }

  lemma {:induction false} RankIs(e: Error)
    ensures Rank(e) == 6 <==> e.UnknownMandatoryProperty?
    ensures Rank(e) == 5 <==> e.MalformedProperties?
    ensures Rank(e) == 4 <==> Refuses(e)
    ensures Rank(e) == 3 <==> Leaves(e)
    ensures Rank(e) == 2 <==> Says(e, 0x2)
    ensures Rank(e) == 1 <==> e.Transport? || Says(e, 0x10)
    ensures Rank(e) <= 6
  {
  }

  /**
   Whatever came in, the subscriber is told of an unknown Mandatory Property before all else, then of Properties
   that do not parse, then of a refusal, a publisher leaving, one that timed out, and of none only if there is
   nothing else to say.
   */
  lemma {:induction false} AnswerExact(es: seq<Error>, jitter: u64)
    requires jitter < RETRY_AFTER / 2
    ensures AnswersFor(es, UpstreamRejection(Chosen(es), jitter).code, Chosen(es))
  {
    var c := Chosen(es);
    ChosenIsBest(es, c);
    forall e
      ensures e in es ==> Rank(e) <= Rank(c)
    {
      ChosenIsBest(es, e);
    }
    hide Rank, Chosen, AtLeast;
    RankIs(c);
    forall e
      ensures (Rank(e) == 4 <==> Refuses(e)) && (Rank(e) == 3 <==> Leaves(e)) && (Rank(e) == 2 <==> Says(e, 0x2))
    {
      RankIs(e);
    }
    RankIs(UnknownMandatoryProperty);
    RankIs(MalformedProperties);
  }

  /** The Retry Interval e itself calls for, in milliseconds, at the most; 0: not to retry. */
  predicate CallsFor(e: Error, retry: u64) {
    match e
    case Draining => retry == 1500
    case NoStreamCredit => retry == 1500
    case Rejected(code, r) => retry == if code == 0x6 && r == 0 then 1500 else r
    case _ => retry == 0
  }

  lemma {:induction false} RetryIs(e: Error)
    ensures CallsFor(e, Retry(e))
  {
  }

  /** The answer allows a retry if any error of the class answered for does, and no later than any of them. */
  lemma {:induction false} SoonestRetry(es: seq<Error>, jitter: u64, e: Error, retry: u64)
    requires jitter < RETRY_AFTER / 2 && e in es && CallsFor(e, retry) && retry > 0
    requires Rank(e) == Rank(Chosen(es))
    ensures 0 < UpstreamRejection(Chosen(es), jitter).retry <= retry
  {
    ChosenIsBest(es, e);
    RetryIs(e);
    hide Rank, Chosen;
    AnswerKeepsPromise(Chosen(es), jitter);
  }

  /** The relay's own intervals are spread over a second to a second and a half, both ends possible. */
  lemma {:induction false} OwnRetry(e: Error, jitter: u64)
    requires jitter < 500 && (e.Draining? || e.NoStreamCredit? || e == Rejected(0x6, 0))
    ensures UpstreamRejection(e, jitter).retry == 1001 + jitter
  {
  }
}
