/**
 Bucketed durations. A value of five bits or more is kept as its top five bits and a shift; the module shows
 what that costs a quantile, against the samples themselves, and that two histograms add up.
 */
module Histogram {
  import opened Uint64

  const SUB_BITS := 4
  const SUB_BUCKETS := 16
  const MAX_MICROS_BITS := 31
  const MAX_MICROS := 0x7FFF_FFFF
  const NUM_BUCKETS := (MAX_MICROS_BITS - SUB_BITS + 1) * SUB_BUCKETS + SUB_BUCKETS

  /** The bucket the largest value that is bucketed, and every larger one, lands in. */
  const LAST_BUCKET := 447

  /** x shifted left, and right, by s bits. */
  function Shl(x: nat, s: nat): nat
    decreases s
  {
    if s == 0 then x else 2 * Shl(x, s - 1)
  }

  function Shr(x: nat, s: nat): nat
    decreases s
  {
    if s == 0 then x else Shr(x / 2, s - 1)
  }

  /** The number of bits of x. */
  function BitLen(x: nat): nat {
    if x == 0 then 0 else BitLen(x / 2) + 1
  }

  function Capped(us: nat): nat {
    if us < MAX_MICROS then us else MAX_MICROS
  }

  function ShiftOf(us: nat): nat
    requires us >= SUB_BUCKETS
  {
    LongEnough(us);
    BitLen(us) - 1 - SUB_BITS
  }

  lemma {:induction false} LongEnough(us: nat)
    requires us >= SUB_BUCKETS
    ensures BitLen(us) >= 5
  {
    assert us / 2 >= 8 && us / 2 / 2 >= 4 && us / 2 / 2 / 2 >= 2 && us / 2 / 2 / 2 / 2 >= 1;
    assert BitLen(us / 2 / 2 / 2 / 2) >= 1;
    assert BitLen(us / 2 / 2) >= 3;
  }

  function BucketOf(us: nat): nat {
    if us < SUB_BUCKETS then us
    else
      var v := Capped(us);
      var s := ShiftOf(v);
      s * SUB_BUCKETS + Shr(v, s)
  }

  function BucketUpper(i: nat): int {
    if i < SUB_BUCKETS then i
    else Shl(i % SUB_BUCKETS + SUB_BUCKETS + 1, i / SUB_BUCKETS - 1) - 1
  }

  // ---------------------------------------------------------------------------
  // Shifts
  // ---------------------------------------------------------------------------

  lemma {:induction false} ShlAdd(x: nat, y: nat, s: nat)
    ensures Shl(x + y, s) == Shl(x, s) + Shl(y, s)
    decreases s
  {
    if s > 0 {
      ShlAdd(x, y, s - 1);
    }
  }

  lemma {:induction false} ShlMonotone(x: nat, y: nat, s: nat)
    requires x <= y
    ensures Shl(x, s) <= Shl(y, s)
    decreases s
  {
    if s > 0 {
      ShlMonotone(x, y, s - 1);
    }
  }

  lemma {:induction false} ShlFurther(x: nat, s: nat, t: nat)
    requires s <= t
    ensures Shl(x, s) <= Shl(x, t)
    decreases t
  {
    if s < t {
      ShlFurther(x, s, t - 1);
    }
  }

  lemma {:induction false} ShlTwice(x: nat, s: nat, t: nat)
    ensures Shl(Shl(x, s), t) == Shl(x, s + t)
    decreases t
  {
    if t > 0 {
      ShlTwice(x, s, t - 1);
    }
  }

  /** Shifting right and back is the step of 2^s that x lies within. */
  lemma {:induction false} ShrBounds(x: nat, s: nat)
    ensures Shl(Shr(x, s), s) <= x < Shl(Shr(x, s) + 1, s)
    decreases s
  {
    if s > 0 {
      ShrBounds(x / 2, s - 1);
    }
  }

  lemma {:induction false} ShrWithin(x: nat, s: nat, lo: nat, hi: nat)
    requires Shl(lo, s) <= x < Shl(hi, s)
    ensures lo <= Shr(x, s) < hi
  {
    ShrBounds(x, s);
    var m := Shr(x, s);
    if m < lo {
      ShlMonotone(m + 1, lo, s);
    }
    if m >= hi {
      ShlMonotone(hi, m, s);
    }
  }

  lemma {:induction false} ShrMonotone(x: nat, y: nat, s: nat)
    requires x <= y
    ensures Shr(x, s) <= Shr(y, s)
    decreases s
  {
    if s > 0 {
      ShrMonotone(x / 2, y / 2, s - 1);
    }
  }

  lemma {:induction false} BitLenBounds(x: nat)
    requires x > 0
    ensures BitLen(x) > 0 && Shl(1, BitLen(x) - 1) <= x < Shl(1, BitLen(x))
    decreases x
  {
    if x > 1 {
      BitLenBounds(x / 2);
    } else {
      assert BitLen(0) == 0 && Shl(1, 0) == 1 && Shl(1, 1) == 2;
    }
  }

  /** The shift of a value is the one that brings it to 16..31. */
  lemma {:induction false} ShiftIs(us: nat, s: nat)
    requires us >= SUB_BUCKETS && Shl(16, s) <= us < Shl(32, s)
    ensures ShiftOf(us) == s
  {
    ShiftBounds(us);
    var t := ShiftOf(us);
    assert Shl(32, 0) == 32 && Shl(16, 1) == 32;
    if t < s {
      ShlTwice(16, 1, t);
      ShlFurther(16, t + 1, s);
    }
    if t > s {
      ShlTwice(16, 1, s);
      ShlFurther(16, s + 1, t);
    }
  }

  lemma {:induction false} ShiftBounds(us: nat)
    requires us >= SUB_BUCKETS
    ensures Shl(16, ShiftOf(us)) <= us < Shl(32, ShiftOf(us))
  {
    BitLenBounds(us);
    var s := ShiftOf(us);
    ShlTwice(1, 4, s);
    ShlTwice(1, 5, s);
    assert Shl(1, 2) == 4 && Shl(1, 4) == 16 && Shl(1, 5) == 32;
  }

  lemma {:induction false} ShlFour(x: nat)
    ensures Shl(x, 4) == 16 * x && Shl(x, 2) == 4 * x
  {
    assert Shl(x, 1) == 2 * x;
    assert Shl(x, 3) == 8 * x;
  }

  lemma {:induction false} ShlEight(x: nat)
    ensures Shl(x, 8) == 256 * x
  {
    ShlFour(x);
    ShlFour(16 * x);
    hide Shl;
    ShlTwice(x, 4, 4);
  }

  lemma {:induction false} Shl26(x: nat)
    ensures Shl(x, 26) == 0x400_0000 * x
  {
    hide Shl;
    ShlEight(x);
    ShlEight(256 * x);
    ShlEight(256 * (256 * x));
    ShlTwice(x, 8, 8);
    ShlTwice(x, 16, 8);
    ShlFour(256 * (256 * (256 * x)));
    ShlTwice(x, 24, 2);
  }

  lemma {:induction false} Shift26()
    ensures Shl(32, 26) == 0x8000_0000 && Shl(31, 26) == 0x7C00_0000
  {
    hide Shl;
    Shl26(32);
    Shl26(31);
  }

  // ---------------------------------------------------------------------------
  // Buckets
  // ---------------------------------------------------------------------------

  /** A value of at least 16 is a mantissa of 16..31 and a remainder, shifted. */
  lemma {:induction false} Mantissa(us: nat)
    requires SUB_BUCKETS <= us <= MAX_MICROS
    ensures var s := ShiftOf(us); var m := Shr(us, s);
      && s <= 26 && 16 <= m <= 31
      && Shl(m, s) <= us < Shl(m + 1, s)
      && BucketOf(us) == s * 16 + m && BucketOf(us) / 16 - 1 == s && BucketOf(us) % 16 == m - 16
  {
    hide Shl, Shr;
    var s := ShiftOf(us);
    ShiftBounds(us);
    ShrWithin(us, s, 16, 32);
    ShrBounds(us, s);
    if s > 26 {
      Shift26();
      ShlTwice(16, 1, 26);
      ShlFurther(16, 27, s);
      assert Shl(16, 1) == 32 by {
        ShlOne(16);
      }
    }
  }

  lemma {:induction false} ShlOne(x: nat)
    ensures Shl(x, 1) == 2 * x
  {
    assert Shl(x, 0) == x;
  }

  /** Every value has a bucket within bounds, and the largest ones share the last. */
  lemma {:induction false} InBounds(us: nat)
    ensures BucketOf(us) <= LAST_BUCKET == 447 && NUM_BUCKETS == 464
    ensures us >= MAX_MICROS ==> BucketOf(us) == LAST_BUCKET
  {
    if us >= SUB_BUCKETS {
      hide Shl, Shr, ShiftOf;
      Mantissa(Capped(us));
      assert BucketOf(us) == BucketOf(Capped(us));
      if us >= MAX_MICROS {
        Shift26();
        ShlMonotone(16, 31, 26);
        ShiftIs(MAX_MICROS, 26);
        ShrWithin(MAX_MICROS, 26, 31, 32);
      }
    }
  }

  /** The upper bound of a value's bucket is not below it, and above it by at most a sixteenth. */
  lemma {:induction false} UpperBound(us: nat)
    requires us <= MAX_MICROS
    ensures us <= BucketUpper(BucketOf(us))
    ensures 16 * (BucketUpper(BucketOf(us)) - us) <= us
  {
    if us >= SUB_BUCKETS {
      hide Shl, Shr, ShiftOf;
      Mantissa(us);
      var s := ShiftOf(us);
      var m := Shr(us, s);
      assert BucketUpper(BucketOf(us)) == Shl(m + 1, s) - 1;
      hide BucketOf, BucketUpper;
      Slack(us, m, s);
    }
  }

  lemma {:induction false} Slack(us: nat, m: nat, s: nat)
    requires 16 <= m && Shl(m, s) <= us < Shl(m + 1, s)
    ensures 16 * (Shl(m + 1, s) - 1 - us) <= us
  {
    hide Shl;
    ShlAdd(m, 1, s);
    ShlMonotone(16, m, s);
    Sixteenfold(s);
  }

  lemma {:induction false} Sixteenfold(s: nat)
    ensures Shl(16, s) == 16 * Shl(1, s)
    decreases s
  {
    if s > 0 {
      Sixteenfold(s - 1);
    }
  }

  /** A larger value has no lower bucket. */
  lemma {:induction false} Monotone(a: nat, b: nat)
    requires a <= b
    ensures BucketOf(a) <= BucketOf(b)
  {
    if b >= SUB_BUCKETS {
      hide Shl, Shr, ShiftOf;
      var y := Capped(b);
      Mantissa(y);
      assert BucketOf(b) == BucketOf(y);
      if a >= SUB_BUCKETS {
        var x := Capped(a);
        Mantissa(x);
        assert BucketOf(a) == BucketOf(x);
        ShiftMonotone(x, y);
        if ShiftOf(x) == ShiftOf(y) {
          ShrMonotone(x, y, ShiftOf(x));
        }
      }
    }
  }

  lemma {:induction false} ShiftMonotone(x: nat, y: nat)
    requires SUB_BUCKETS <= x <= y
    ensures ShiftOf(x) <= ShiftOf(y)
  {
    hide ShiftOf;
    ShiftBounds(x);
    ShiftBounds(y);
    var s, t := ShiftOf(x), ShiftOf(y);
    if t < s {
      ShlTwice(16, 1, t);
      ShlOne(16);
      ShlFurther(16, t + 1, s);
    }
  }

  /** BucketUpper is the largest value of its bucket. */
  lemma {:induction false} UpperIsLargest(i: nat, us: nat)
    requires i <= LAST_BUCKET
    ensures 0 <= BucketUpper(i) <= MAX_MICROS && BucketOf(BucketUpper(i)) == i
    ensures us <= MAX_MICROS && BucketOf(us) == i ==> us <= BucketUpper(i)
  {
    if us <= MAX_MICROS && BucketOf(us) == i {
      UpperBound(us);
    }
    if i >= SUB_BUCKETS {
      UpperOfBucket(i);
    }
  }

  lemma {:induction false} UpperOfBucket(i: nat)
    requires SUB_BUCKETS <= i <= LAST_BUCKET
    ensures 0 <= BucketUpper(i) <= MAX_MICROS && BucketOf(BucketUpper(i)) == i
  {
    hide Shl, Shr, ShiftOf;
    var s, m := i / 16 - 1, i % 16 + 16;
    var us := BucketUpper(i);
    ShlAdd(m, 1, s);
    ShlFurther(1, 0, s);
    ShlZero(1);
    ShlMonotone(16, m, s);
    ShlMonotone(m + 1, 32, s);
    ShlFurther(32, s, 26);
    Shift26();
    ShlFurther(16, 0, s);
    ShlZero(16);
    ShiftIs(us, s);
    ShrWithin(us, s, m, m + 1);
  }

  lemma {:induction false} ShlZero(x: nat)
    ensures Shl(x, 0) == x
  {
  }

  // ---------------------------------------------------------------------------
  // Samples
  // ---------------------------------------------------------------------------

  /** A duration, in nanoseconds, as whole microseconds; a negative one counts as none. */
  function Micros(d: int): nat {
    if d < 0 then 0 else d / 1000
  }

  function Count(s: seq<int>, p: int -> bool): nat {
    if s == [] then 0 else Count(s[..|s| - 1], p) + (if p(s[|s| - 1]) then 1 else 0)
  }

  /** How many of s land in bucket i, and in a bucket below i. */
  function InBucket(s: seq<int>, i: int): nat {
    Count(s, d => BucketOf(Micros(d)) == i)
  }

  function Below(s: seq<int>, i: int): nat {
    Count(s, d => BucketOf(Micros(d)) < i)
  }

  function Largest(s: seq<int>): int {
    if s == [] then 0 else Max(Largest(s[..|s| - 1]), s[|s| - 1])
  }

  lemma {:induction false} CountConcat(a: seq<int>, b: seq<int>, p: int -> bool)
    ensures Count(a + b, p) == Count(a, p) + Count(b, p)
    decreases |b|
  {
    if b == [] {
      assert a + b == a;
    } else {
      var n := |b| - 1;
      CountConcat(a, b[..n], p);
      assert (a + b)[..|a| + n] == a + b[..n] && (a + b)[|a| + n] == b[n];
    }
  }

  lemma {:induction false} CountWeaker(s: seq<int>, p: int -> bool, q: int -> bool)
    requires forall d :: p(d) ==> q(d)
    ensures Count(s, p) <= Count(s, q) <= |s|
    decreases |s|
  {
    if s != [] {
      CountWeaker(s[..|s| - 1], p, q);
    }
  }

  lemma {:induction false} CountSplit(s: seq<int>, i: int)
    ensures Below(s, i + 1) == Below(s, i) + InBucket(s, i)
    decreases |s|
  {
    hide BucketOf;
    if s != [] {
      CountSplit(s[..|s| - 1], i);
    }
  }

  lemma {:induction false} BelowEnds(s: seq<int>)
    ensures Below(s, 0) == 0 && Below(s, LAST_BUCKET + 1) == |s|
    decreases |s|
  {
    if s != [] {
      BelowEnds(s[..|s| - 1]);
      InBounds(Micros(s[|s| - 1]));
      hide BucketOf;
    }
  }

  lemma {:induction false} LargestConcat(a: seq<int>, b: seq<int>)
    ensures Largest(a + b) == Max(Largest(a), Largest(b))
    decreases |b|
  {
    if b == [] {
      assert a + b == a;
      LargestIsLargest(a, 0);
    } else {
      var n := |b| - 1;
      LargestConcat(a, b[..n]);
      assert (a + b)[..|a| + n] == a + b[..n] && (a + b)[|a| + n] == b[n];
    }
  }

  lemma {:induction false} LargestIsLargest(s: seq<int>, d: int)
    ensures Largest(s) >= 0 && (d in s ==> d <= Largest(s))
    decreases |s|
  {
    if s != [] {
      var n := |s| - 1;
      LargestIsLargest(s[..n], d);
      assert s == s[..n] + [s[n]];
    }
  }

  // ---------------------------------------------------------------------------
  // Quantiles
  // ---------------------------------------------------------------------------

  /** i is the bucket of the rank-th smallest sample. */
  ghost predicate BucketOfRank(s: seq<int>, rank: nat, i: nat) {
    Below(s, i) < rank <= Below(s, i + 1)
  }

  /** What is reported for a rank in bucket i, in nanoseconds. */
  function Reported(i: nat, largest: int): int {
    if BucketUpper(i) >= MAX_MICROS then largest else Min(BucketUpper(i) * 1000, largest)
  }

  /** r is not below d's whole microseconds, and above them by at most a sixteenth, or else the largest sample. */
  predicate Approximates(r: int, d: int, largest: int) {
    && Micros(d) * 1000 <= r <= largest
    && (if Micros(d) < 0x7C00_0000 then 16 * (r - Micros(d) * 1000) <= Micros(d) * 1000 else r == largest)
  }

  /** The last bucket starts at 31 * 2^26 microseconds. */
  lemma {:induction false} LastStarts(us: nat)
    ensures BucketOf(us) < LAST_BUCKET <==> us < 0x7C00_0000
  {
    hide Shl, Shr, ShiftOf;
    Shift26();
    if us >= 0x7C00_0000 {
      ShlMonotone(16, 31, 26);
      ShiftIs(0x7C00_0000, 26);
      ShrWithin(0x7C00_0000, 26, 31, 32);
      Monotone(0x7C00_0000, us);
      assert BucketOf(0x7C00_0000) == LAST_BUCKET;
    } else if us >= SUB_BUCKETS {
      Mantissa(us);
    }
  }

  /** d is the rank-th smallest sample, counting whole microseconds. */
  ghost predicate IsRank(s: seq<int>, rank: nat, d: int) {
    && d in s
    && Count(s, x => Micros(x) < Micros(d)) < rank <= Count(s, x => Micros(x) <= Micros(d))
  }

  /** The bucket found for a rank is the bucket of the sample of that rank. */
  lemma {:induction false} RankHasBucket(s: seq<int>, rank: nat, i: nat, d: int)
    requires BucketOfRank(s, rank, i) && IsRank(s, rank, d)
    ensures BucketOf(Micros(d)) == i
  {
    var b := BucketOf(Micros(d));
    if b < i {
      forall x | Micros(x) <= Micros(d)
        ensures BucketOf(Micros(x)) < i
      {
        Monotone(Micros(x), Micros(d));
      }
      CountWeaker(s, x => Micros(x) <= Micros(d), x => BucketOf(Micros(x)) < i);
    } else if b > i {
      forall x | BucketOf(Micros(x)) < i + 1
        ensures Micros(x) < Micros(d)
      {
        if Micros(x) >= Micros(d) {
          Monotone(Micros(d), Micros(x));
        }
      }
      CountWeaker(s, x => BucketOf(Micros(x)) < i + 1, x => Micros(x) < Micros(d));
    }
  }

  /**
   Outside the last bucket the value reported for a rank is not below that sample's whole microseconds,
   and above them by at most a sixteenth; in the last bucket it is the largest sample.
   */
  lemma {:induction false} ErrorBound(s: seq<int>, rank: nat, i: nat, d: int)
    requires BucketOfRank(s, rank, i) && IsRank(s, rank, d)
    ensures Approximates(Reported(i, Largest(s)), d, Largest(s))
  {
    hide BucketOf, BucketUpper, IsRank, BucketOfRank;
    RankHasBucket(s, rank, i, d);
    InBounds(Micros(d));
    LastStarts(Micros(d));
    UpperOfLast(i);
    assert d in s by {
      InSamples(s, rank, d);
    }
    LargestIsLargest(s, d);
    if i < LAST_BUCKET {
      UpperBound(Micros(d));
    }
  }

  lemma {:induction false} InSamples(s: seq<int>, rank: nat, d: int)
    requires IsRank(s, rank, d)
    ensures d in s
  {
  }

  /** Only the last bucket's upper bound is the largest value bucketed. */
  lemma {:induction false} UpperOfLast(i: nat)
    requires i <= LAST_BUCKET
    ensures BucketUpper(i) >= MAX_MICROS <==> i == LAST_BUCKET
  {
    UpperIsLargest(i, MAX_MICROS);
    InBounds(MAX_MICROS);
    hide BucketOf, BucketUpper;
  }

  /** At or below v, and so below it or at it. */
  lemma {:induction false} CountUpTo(s: seq<int>, v: int)
    ensures Count(s, x => Micros(x) <= v) == Count(s, x => Micros(x) < v) + Count(s, x => Micros(x) == v)
    decreases |s|
  {
    if s != [] {
      CountUpTo(s[..|s| - 1], v);
    }
  }

  lemma {:induction false} CountFinds(s: seq<int>, v: int) returns (d: int)
    requires Count(s, x => Micros(x) == v) > 0
    ensures d in s && Micros(d) == v
    decreases |s|
  {
    var n := |s| - 1;
    if Micros(s[n]) == v {
      d := s[n];
    } else {
      d := CountFinds(s[..n], v);
      assert d in s;
    }
  }

  lemma {:induction false} CountBelowZero(s: seq<int>, v: nat)
    requires v == 0
    ensures Count(s, x => Micros(x) < v) == 0
    decreases |s|
  {
    if s != [] {
      CountBelowZero(s[..|s| - 1], v);
    }
  }

  lemma {:induction false} CountShift(s: seq<int>, v: nat)
    requires v > 0
    ensures Count(s, x => Micros(x) <= v - 1) == Count(s, x => Micros(x) < v)
    decreases |s|
  {
    if s != [] {
      CountShift(s[..|s| - 1], v);
    }
  }

  lemma {:induction false} RankAtMost(s: seq<int>, rank: nat, v: nat) returns (d: int)
    requires 1 <= rank <= Count(s, x => Micros(x) <= v)
    ensures IsRank(s, rank, d)
    decreases v
  {
    CountUpTo(s, v);
    if Count(s, x => Micros(x) < v) < rank {
      d := CountFinds(s, v);
      SameCounts(s, v, d);
    } else {
      if v == 0 {
        CountBelowZero(s, v);
      } else {
        CountShift(s, v);
        d := RankAtMost(s, rank, v - 1);
      }
    }
  }

  lemma {:induction false} SameCounts(s: seq<int>, v: nat, d: int)
    requires Micros(d) == v
    ensures Count(s, x => Micros(x) < v) == Count(s, x => Micros(x) < Micros(d))
    ensures Count(s, x => Micros(x) <= v) == Count(s, x => Micros(x) <= Micros(d))
    decreases |s|
  {
    if s != [] {
      SameCounts(s[..|s| - 1], v, d);
    }
  }

  /** Some sample has each rank. */
  lemma {:induction false} RankExists(s: seq<int>, rank: nat) returns (d: int)
    requires 1 <= rank <= |s|
    ensures IsRank(s, rank, d)
  {
    var v := Micros(Largest(s));
    AllUpToLargest(s, v);
    d := RankAtMost(s, rank, v);
  }

  lemma {:induction false} AllUpToLargest(s: seq<int>, v: nat)
    requires Micros(Largest(s)) <= v
    ensures Count(s, x => Micros(x) <= v) == |s|
    decreases |s|
  {
    if s != [] {
      AllUpToLargest(s[..|s| - 1], v);
    }
  }

  /** The rank a quantile q asks for, of total samples. */
  function RankOf(q: real, total: nat): int
    requires total > 0
  {
    Min(Max((q * (total as real) + 0.5).Floor, 1), total)
  }

  /** rank is q * total to the nearest, halves up, but no lower than 1 and no higher than total. */
  predicate IsNearest(q: real, total: nat, rank: int) {
    var x := q * (total as real);
    && 1 <= rank <= total
    && (rank > 1 ==> rank as real - 0.5 <= x)
    && (rank < total ==> x < rank as real + 0.5)
  }

  lemma {:induction false} RankIsNearest(q: real, total: nat)
    requires total > 0
    ensures IsNearest(q, total, RankOf(q, total)) && 1 <= RankOf(q, total) <= total
  {
    var x := q * (total as real);
    var r := (x + 0.5).Floor;
    assert r as real <= x + 0.5 < r as real + 1.0;
    assert RankOf(q, total) == Min(Max(r, 1), total);
  }

  // ---------------------------------------------------------------------------
  // The histogram, updated in place
  // ---------------------------------------------------------------------------

  class DurationHistogram {
    const counts: array<nat>
    var total: nat
    var max: int
    ghost var samples: seq<int>

    /** The counts are those of the samples recorded. */
    ghost predicate Valid()
      reads this, counts
    {
      && counts.Length == NUM_BUCKETS
      && (forall i :: 0 <= i < NUM_BUCKETS ==> counts[i] == InBucket(samples, i))
      && total == |samples| && max == Largest(samples)
    }

    constructor ()
      ensures Valid() && samples == [] && fresh(counts)
    {
      counts := new nat[NUM_BUCKETS](i => 0);
      total, max, samples := 0, 0, [];
    }

    method Record(d: int)
      requires Valid()
      modifies this, counts
      ensures Valid() && samples == old(samples) + [d]
    {
      InBounds(Micros(d));
      var i := BucketOf(Micros(d));
      counts[i] := counts[i] + 1;
      total := total + 1;
      max := Max(max, d);
      samples := samples + [d];
      assert samples[..|samples| - 1] == old(samples);
      hide BucketOf;
    }

    /** The result is the histogram of both sets of samples, even merged with itself. */
    method Merge(o: DurationHistogram)
      requires Valid() && o.Valid() && (o != this ==> o.counts != counts)
      modifies this, counts
      ensures Valid() && samples == old(samples) + old(o.samples)
    {
      hide BucketOf;
      var theirs := o.counts[..];
      ghost var all := samples + o.samples;
      var i := 0;
      while i < NUM_BUCKETS
        invariant 0 <= i <= NUM_BUCKETS
        invariant forall j :: 0 <= j < i ==> counts[j] == InBucket(all, j)
        invariant forall j :: i <= j < NUM_BUCKETS ==> counts[j] == InBucket(samples, j)
        invariant samples == old(samples) && total == old(total) && max == old(max)
        invariant o.samples == old(o.samples) && o.total == old(o.total) && o.max == old(o.max)
      {
        CountConcat(samples, o.samples, d => BucketOf(Micros(d)) == i);
        counts[i] := counts[i] + theirs[i];
        i := i + 1;
      }
      LargestConcat(samples, o.samples);
      total, max := total + o.total, Max(max, o.max);
      samples := all;
    }

    /** The bucket of the rank-th smallest sample, found by adding up the counts. */
    method FindRank(rank: nat) returns (i: nat)
      requires Valid() && 1 <= rank <= total
      ensures i <= LAST_BUCKET && BucketOfRank(samples, rank, i)
    {
      hide BucketOf, Below, InBucket;
      BelowEnds(samples);
      var cum := 0;
      i := 0;
      while true
        invariant 0 <= i <= LAST_BUCKET && cum == Below(samples, i) && cum < rank
        decreases NUM_BUCKETS - i
      {
        CountSplit(samples, i);
        cum := cum + counts[i];
        if cum >= rank {
          return;
        }
        i := i + 1;
      }
    }

    /**
     The q-quantile: of nothing 0, else within a sixteenth above the sample of its rank and never below it,
     in whole microseconds, or the largest sample if that one is past what is bucketed finely.
     */
    method Quantile(q: real) returns (r: int)
      requires Valid()
      ensures total == 0 ==> r == 0
      ensures total > 0 ==> exists rank: nat, d ::
        IsNearest(q, total, rank) && IsRank(samples, rank, d) && Approximates(r, d, max)
    {
      if total == 0 {
        return 0;
      }
      hide RankOf, IsNearest, BucketOfRank, BucketOf, IsRank, Reported, Approximates;
      var rank := RankOf(q, total);
      RankIsNearest(q, total);
      var i := FindRank(rank);
      r := Reported(i, max);
      ghost var d := RankExists(samples, rank);
      ErrorBound(samples, rank, i, d);
    }
  }
}
