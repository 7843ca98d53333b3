/**
 The latency histogram: fixed buckets, and quantiles interpolated inside one.
 Samples are nanoseconds; estimates are computed over the reals.
 */
module Latency {
  const BUCKETS: nat := 8
  const BOUNDS: seq<int> := [50_000, 100_000, 500_000, 1_000_000, 5_000_000, 10_000_000, 50_000_000]

  /** bisect_left: how many of the sorted bounds lie below x. */
  function BisectLeft(bounds: seq<int>, x: int): (i: nat)
    ensures i <= |bounds|
  {
    if bounds == [] || x <= bounds[0] then 0 else 1 + BisectLeft(bounds[1..], x)
  }

  function Bucket(x: int): (i: nat)
    ensures i < BUCKETS
  {
    BisectLeft(BOUNDS, x)
  }

  function Lower(i: nat): int
    requires i < BUCKETS
  {
    if i == 0 then 0 else BOUNDS[i - 1]
  }

  /** The last bucket is open; it is drawn up to twice the last bound. */
  function Upper(i: nat): int
    requires i < BUCKETS
  {
    if i == BUCKETS - 1 then 2 * BOUNDS[BUCKETS - 2] else BOUNDS[i]
  }

  lemma BucketBounds(x: int)
    ensures var i := Bucket(x);
            && (i > 0 ==> Lower(i) < x)
            && (i < BUCKETS - 1 ==> x <= Upper(i))
  {
    var b := BOUNDS;
    assert b[1..][0] == b[1] && b[1..][1..][0] == b[2] && b[1..][1..][1..][0] == b[3];
    assert b[1..][1..][1..][1..][0] == b[4] && b[1..][1..][1..][1..][1..][0] == b[5];
    assert b[1..][1..][1..][1..][1..][1..][0] == b[6];
    Unfold(b, x);
    Unfold(b[1..], x);
    Unfold(b[1..][1..], x);
    Unfold(b[1..][1..][1..], x);
    Unfold(b[1..][1..][1..][1..], x);
    Unfold(b[1..][1..][1..][1..][1..], x);
    Unfold(b[1..][1..][1..][1..][1..][1..], x);
  }

  /** The buckets, in nanoseconds. */
  lemma BucketTable(x: int)
    ensures Bucket(x) == if x <= 50_000 then 0 else if x <= 100_000 then 1 else if x <= 500_000 then 2
                         else if x <= 1_000_000 then 3 else if x <= 5_000_000 then 4
                         else if x <= 10_000_000 then 5 else if x <= 50_000_000 then 6 else 7
    ensures Lower(0) == 0 && Upper(7) == 100_000_000
    ensures forall i: nat | i < 7 :: Upper(i) == Lower(i + 1)
  {
    BucketBounds(x);
    var i := Bucket(x);
    hide Bucket;
    assert i in {0, 1, 2, 3, 4, 5, 6, 7};
  }

  lemma Unfold(b: seq<int>, x: int)
    requires b != []
    ensures BisectLeft(b, x) == if x <= b[0] then 0 else 1 + BisectLeft(b[1..], x)
  {
  }

  lemma {:induction false} BisectMonotone(bounds: seq<int>, x: int, y: int)
    requires x <= y
    ensures BisectLeft(bounds, x) <= BisectLeft(bounds, y)
  {
    if bounds != [] && x > bounds[0] {
      BisectMonotone(bounds[1..], x, y);
    }
  }

  // ----- counting samples -----

  ghost function InBucket(samples: seq<int>, i: nat): nat {
    if samples == [] then 0
    else InBucket(samples[..|samples| - 1], i) + (if Bucket(samples[|samples| - 1]) == i then 1 else 0)
  }

  /** Samples in the buckets below i. */
  ghost function Below(samples: seq<int>, i: nat): nat {
    if i == 0 then 0 else Below(samples, i - 1) + InBucket(samples, i - 1)
  }

  ghost function Less(samples: seq<int>, x: int): nat {
    if samples == [] then 0
    else Less(samples[..|samples| - 1], x) + (if samples[|samples| - 1] < x then 1 else 0)
  }

  ghost function AtMost(samples: seq<int>, x: int): nat {
    if samples == [] then 0
    else AtMost(samples[..|samples| - 1], x) + (if samples[|samples| - 1] <= x then 1 else 0)
  }

  /** x is the r-th smallest sample. */
  ghost predicate IsRanked(samples: seq<int>, r: nat, x: int) {
    x in samples && Less(samples, x) < r <= AtMost(samples, x)
  }

  lemma {:induction false} BelowLast(samples: seq<int>, i: nat)
    requires samples != []
    ensures Below(samples, i) == Below(samples[..|samples| - 1], i) +
                                 (if Bucket(samples[|samples| - 1]) < i then 1 else 0)
  {
    if i > 0 {
      hide Bucket;
      BelowLast(samples, i - 1);
    }
  }

  lemma {:induction false} BelowNothing(i: nat)
    ensures Below([], i) == 0
  {
    if i > 0 {
      BelowNothing(i - 1);
    }
  }

  lemma {:induction false} BelowAll(samples: seq<int>)
    ensures Below(samples, BUCKETS) == |samples|
  {
    if samples == [] {
      BelowNothing(BUCKETS);
    } else {
      hide Bucket, Below;
      BelowAll(samples[..|samples| - 1]);
      BelowLast(samples, BUCKETS);
    }
  }

  /** Samples up to x fall in buckets up to x's; samples in lower buckets are less than x. */
  lemma {:induction false} CountsAroundBucket(samples: seq<int>, x: int, i: nat)
    ensures Bucket(x) < i ==> AtMost(samples, x) <= Below(samples, i)
    ensures i <= Bucket(x) ==> Below(samples, i) <= Less(samples, x)
  {
    if samples == [] {
      BelowNothing(i);
    } else {
      var n := |samples| - 1;
      var y := samples[n];
      CountsAroundBucket(samples[..n], x, i);
      BelowLast(samples, i);
      if y <= x {
        BisectMonotone(BOUNDS, y, x);
      } else {
        BisectMonotone(BOUNDS, x, y);
      }
      hide Bucket, BisectLeft, Below;
    }
  }

  lemma {:induction false} BelowMonotone(samples: seq<int>, i: nat, j: nat)
    requires i <= j
    ensures Below(samples, i) <= Below(samples, j)
    decreases j
  {
    if i < j {
      BelowMonotone(samples, i, j - 1);
    }
  }

  // ----- the estimate -----

  function Share(part: real, whole: real): real
    requires whole > 0.0
  {
    part / whole
  }

  function Times(a: real, b: real): real {
    a * b
  }

  /** Bucket i holds the target position. */
  ghost predicate Targeted(samples: seq<int>, target: real, i: nat) {
    i < BUCKETS && Below(samples, i) as real < target <= Below(samples, i + 1) as real
  }

  /** Linear interpolation of the target inside bucket i, in nanoseconds. */
  ghost function Interpolated(samples: seq<int>, target: real, i: nat): real
    requires Targeted(samples, target, i)
  {
    var share := Share(target - Below(samples, i) as real, InBucket(samples, i) as real);
    Lower(i) as real + Times(share, (Upper(i) - Lower(i)) as real)
  }

  /** The bucket that holds the target, searched from bucket i on. */
  ghost function FindBucket(samples: seq<int>, target: real, i: nat): (j: nat)
    requires i < BUCKETS && Below(samples, i) as real < target <= |samples| as real
    ensures Targeted(samples, target, j)
    decreases BUCKETS - i
  {
    BelowAll(samples);
    if target <= Below(samples, i + 1) as real then i else FindBucket(samples, target, i + 1)
  }

  /** The estimate for a fraction of the samples, in milliseconds; 0 without samples. */
  ghost function Quantile(samples: seq<int>, pct: real): real
    requires 0.0 < pct <= 1.0
  {
    if samples == [] then 0.0
    else
      var target := Times(pct, |samples| as real);
      TimesInside(pct, |samples| as real);
      Interpolated(samples, target, FindBucket(samples, target, 0)) / 1_000_000.0
  }

  lemma TargetedIsUnique(samples: seq<int>, target: real, i: nat, j: nat)
    requires Targeted(samples, target, i) && Targeted(samples, target, j)
    ensures i == j
  {
    if i < j {
      BelowMonotone(samples, i + 1, j);
    } else if j < i {
      BelowMonotone(samples, j + 1, i);
    }
  }

  /** Whichever bucket holds the target, the quantile is interpolated there. */
  lemma QuantileAt(samples: seq<int>, pct: real, i: nat)
    requires 0.0 < pct <= 1.0 && samples != [] && Targeted(samples, Times(pct, |samples| as real), i)
    ensures Quantile(samples, pct) == Interpolated(samples, Times(pct, |samples| as real), i) / 1_000_000.0
  {
    TimesInside(pct, |samples| as real);
    hide Times, Interpolated;
    var target := Times(pct, |samples| as real);
    TargetedIsUnique(samples, target, i, FindBucket(samples, target, 0));
  }

  /** The bucket the quantile is interpolated in. */
  lemma QuantileTargets(samples: seq<int>, pct: real) returns (i: nat)
    requires 0.0 < pct <= 1.0 && samples != []
    ensures Targeted(samples, Times(pct, |samples| as real), i)
    ensures Quantile(samples, pct) == Interpolated(samples, Times(pct, |samples| as real), i) / 1_000_000.0
  {
    TimesInside(pct, |samples| as real);
    hide Times, Interpolated;
    i := FindBucket(samples, Times(pct, |samples| as real), 0);
  }

  lemma ShareInUnit(part: real, whole: real)
    requires 0.0 < part <= whole
    ensures 0.0 < Share(part, whole) <= 1.0
  {
  }

  lemma TimesInside(s: real, w: real)
    requires 0.0 < s <= 1.0 && w > 0.0
    ensures 0.0 < Times(s, w) <= w
  {
  }

  lemma TimesMonotone(a: real, b: real, w: real)
    requires a <= b && w >= 0.0
    ensures Times(a, w) <= Times(b, w)
  {
  }

  lemma WidthPositive(i: nat)
    requires i < BUCKETS
    ensures Upper(i) > Lower(i)
  {
  }

  lemma InterpolatedInBucket(samples: seq<int>, target: real, i: nat)
    requires Targeted(samples, target, i)
    ensures Lower(i) as real < Interpolated(samples, target, i) <= Upper(i) as real
  {
    WidthPositive(i);
    hide Share, Times, Lower, Upper;
    var part, whole := target - Below(samples, i) as real, InBucket(samples, i) as real;
    ShareInUnit(part, whole);
    TimesInside(Share(part, whole), (Upper(i) - Lower(i)) as real);
  }

  /** The estimate lies in the bucket of the r-th smallest sample, r being the target rounded up. */
  lemma EstimateInRankedBucket(samples: seq<int>, target: real, i: nat, r: nat, x: int)
    requires Targeted(samples, target, i)
    requires (r as real) - 1.0 < target <= r as real
    requires IsRanked(samples, r, x)
    ensures Bucket(x) == i
    ensures Lower(Bucket(x)) as real < Interpolated(samples, target, i) <= Upper(Bucket(x)) as real
  {
    hide Bucket, Less, AtMost, Below, Interpolated;
    CountsAroundBucket(samples, x, i);
    CountsAroundBucket(samples, x, i + 1);
    InterpolatedInBucket(samples, target, i);
  }

  /** For samples up to 100 ms the estimate is off by at most the width of that bucket. */
  lemma ErrorWithinBucketWidth(samples: seq<int>, target: real, i: nat, r: nat, x: int)
    requires Targeted(samples, target, i)
    requires (r as real) - 1.0 < target <= r as real
    requires IsRanked(samples, r, x) && 0 <= x <= 100_000_000
    ensures var e := Interpolated(samples, target, i) - x as real;
            var w := (Upper(Bucket(x)) - Lower(Bucket(x))) as real;
            -w <= e <= w
  {
    EstimateInRankedBucket(samples, target, i, r, x);
    BucketBounds(x);
    hide Bucket, Interpolated, Less, AtMost;
  }

  lemma UppersBelowLowers(i: nat, j: nat)
    requires i < j < BUCKETS
    ensures Upper(i) <= Lower(j)
  {
  }

  // ----- the r-th smallest sample -----

  lemma {:induction false} CountsMonotone(samples: seq<int>, x: int, y: int)
    requires x <= y
    ensures Less(samples, x) <= Less(samples, y) && AtMost(samples, x) <= AtMost(samples, y)
    ensures Less(samples, x) <= AtMost(samples, x)
    ensures x < y ==> AtMost(samples, x) <= Less(samples, y)
  {
    if samples != [] {
      CountsMonotone(samples[..|samples| - 1], x, y);
    }
  }

  lemma {:induction false} Present(samples: seq<int>, x: int)
    ensures x in samples <==> Less(samples, x) < AtMost(samples, x)
  {
    if samples != [] {
      var n := |samples| - 1;
      Present(samples[..n], x);
      CountsMonotone(samples[..n], x, x);
      assert samples == samples[..n] + [samples[n]];
    }
  }

  /** The largest sample below x: everything below x is at most that. */
  lemma {:induction false} LargestBelow(samples: seq<int>, x: int) returns (z: int)
    requires Less(samples, x) > 0
    ensures z in samples && z < x && AtMost(samples, z) == Less(samples, x)
  {
    var n := |samples| - 1;
    var before, y := samples[..n], samples[n];
    if Less(before, x) == 0 {
      z := y;
      CountsMonotone(before, y, x);
    } else {
      z := LargestBelow(before, x);
      if z < y < x {
        CountsMonotone(before, z, y);
        CountsMonotone(before, y, x);
        z := y;
      }
    }
  }

  /** Goes down from z to the r-th smallest sample. */
  lemma {:induction false} RankedUpTo(samples: seq<int>, r: nat, z: int) returns (x: int)
    requires r >= 1 && z in samples && r <= AtMost(samples, z)
    ensures IsRanked(samples, r, x)
    decreases Less(samples, z)
  {
    if Less(samples, z) < r {
      x := z;
    } else {
      var y := LargestBelow(samples, z);
      Present(samples, y);
      x := RankedUpTo(samples, r, y);
    }
  }

  ghost function Beyond(samples: seq<int>): int {
    if samples == [] then 0
    else if samples[|samples| - 1] >= Beyond(samples[..|samples| - 1]) then samples[|samples| - 1] + 1
    else Beyond(samples[..|samples| - 1])
  }

  lemma {:induction false} AllBelow(samples: seq<int>, x: int)
    requires x >= Beyond(samples)
    ensures Less(samples, x) == |samples|
  {
    if samples != [] {
      AllBelow(samples[..|samples| - 1], x);
    }
  }

  /** For every rank there is a sample of that rank, and only one value. */
  lemma RankedExists(samples: seq<int>, r: nat) returns (x: int)
    requires 1 <= r <= |samples|
    ensures IsRanked(samples, r, x)
    ensures forall y | IsRanked(samples, r, y) :: y == x
  {
    AllBelow(samples, Beyond(samples));
    var top := LargestBelow(samples, Beyond(samples));
    x := RankedUpTo(samples, r, top);
    forall y | IsRanked(samples, r, y)
      ensures y == x
    {
      if y < x {
        CountsMonotone(samples, y, x);
      } else if x < y {
        CountsMonotone(samples, x, y);
      }
    }
  }

  /** The target position rounded up: the rank the quantile stands for. */
  function Rank(pct: real, n: nat): int {
    -((-Times(pct, n as real)).Floor)
  }

  lemma RankInRange(pct: real, n: nat)
    requires 0.0 < pct <= 1.0 && n > 0
    ensures 1 <= Rank(pct, n) <= n
    ensures Rank(pct, n) as real - 1.0 < Times(pct, n as real) <= Rank(pct, n) as real
  {
    TimesInside(pct, n as real);
    hide Times;
  }

  /** ms lies in x's bucket, and is off by at most its width when x is between 0 and 100 ms. */
  ghost predicate Estimates(ms: real, x: int) {
    var lo, hi, ns := Lower(Bucket(x)) as real, Upper(Bucket(x)) as real, Times(ms, 1_000_000.0);
    && lo < ns <= hi
    && (0 <= x <= 100_000_000 ==> lo - hi <= ns - x as real <= hi - lo)
  }

  /**
   What the quantile means: the ceil(pct * n)-th smallest sample exists, and the
   estimate lies in its bucket.
   */
  lemma QuantileLaw(samples: seq<int>, pct: real) returns (x: int)
    requires 0.0 < pct <= 1.0 && samples != []
    ensures 1 <= Rank(pct, |samples|) <= |samples|
    ensures IsRanked(samples, Rank(pct, |samples|), x) && Estimates(Quantile(samples, pct), x)
  {
    RankInRange(pct, |samples|);
    var r, target := Rank(pct, |samples|), Times(pct, |samples| as real);
    x := RankedExists(samples, r);
    var i := QuantileTargets(samples, pct);
    EstimateInRankedBucket(samples, target, i, r, x);
    if 0 <= x <= 100_000_000 {
      ErrorWithinBucketWidth(samples, target, i, r, x);
    }
    hide Bucket, Interpolated, Rank, IsRanked, Lower, Upper, Targeted, Quantile;
    Scaled(Interpolated(samples, target, i));
  }

  lemma Scaled(a: real)
    ensures Times(a / 1_000_000.0, 1_000_000.0) == a
  {
  }

  // ----- recording between two quantiles -----

  lemma {:induction false} InBucketConcat(s: seq<int>, m: seq<int>, i: nat)
    ensures InBucket(s + m, i) == InBucket(s, i) + InBucket(m, i)
    decreases |m|
  {
    if m == [] {
      assert s + m == s;
    } else {
      hide Bucket;
      assert (s + m)[..|s + m| - 1] == s + m[..|m| - 1];
      InBucketConcat(s, m[..|m| - 1], i);
    }
  }

  lemma {:induction false} BelowConcat(s: seq<int>, m: seq<int>, i: nat)
    ensures Below(s + m, i) == Below(s, i) + Below(m, i)
  {
    if i > 0 {
      BelowConcat(s, m, i - 1);
      InBucketConcat(s, m, i - 1);
    }
  }

  /** Adding d samples to a bucket and moving the target on by at least d does not lower its share. */
  lemma ShareGrows(x: real, c: real, y: real, d: real)
    requires 0.0 < x <= c && 0.0 <= d && x + d <= y
    ensures Share(x, c) <= Share(y, c + d)
  {
    ShareInUnit(x, c);
    var u := Share(x, c);
    ShareOf(x, c);
    ScaleDown(u, d);
    hide Share;
    ShareAtLeast(u, y, c + d);
  }

  lemma ShareOf(x: real, c: real)
    requires c > 0.0
    ensures Times(Share(x, c), c) == x
  {
  }

  lemma ScaleDown(u: real, d: real)
    requires 0.0 < u <= 1.0 && 0.0 <= d
    ensures Times(u, d) <= d
    ensures forall c: real :: Times(u, c + d) == Times(u, c) + Times(u, d)
  {
  }

  lemma ShareAtLeast(u: real, y: real, c: real)
    requires c > 0.0 && Times(u, c) <= y
    ensures u <= Share(y, c)
  {
  }

  lemma SameBucketNotLower(s: seq<int>, t1: real, m: seq<int>, t2: real, i: nat)
    requires Targeted(s, t1, i) && Targeted(s + m, t2, i)
    requires t1 - Below(s, i) as real + InBucket(m, i) as real <= t2 - Below(s + m, i) as real
    ensures Interpolated(s, t1, i) <= Interpolated(s + m, t2, i)
  {
    InBucketConcat(s, m, i);
    WidthPositive(i);
    hide Share, Times, Lower, Upper, InBucket;
    var x, y := t1 - Below(s, i) as real, t2 - Below(s + m, i) as real;
    var c, d := InBucket(s, i) as real, InBucket(m, i) as real;
    ShareGrows(x, c, y, d);
    TimesMonotone(Share(x, c), Share(y, c + d), (Upper(i) - Lower(i)) as real);
  }

  /** A later estimate is not lower when its target has moved on by at least the number of samples added. */
  lemma LaterNotLower(s: seq<int>, t1: real, i: nat, m: seq<int>, t2: real, j: nat)
    requires Targeted(s, t1, i) && Targeted(s + m, t2, j) && t1 + |m| as real <= t2
    ensures Interpolated(s, t1, i) <= Interpolated(s + m, t2, j)
  {
    hide InBucket, Interpolated, Lower, Upper;
    BelowConcat(s, m, i);
    BelowAll(m);
    BelowMonotone(m, i + 1, BUCKETS);
    if j < i {
      BelowMonotone(s + m, j + 1, i);
    } else if i < j {
      InterpolatedInBucket(s, t1, i);
      InterpolatedInBucket(s + m, t2, j);
      UppersBelowLowers(i, j);
    } else {
      SameBucketNotLower(s, t1, m, t2, i);
    }
  }

  /** How many records between the reads of p and q leave the two in order, n samples having been there. */
  predicate FewBetween(p: real, q: real, n: nat, k: nat) {
    n == 0 || Times(1.0 - q, k as real) <= Times(q - p, n as real)
  }

  lemma TargetMovesOn(p: real, q: real, n: nat, k: nat)
    ensures Times(1.0 - q, k as real) <= Times(q - p, n as real) <==>
            Times(p, n as real) + k as real <= Times(q, (n + k) as real)
  {
  }

  lemma QuantileNotNegative(samples: seq<int>, pct: real)
    requires 0.0 < pct <= 1.0
    ensures Quantile(samples, pct) >= 0.0
  {
    if samples != [] {
      var i := QuantileTargets(samples, pct);
      InterpolatedInBucket(samples, Times(pct, |samples| as real), i);
      hide Interpolated, Quantile;
    }
  }

  lemma FewKeepOrder(p: real, q: real, s: seq<int>, m: seq<int>)
    requires 0.0 < p <= q <= 1.0 && FewBetween(p, q, |s|, |m|)
    ensures Quantile(s, p) <= Quantile(s + m, q)
  {
    if s == [] {
      QuantileNotNegative(s + m, q);
    } else {
      TargetMovesOn(p, q, |s|, |m|);
      var i := QuantileTargets(s, p);
      var j := QuantileTargets(s + m, q);
      hide Quantile, Times, Interpolated, Targeted;
      LaterNotLower(s, Times(p, |s| as real), i, m, Times(q, |s + m| as real), j);
    }
  }

  /** On one set of samples a larger fraction never gets a smaller estimate. */
  lemma EstimateMonotone(samples: seq<int>, p: real, q: real)
    requires 0.0 < p <= q <= 1.0
    ensures Quantile(samples, p) <= Quantile(samples, q)
  {
    assert samples + [] == samples;
    FewKeepOrder(p, q, samples, []);
  }

  lemma {:induction false} AllAlike(n: nat, x: int, i: nat)
    ensures InBucket(seq(n, _ => x), i) == if Bucket(x) == i then n else 0
  {
    if n > 0 {
      hide Bucket;
      assert seq(n, _ => x)[..n - 1] == seq(n - 1, _ => x);
      AllAlike(n - 1, x, i);
    }
  }

  lemma {:induction false} BelowAlike(n: nat, x: int, i: nat)
    ensures Below(seq(n, _ => x), i) == if Bucket(x) < i then n else 0
  {
    if i > 0 {
      BelowAlike(n, x, i - 1);
      AllAlike(n, x, i - 1);
      hide Bucket;
    }
  }

  /** n samples of 60 ms and k instantaneous ones. */
  function SlowThenFast(n: nat, k: nat): (s: seq<int>)
    ensures |s| == n + k && s[..n] == seq(n, _ => 60_000_000)
  {
    seq(n, _ => 60_000_000) + seq(k, _ => 0)
  }

  lemma SlowThenFastCounts(n: nat, k: nat, i: nat)
    requires i <= BUCKETS
    ensures Below(SlowThenFast(n, k), i) == (if i > 0 then k else 0) + (if i == BUCKETS then n else 0)
    ensures i < BUCKETS ==>
              InBucket(SlowThenFast(n, k), i) == (if i == 0 then k else 0) + (if i == BUCKETS - 1 then n else 0)
  {
    BucketBounds(60_000_000);
    BucketBounds(0);
    var slow, fast := seq(n, _ => 60_000_000), seq(k, _ => 0);
    BelowConcat(slow, fast, i);
    InBucketConcat(slow, fast, i);
    BelowAlike(n, 60_000_000, i);
    BelowAlike(k, 0, i);
    AllAlike(n, 60_000_000, i);
    AllAlike(k, 0, i);
    hide Below, InBucket;
  }

  lemma ShareStrict(a: real, b: real, c: real, w: real)
    requires a < b && c > 0.0 && w > 0.0
    ensures Times(Share(a, c), w) < Times(Share(b, c), w)
  {
  }

  lemma LowerShareLowerEstimate(s: seq<int>, t1: real, all: seq<int>, t2: real, i: nat)
    requires Targeted(s, t1, i) && Targeted(all, t2, i) && InBucket(s, i) == InBucket(all, i)
    requires t2 - Below(all, i) as real < t1 - Below(s, i) as real
    ensures Interpolated(all, t2, i) < Interpolated(s, t1, i)
  {
    WidthPositive(i);
    hide Share, Times, Lower, Upper, InBucket;
    ShareStrict(t2 - Below(all, i) as real, t1 - Below(s, i) as real,
                InBucket(s, i) as real, (Upper(i) - Lower(i)) as real);
  }

  /** With more records between the reads than that, the later and larger fraction can get the smaller estimate. */
  lemma ManyCross(p: real, q: real, n: nat, k: nat)
    requires 0.0 < p <= q <= 1.0 && !FewBetween(p, q, n, k)
    ensures Quantile(SlowThenFast(n, 0), p) > Quantile(SlowThenFast(n, k), q)
  {
    TargetMovesOn(p, q, n, k);
    TimesInside(p, n as real);
    var s, all := SlowThenFast(n, 0), SlowThenFast(n, k);
    var t1, t2 := Times(p, n as real), Times(q, (n + k) as real);
    var last := BUCKETS - 1;
    SlowThenFastCounts(n, 0, last);
    SlowThenFastCounts(n, 0, BUCKETS);
    SlowThenFastCounts(n, k, last);
    QuantileAt(s, p, last);
    var j := QuantileTargets(all, q);
    SlowThenFastCounts(n, k, j);
    SlowThenFastCounts(n, k, j + 1);
    if j == last {
      hide Times, SlowThenFast, Quantile, Below, InBucket, Interpolated, Lower, Upper;
      LowerShareLowerEstimate(s, t1, all, t2, last);
    } else {
      hide Times, SlowThenFast, Quantile, Below, InBucket, Interpolated;
      InterpolatedInBucket(s, t1, last);
      InterpolatedInBucket(all, t2, j);
      UppersBelowLowers(j, last);
    }
  }

  /**
   Two quantiles read under separate locks, n samples having been recorded at the
   first read and k more at the second, are in order for all samples exactly when
   (1 - q) k <= (q - p) n, or there was none at the first.
   */
  lemma OrderedIff(p: real, q: real, n: nat, k: nat)
    requires 0.0 < p <= q <= 1.0
    ensures (forall all: seq<int> | |all| == n + k :: Quantile(all[..n], p) <= Quantile(all, q)) <==>
            FewBetween(p, q, n, k)
  {
    hide Quantile, SlowThenFast;
    if FewBetween(p, q, n, k) {
      forall all: seq<int> | |all| == n + k
        ensures Quantile(all[..n], p) <= Quantile(all, q)
      {
        assert all == all[..n] + all[n..];
        FewKeepOrder(p, q, all[..n], all[n..]);
      }
    } else {
      ManyCross(p, q, n, k);
      FirstPart(n, k);
    }
  }

  /** The bounds for the quantiles reported. */
  lemma FewInNumbers(n: nat, k: nat)
    ensures FewBetween(0.50, 0.95, n, k) <==> n == 0 || k <= 9 * n
    ensures FewBetween(0.95, 0.99, n, k) <==> n == 0 || k <= 4 * n
  {
  }

  /** What percentiles() returns when k1 and k2 of the samples are recorded between its reads. */
  ghost predicate InOrder(all: seq<int>, n: nat, m: nat)
    requires n <= m <= |all|
  {
    Quantile(all[..n], 0.50) <= Quantile(all[..m], 0.95) <= Quantile(all, 0.99)
  }

  /**
   p50 <= p95 <= p99 holds for all samples exactly when at most nine times as many
   samples arrive between the first two reads as were there at the first, and at
   most four times as many between the last two as were there at the second.
   */
  lemma PercentilesOrderedIff(n: nat, k1: nat, k2: nat)
    ensures (forall all: seq<int> | |all| == n + k1 + k2 :: InOrder(all, n, n + k1)) <==>
            (n == 0 || k1 <= 9 * n) && (n + k1 == 0 || k2 <= 4 * (n + k1))
  {
    FewInNumbers(n, k1);
    FewInNumbers(n + k1, k2);
    hide Quantile, SlowThenFast, FewBetween, InOrder;
    if FewBetween(0.50, 0.95, n, k1) && FewBetween(0.95, 0.99, n + k1, k2) {
      forall all: seq<int> | |all| == n + k1 + k2
        ensures InOrder(all, n, n + k1)
      {
        FewKeepInOrder(all, n, n + k1);
      }
    } else {
      var all := ManyOutOfOrder(n, k1, k2);
      assert |all| == n + k1 + k2 && !InOrder(all, n, n + k1);
    }
  }

  lemma FirstPart(n: nat, k: nat)
    ensures SlowThenFast(n, k)[..n] == SlowThenFast(n, 0)
  {
    assert SlowThenFast(n, 0)[..n] == SlowThenFast(n, 0);
  }

  lemma ManyOutOfOrder(n: nat, k1: nat, k2: nat) returns (all: seq<int>)
    requires !FewBetween(0.50, 0.95, n, k1) || !FewBetween(0.95, 0.99, n + k1, k2)
    ensures |all| == n + k1 + k2 && !InOrder(all, n, n + k1)
  {
    hide Quantile, SlowThenFast, FewBetween;
    if !FewBetween(0.50, 0.95, n, k1) {
      ManyCross(0.50, 0.95, n, k1);
      FirstPart(n, k1);
      var first := SlowThenFast(n, k1);
      all := first + seq(k2, _ => 0);
      assert all[..n + k1] == first && all[..n] == first[..n];
    } else {
      ManyCross(0.95, 0.99, n + k1, k2);
      FirstPart(n + k1, k2);
      all := SlowThenFast(n + k1, k2);
    }
  }

  lemma FewKeepInOrder(all: seq<int>, n: nat, m: nat)
    requires n <= m <= |all|
    requires FewBetween(0.50, 0.95, n, m - n) && FewBetween(0.95, 0.99, m, |all| - m)
    ensures InOrder(all, n, m)
  {
    hide Quantile, FewBetween;
    assert all == all[..m] + all[m..];
    FewKeepOrder(0.95, 0.99, all[..m], all[m..]);
    assert all[..m] == all[..n] + all[n..m];
    FewKeepOrder(0.50, 0.95, all[..n], all[n..m]);
  }

  // ----- the object -----

  class LatencyStats {
    const counts: array<nat>
    var total: nat
    ghost var samples: seq<int>

    ghost predicate Valid()
      reads this, counts
    {
      && counts.Length == BUCKETS
      && total == |samples|
      && forall i | 0 <= i < BUCKETS :: counts[i] == InBucket(samples, i)
    }

    constructor ()
      ensures Valid() && samples == [] && fresh(counts)
    {
      counts := new nat[BUCKETS](_ => 0);
      total, samples := 0, [];
    }

    method Record(latency: int)
      requires Valid()
      modifies this, counts
      ensures Valid() && samples == old(samples) + [latency]
    {
      hide Bucket;
      var i := Bucket(latency);
      counts[i] := counts[i] + 1;
      total := total + 1;
      assert (samples + [latency])[..|samples|] == samples;
      samples := samples + [latency];
    }

    /** The estimate for a fraction of the samples, in milliseconds; 0 without samples. */
    method PercentileMs(pct: real) returns (ms: real)
      requires Valid() && 0.0 < pct <= 1.0
      ensures ms == Quantile(samples, pct)
      ensures total > 0 ==> exists x :: IsRanked(samples, Rank(pct, total), x) && Estimates(ms, x)
    {
      hide Bucket, InBucket, Share, FindBucket;
      if total == 0 {
        return 0.0;
      }
      ghost var x := QuantileLaw(samples, pct);
      var target := Times(pct, total as real);
      TimesInside(pct, total as real);
      hide Times, Quantile;
      var running := 0;
      var i := 0;
      while i < BUCKETS
        invariant i <= BUCKETS && running == Below(samples, i) && running as real < target
      {
        var c := counts[i];
        var prev := running;
        running := running + c;
        if running as real >= target {
          var share := Share(target - prev as real, c as real);
          ms := (Lower(i) as real + Times(share, (Upper(i) - Lower(i)) as real)) / 1_000_000.0;
          QuantileAt(samples, pct, i);
          return;
        }
        i := i + 1;
      }
      BelowAll(samples);
      assert false;
    }

    /** Another thread records these. */
    method RecordAll(latencies: seq<int>)
      requires Valid()
      modifies this, counts
      ensures Valid() && samples == old(samples) + latencies
    {
      for i := 0 to |latencies|
        invariant Valid() && samples == old(samples) + latencies[..i]
      {
        Record(latencies[i]);
      }
    }

    /**
     The three quantiles, each read under the lock of its own; others may record
     in between.
     */
    method Percentiles(between1: seq<int>, between2: seq<int>) returns (p50: real, p95: real, p99: real)
      requires Valid()
      modifies this, counts
      ensures Valid() && samples == old(samples) + between1 + between2
      ensures p50 == Quantile(old(samples), 0.50)
      ensures p95 == Quantile(old(samples) + between1, 0.95)
      ensures p99 == Quantile(samples, 0.99)
      ensures var n, m := old(total), old(total) + |between1|;
              (n == 0 || |between1| <= 9 * n) && (m == 0 || |between2| <= 4 * m) ==> p50 <= p95 <= p99
    {
      hide Quantile, InBucket, FewBetween;
      var n := total;
      p50 := PercentileMs(0.50);
      RecordAll(between1);
      var m := total;
      p95 := PercentileMs(0.95);
      RecordAll(between2);
      p99 := PercentileMs(0.99);
      FewInNumbers(n, |between1|);
      FewInNumbers(m, |between2|);
      assert samples[..n] == old(samples) && samples[..m] == old(samples) + between1;
      if FewBetween(0.50, 0.95, n, m - n) && FewBetween(0.95, 0.99, m, |samples| - m) {
        FewKeepInOrder(samples, n, m);
      }
    }
  }
}
