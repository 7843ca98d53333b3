/**
 Jump consistent hashing: which worker a key belongs to, and why growing the
 pool only ever moves a key to a new worker.
 */
module JumpHash {
  const MULTIPLIER: nat := 2862933555777941757
  const TWO_64: nat := 0x1_0000_0000_0000_0000
  const TWO_33: nat := 0x2_0000_0000
  const TWO_31: nat := 0x8000_0000

  function NextKey(key: nat): (r: nat)
    ensures r < TWO_64
  {
    (key * MULTIPLIER + 1) % TWO_64
  }

  /** The candidate bucket after b, drawn with the scrambled key. */
  function NextBucket(b: nat, key: nat): nat {
    (b + 1) * TWO_31 / (key / TWO_33 + 1)
  }

  // ----- how candidates are drawn -----

  /** A draw is the upper 31 bits of the scrambled key. */
  function Draw(key: nat): nat {
    key / TWO_33
  }

  lemma QuotientReaches(x: nat, d: nat, n: nat)
    requires d > 0
    ensures x / d >= n <==> n * d <= x
  {
    var q := x / d;
    assert q * d <= x < (q + 1) * d;
    if q >= n {
      assert n * d <= q * d;
    } else {
      assert (q + 1) * d <= n * d;
    }
  }

  /** From candidate b a key goes to n or beyond exactly when its draw is below (b + 1) 2^31 / n. */
  lemma ReachesIff(b: nat, key: nat, n: nat)
    requires n > 0
    ensures NextBucket(b, key) >= n <==> n * (Draw(key) + 1) <= (b + 1) * TWO_31
    ensures NextBucket(b, key) >= n <==> Draw(key) < (b + 1) * TWO_31 / n
  {
    var x, d := (b + 1) * TWO_31, Draw(key) + 1;
    QuotientReaches(x, d, n);
    QuotientReaches(x, n, d);
    assert n * d == d * n;
  }

  /** How many of the draws below m take a key from b to n or beyond. */
  ghost function Movers(b: nat, n: nat, m: nat): nat {
    if m == 0 then 0 else Movers(b, n, m - 1) + (if NextBucket(b, (m - 1) * TWO_33) >= n then 1 else 0)
  }

  lemma {:induction false} MoversBelow(b: nat, n: nat, m: nat)
    requires n > 0
    ensures var q := (b + 1) * TWO_31 / n;
            Movers(b, n, m) == if m <= q then m else q
  {
    if m > 0 {
      hide NextBucket;
      MoversBelow(b, n, m - 1);
      DrawOf(m - 1);
      ReachesIff(b, (m - 1) * TWO_33, n);
    }
  }

  /**
   Balance: of the 2^31 possible draws exactly (b + 1) 2^31 / n, rounded down, take
   a key from candidate b to n or beyond, that is a share of (b + 1) / n.
   */
  lemma ShareThatMovesOn(b: nat, n: nat)
    requires b < n
    ensures Movers(b, n, TWO_31) == (b + 1) * TWO_31 / n
  {
    MoversBelow(b, n, TWO_31);
    QuotientReaches((b + 1) * TWO_31, n, TWO_31 + 1);
    assert (TWO_31 + 1) * n > (b + 1) * TWO_31 by {
      assert TWO_31 * n >= TWO_31 * (b + 1);
    }
  }

  lemma DrawOf(h: nat)
    ensures Draw(h * TWO_33) == h
  {
  }

  // ----- how keys are scrambled -----

  /** The multiplier's inverse modulo 2^64. */
  const INVERSE: nat := 16133697096952638549

  function PreviousKey(r: nat): nat {
    ((r + TWO_64 - 1) * INVERSE) % TWO_64
  }

  lemma OnlyRemainder(x: int, r: nat, z: int)
    requires r < TWO_64 && x == r + TWO_64 * z
    ensures x % TWO_64 == r
  {
  }

  /** Scrambling loses nothing: it is a bijection of the 64-bit keys. */
  lemma ScrambleIsBijection(key: nat)
    requires key < TWO_64
    ensures PreviousKey(NextKey(key)) == key
    ensures PreviousKey(key) < TWO_64 && NextKey(PreviousKey(key)) == key
  {
    assert MULTIPLIER * INVERSE == 1 + TWO_64 * 2503948805982125087;
    var x := key * MULTIPLIER + 1;
    var q := x / TWO_64;
    OnlyRemainder((NextKey(key) + TWO_64 - 1) * INVERSE, key, key * 2503948805982125087 + INVERSE - q * INVERSE);
    var y := (key + TWO_64 - 1) * INVERSE;
    var p := y / TWO_64;
    OnlyRemainder(PreviousKey(key) * MULTIPLIER + 1, key,
                  (key + TWO_64 - 1) * 2503948805982125087 + 1 - p * MULTIPLIER);
  }

  /** Two known keys, given their checksums. */
  lemma KnownWorkers(crc: string -> nat)
    requires crc("trade") == 2115650406 && crc("quote") == 1802619892
    ensures WorkerOf(crc, "trade", 4) == 0
    ensures WorkerOf(crc, "quote", 2) == 0 && WorkerOf(crc, "quote", 4) == 2 && WorkerOf(crc, "quote", 10) == 9
  {
    KnownDraws();
    assert Jump(2115650406, 1) == 21;
    assert Jump(1802619892, 1) == 2 && Jump(1802619892, 2) == 9 && Jump(1802619892, 3) == 16;
    hide Jump, NextKey, NextBucket;
  }

  lemma KnownDraws()
    ensures KeyAt(2115650406, 1) == 868566270456019919
    ensures KeyAt(1802619892, 1) == 6562378294936621093
    ensures KeyAt(1802619892, 2) == 5602494862706254994
    ensures KeyAt(1802619892, 3) == 11212942986943726667
  {
    assert NextKey(2115650406) == 868566270456019919;
    assert NextKey(1802619892) == 6562378294936621093;
    assert NextKey(6562378294936621093) == 5602494862706254994;
    assert NextKey(5602494862706254994) == 11212942986943726667;
  }

  // ----- candidates increase -----

  lemma BucketsIncrease(b: nat, key: nat)
    requires key < TWO_64
    ensures NextBucket(b, key) > b
  {
    var d := key / TWO_33 + 1;
    assert 1 <= d <= TWO_31;
    QuotientAtLeast((b + 1) * TWO_31, d, b + 1);
  }

  lemma QuotientAtLeast(x: nat, d: nat, q: nat)
    requires 1 <= d <= TWO_31 && x == q * TWO_31
    ensures x / d >= q
  {
    assert q * d <= q * TWO_31;
  }

  /** The generator state after k draws. */
  function KeyAt(key: nat, k: nat): nat {
    if k == 0 then key else NextKey(KeyAt(key, k - 1))
  }

  /** The k-th candidate bucket; the sequence does not depend on the number of buckets. */
  function Jump(key: nat, k: nat): nat {
    if k == 0 then 0 else NextBucket(Jump(key, k - 1), KeyAt(key, k))
  }

  lemma JumpIncreases(key: nat, k: nat)
    ensures Jump(key, k) < Jump(key, k + 1)
  {
    BucketsIncrease(Jump(key, k), KeyAt(key, k + 1));
  }

  /** The last candidate below n, searching from the k-th. */
  function HomeFrom(key: nat, k: nat, n: nat): (b: nat)
    requires Jump(key, k) < n
    ensures Jump(key, k) <= b < n
    decreases n - Jump(key, k)
  {
    JumpIncreases(key, k);
    if Jump(key, k + 1) >= n then Jump(key, k) else HomeFrom(key, k + 1, n)
  }

  /** The bucket of key among n buckets. */
  function Home(key: nat, n: nat): (b: nat)
    requires n > 0
    ensures b < n
  {
    HomeFrom(key, 0, n)
  }

  method Hash(key: nat, n: int) returns (b: int)
    ensures n <= 0 ==> b == -1
    ensures n > 0 ==> b == Home(key, n)
  {
    hide NextKey, NextBucket;
    b := -1;
    var j: nat, x: nat := 0, key;
    ghost var k: nat := 0;
    while j < n
      invariant x == KeyAt(key, k) && j == Jump(key, k)
      invariant b == -1 ==> k == 0
      invariant b != -1 ==> k > 0 && b == Jump(key, k - 1) < n
      invariant n > 0 && j < n ==> HomeFrom(key, k, n) == Home(key, n)
      invariant n > 0 && j >= n ==> b == Home(key, n)
      invariant n <= 0 ==> b == -1
      decreases n - j
    {
      b := j;
      x := NextKey(x);
      j := NextBucket(b, x);
      JumpIncreases(key, k);
      k := k + 1;
    }
  }

  /** Which worker a key goes to; the checksum of its UTF-8 form seeds the hash. */
  method StableWorkerIndex(crc: string -> nat, key: string, n: nat) returns (i: nat)
    ensures i == WorkerOf(crc, key, n)
  {
    if n <= 1 {
      return 0;
    }
    var b := Hash(crc(key), n);
    i := b;
  }

  function WorkerOf(crc: string -> nat, key: string, n: nat): (i: nat)
    ensures n > 0 ==> i < n
  {
    if n <= 1 then 0 else Home(crc(key), n)
  }

  // ----- growing the pool -----

  lemma {:induction false} HomeFromGrows(key: nat, k: nat, n: nat, m: nat)
    requires Jump(key, k) < n <= m
    ensures HomeFrom(key, k, m) == HomeFrom(key, k, n) || HomeFrom(key, k, m) >= n
    decreases n - Jump(key, k)
  {
    JumpIncreases(key, k);
    if Jump(key, k + 1) < n {
      HomeFromGrows(key, k + 1, n, m);
    }
  }

  /** Adding workers leaves a key where it is or moves it to an added worker. */
  lemma GrowingOnlyMovesToNewWorkers(crc: string -> nat, key: string, n: nat, m: nat)
    requires 0 < n <= m
    ensures WorkerOf(crc, key, m) == WorkerOf(crc, key, n) || WorkerOf(crc, key, m) >= n
    ensures m == n + 1 ==> WorkerOf(crc, key, m) == WorkerOf(crc, key, n) || WorkerOf(crc, key, m) == n
  {
    HomeFromGrows(crc(key), 0, n, m);
  }

  /** The worker is the last candidate below n, and it is the only such candidate. */
  lemma {:induction false} HomeIsLastCandidate(key: nat, k: nat, n: nat) returns (i: nat)
    requires Jump(key, k) < n
    ensures i >= k && HomeFrom(key, k, n) == Jump(key, i) < n <= Jump(key, i + 1)
    decreases n - Jump(key, k)
  {
    JumpIncreases(key, k);
    if Jump(key, k + 1) >= n {
      i := k;
    } else {
      i := HomeIsLastCandidate(key, k + 1, n);
    }
  }
}
