/**
 * Changing the rate of a token bucket (`src/ratelimit.rs`): no change hands
 * out anything, and what the burst and the tolerance are at each rate.
 */
module RateChange {
  import opened Common
  import opened RateLimit

  /** What the time between calls is worth along a run, each stretch at the rate then set. */
  ghost function Earned(b: Bucket, run: seq<Call>): int
    decreases |run|
  {
    if run == [] then 0
    else
      var b' := After(b, run[0]);
      b.rate * (b'.last - b.last) + Earned(b', run[1..])
  }

  /** The bucket is limited whenever it is called. */
  predicate Limited(b: Bucket, run: seq<Call>)
    decreases |run|
  {
    run == [] || (b.rate > 0 && Limited(After(b, run[0]), run[1..]))
  }

  lemma AnyCallIsBounded(b: Bucket, c: Call)
    requires Sound(b) && b.rate > 0
    ensures var b' := After(b, c);
            && b'.last >= b.last && Sound(b')
            && 1000 * (b'.tokens + Granted(b, c) - b.tokens) <= b.rate * (b'.last - b.last)
  {
    if c.at > b.last {
      RefillIsBounded(b, c.at);
      assert Worth(b.rate, c.at - b.last) == b.rate * (c.at - b.last);
    }
    hide BurstCapacity, SaturatingMul, Worth;
  }

  /**
   * Through any calls and any changes of the rate, what was granted and what
   * is left is at most what was there and what the time was worth.
   */
  lemma {:induction false} RateChangesGiveNothing(b: Bucket, run: seq<Call>)
    requires Sound(b) && Limited(b, run)
    ensures 1000 * (RunGranted(b, run) + RunEnd(b, run).tokens) <= 1000 * b.tokens + Earned(b, run)
    decreases |run|
  {
    hide After, Granted, Sound;
    if run != [] {
      AnyCallIsBounded(b, run[0]);
      RateChangesGiveNothing(After(b, run[0]), run[1..]);
    }
  }

  /** A change of the rate keeps the tokens that fit the new burst, and takes effect from now on. */
  lemma RateChangeKeepsTokens(b: Bucket, rate: u64, now: u64)
    ensures var b' := After(b, SetRate(rate, now));
            && b'.rate == rate && b'.capacity == BurstCapacity(rate, b.policy)
            && (Refilled(b, now).tokens <= b'.capacity ==> b'.tokens == Refilled(b, now).tokens)
            && (Refilled(b, now).tokens > b'.capacity ==> b'.tokens == b'.capacity)
            && (b.rate > 0 && now > b.last ==> b'.last == now)
  {
    hide BurstCapacity, SaturatingMul;
  }

  /** Without a limit everything asked for is granted. */
  lemma UnlimitedGrantsAll(b: Bucket, run: seq<Call>, i: nat)
    requires b.rate == 0 && i < |run| && forall j :: 0 <= j < |run| ==> run[j].Consume?
    ensures RunEnd(b, run) == b
    ensures RunGranted(b, run) >= run[i].want
    decreases |run|
  {
    if run != [] {
      assert After(b, run[0]) == b;
      if i > 0 {
        UnlimitedGrantsAll(b, run[1..], i - 1);
      } else if |run| > 1 {
        UnlimitedGrantsAll(b, run[1..], 0);
      }
    }
  }

  /** Ten percent up to 150 KiB a second, half a percent less for each further 50 KiB, never under one percent. */
  lemma ToleranceFalls(rate: u64)
    ensures rate < 150 * 1024 ==> Tolerance(rate) == 20
    ensures rate >= 150 * 1024 ==> Tolerance(rate) == Max(Tolerance(rate - 50 * 1024) - 1, 2)
  {
    if rate >= 150 * 1024 {
      assert (rate - 50 * 1024) / 1024 == rate / 1024 - 50;
      assert (rate / 1024 - 50 - 100) / 50 == (rate / 1024 - 100) / 50 - 1;
    }
  }

  /** The standard burst is a second's worth, but at least 64 KiB and at most 8 MiB. */
  lemma StandardBurst(rate: u64)
    requires rate > 0
    ensures var b := BurstCapacity(rate, Standard);
            && 64 * 1024 <= b <= 8 * 1024 * 1024
            && (64 * 1024 <= rate <= 8 * 1024 * 1024 ==> b == rate)
            && (rate < 64 * 1024 ==> b == 64 * 1024) && (rate > 8 * 1024 * 1024 ==> b == 8 * 1024 * 1024)
  {
  }

  /** The upload burst is the tolerated part of a second's worth, but at least 4 KiB and at most 1 MiB. */
  lemma UploadBurst(rate: u64)
    requires rate > 0
    ensures var b := BurstCapacity(rate, UploadTight);
            && 4 * 1024 <= b <= 1024 * 1024
            && (200 * b <= rate * Tolerance(rate) || b == 4 * 1024)
            && (rate * Tolerance(rate) < 200 * b + 200 || b == 1024 * 1024)
  {
    var x := rate * Tolerance(rate);
    assert x >= 0;
    hide Tolerance;
  }
}
