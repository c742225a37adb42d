/**
 * The upload ceiling of the token bucket (`src/ratelimit.rs`): no second gets
 * more than the rate and its tolerance, exactly from 40951 bytes a second on.
 */
module RateCeiling {
  import opened Common
  import opened RateLimit

  predicate InSecond(run: seq<Call>, t0: nat) {
    Within(run, t0, t0 + 1000)
  }

  predicate UnderCeiling(b: Bucket, run: seq<Call>) {
    200 * RunGranted(b, run) <= b.rate * (200 + Tolerance(b.rate))
  }

  /** At this rate no second of any sound upload bucket exceeds the ceiling. */
  ghost predicate KeepsCeiling(rate: u64) {
    forall b: Bucket, run: seq<Call>, t0: nat ::
      Sound(b) && b.policy == UploadTight && b.rate == rate && InSecond(run, t0) ==> UnderCeiling(b, run)
  }

  // ---------------------------------------------------------------------
  // Rates whose burst fits the tolerance
  // ---------------------------------------------------------------------

  lemma ToleranceCoversFloor(kb: nat, tol: nat)
    requires kb >= 100 && tol == Max(Max(20 - (kb - 100) / 50, 0), 2)
    ensures kb * tol >= 2000
  {
    var q := (kb - 100) / 50;
    if q < 18 {
      assert tol == 20 - q && kb >= 100 + 50 * q;
      FloorCovered(kb, q);
    } else {
      assert tol == 2 && kb >= 1000;
    }
  }

  lemma FloorCovered(kb: nat, q: nat)
    requires q < 18 && kb >= 100 + 50 * q
    ensures kb * (20 - q) >= 2000
  {
    assert kb * (20 - q) >= (100 + 50 * q) * (20 - q);
    assert (100 + 50 * q) * (20 - q) == 2000 + 50 * (q * (18 - q));
    assert q * (18 - q) >= 0;
  }

  /** The burst stays inside the tolerance exactly from 40960 bytes a second on. */
  lemma BurstFits(rate: u64)
    requires rate > 0
    ensures 200 * BurstCapacity(rate, UploadTight) <= rate * Tolerance(rate) <==> rate >= 40960
  {
    var tol := Tolerance(rate);
    var kb := rate / 1024;
    if kb >= 100 {
      ToleranceCoversFloor(kb, tol);
      assert rate * tol >= (1024 * kb) * tol == 1024 * (kb * tol);
      assert rate * tol >= 2_048_000;
    } else {
      assert tol == 20;
    }
  }

  lemma FastKeepsCeiling(b: Bucket, run: seq<Call>, t0: nat)
    requires Sound(b) && b.policy == UploadTight && b.rate >= 40960 && InSecond(run, t0)
    ensures UnderCeiling(b, run)
  {
    hide BurstCapacity, Tolerance, RunGranted;
    WindowIsBounded(b, [], run, t0, t0 + 1000);
    BurstFits(b.rate);
    CeilingSplits(b.rate, Tolerance(b.rate));
    assert Worth(b.rate, 1000) == 1000 * b.rate;
    hide Worth;
  }

  lemma CeilingSplits(rate: nat, tol: nat)
    ensures rate * (200 + tol) == 200 * rate + rate * tol
  {
  }

  lemma SlowBurst(rate: u64)
    requires 0 < rate < 40960
    ensures BurstCapacity(rate, UploadTight) == 4096 && Tolerance(rate) == 20
  {
  }

  // ---------------------------------------------------------------------
  // Rates that lose a fraction whenever they refill
  // ---------------------------------------------------------------------

  lemma NoMultiple(k: nat, ms: nat, m: nat)
    requires 41 <= k <= 49 && 1 <= ms <= 100 && 1 <= m <= 4
    ensures k * ms != 1000 * m
  {
    if k == 41 {
      assert 41 * ms != 1000 && 41 * ms != 2000 && 41 * ms != 3000 && 41 * ms != 4000;
    } else if k == 42 {
      assert 42 * ms != 1000 && 42 * ms != 2000 && 42 * ms != 3000 && 42 * ms != 4000;
    } else if k == 43 {
      assert 43 * ms != 1000 && 43 * ms != 2000 && 43 * ms != 3000 && 43 * ms != 4000;
    } else if k == 44 {
      assert 44 * ms != 1000 && 44 * ms != 2000 && 44 * ms != 3000 && 44 * ms != 4000;
    } else if k == 45 {
      assert 45 * ms != 1000 && 45 * ms != 2000 && 45 * ms != 3000 && 45 * ms != 4000;
    } else if k == 46 {
      assert 46 * ms != 1000 && 46 * ms != 2000 && 46 * ms != 3000 && 46 * ms != 4000;
    } else if k == 47 {
      assert 47 * ms != 1000 && 47 * ms != 2000 && 47 * ms != 3000 && 47 * ms != 4000;
    } else if k == 48 {
      assert 48 * ms != 1000 && 48 * ms != 2000 && 48 * ms != 3000 && 48 * ms != 4000;
    } else if k == 49 {
      assert 49 * ms != 1000 && 49 * ms != 2000 && 49 * ms != 3000 && 49 * ms != 4000;
    }
  }

  /** At these rates no stretch of up to 100 ms is worth a whole number of bytes. */
  lemma NeverWhole(rate: nat, ms: nat)
    requires 40951 <= rate <= 40959 && 1 <= ms <= 100
    ensures Worth(rate, ms) % 1000 != 0
  {
    var k, w := 41000 - rate, Worth(rate, ms);
    assert w == 41000 * ms - k * ms;
    assert 41 <= k * ms <= 4900;
    if w % 1000 == 0 {
      NoMultiple(k, ms, 41 * ms - w / 1000);
    }
  }

  lemma LongWorth(rate: nat, ms: nat)
    requires rate >= 40951 && ms >= 101
    ensures Worth(rate, ms) > 4096 * 1000
  {
    assert rate * ms >= rate * 101;
  }

  /** So every refill falls short: by a fraction up to 100 ms, by the cap from there on. */
  lemma RefillFallsShort(b: Bucket, now: u64)
    requires 40951 <= b.rate <= 40959 && b.tokens <= b.capacity == 4096 && now > b.last
    ensures 1000 * (Refilled(b, now).tokens - b.tokens) < Worth(b.rate, now - b.last)
  {
    hide Worth, SaturatingMul;
    var ms := now - b.last;
    SaturatedWorth(b.rate, ms);
    if ms <= 100 {
      NeverWhole(b.rate, ms);
    } else {
      LongWorth(b.rate, ms);
    }
  }

  lemma TimeIsWorth(rate: nat, ms: nat)
    requires rate > 0 && ms > 0
    ensures Worth(rate, ms) > 0
  {
  }

  /** A stretch of time is never used to the full. */
  lemma {:induction false} FallsShort(b: Bucket, run: seq<Call>, t1: nat)
    requires 40951 <= b.rate <= 40959 && b.tokens <= b.capacity == 4096 && b.last < t1
    requires Within(run, 0, t1)
    ensures 1000 * RunGranted(b, run) < 1000 * b.tokens + Worth(b.rate, t1 - b.last)
    decreases |run|
  {
    hide Worth, After, Granted;
    if run == [] {
      TimeIsWorth(b.rate, t1 - b.last);
    } else {
      var c, rest := run[0], run[1..];
      var b' := After(b, c);
      assert Within(rest, 0, t1);
      CallIsBounded(b, c);
      if c.at > b.last {
        CallFallsShort(b, c);
      }
      WorthAdds(b.rate, b'.last - b.last, t1 - b'.last);
      if b'.last < t1 {
        FallsShort(b', rest, t1);
      } else {
        BoundFrom(b', rest, t1);
      }
    }
  }

  lemma CallFallsShort(b: Bucket, c: Call)
    requires 40951 <= b.rate <= 40959 && b.tokens <= b.capacity == 4096 && !c.SetRate? && c.at > b.last
    ensures 1000 * (After(b, c).tokens + Granted(b, c) - b.tokens) < Worth(b.rate, c.at - b.last)
  {
    RefillFallsShort(b, c.at);
    hide Worth, Refilled;
  }

  /** No second of such a bucket gets a whole burst and a whole second's worth. */
  lemma SecondFallsShort(b: Bucket, run: seq<Call>, t0: nat)
    requires 40951 <= b.rate <= 40959 && b.tokens <= b.capacity == 4096 && InSecond(run, t0)
    ensures RunGranted(b, run) < 4096 + b.rate
  {
    var t1 := t0 + 1000;
    assert Within(run, 0, t1) && Worth(b.rate, 1000) == 1000 * b.rate;
    if run == [] {
    } else if t1 <= b.last {
      NothingNew(b, run, t1);
    } else if t0 <= b.last {
      hide Worth;
      FallsShort(b, run, t1);
      WorthAdds(b.rate, t1 - b.last, b.last - t0);
    } else {
      SecondFromFull(b, run, t0);
    }
  }

  lemma SecondFromFull(b: Bucket, run: seq<Call>, t0: nat)
    requires 40951 <= b.rate <= 40959 && b.tokens <= b.capacity == 4096 && InSecond(run, t0)
    requires run != [] && b.last < t0
    ensures RunGranted(b, run) < 4096 + b.rate
  {
    var t1 := t0 + 1000;
    var c, rest := run[0], run[1..];
    var b' := After(b, c);
    assert Within(rest, 0, t1) && Worth(b.rate, 1000) == 1000 * b.rate;
    CallIsBounded(b, c);
    hide Worth, After, Granted;
    if c.at < t1 {
      FallsShort(b', rest, t1);
      WorthAdds(b.rate, t1 - c.at, c.at - t0);
    } else {
      NothingNew(b', rest, t1);
    }
  }

  lemma AwkwardKeepsCeiling(b: Bucket, run: seq<Call>, t0: nat)
    requires Sound(b) && b.policy == UploadTight && 40951 <= b.rate <= 40959 && InSecond(run, t0)
    ensures UnderCeiling(b, run)
  {
    SlowBurst(b.rate);
    hide BurstCapacity, Tolerance, RunGranted;
    SecondFallsShort(b, run, t0);
  }

  /** After any history, no second exceeds the rate by more than its tolerance. */
  lemma UploadCeiling(before: Bucket, history: seq<Call>, run: seq<Call>, t0: nat)
    requires Sound(before) && before.policy == UploadTight
    requires RunEnd(before, history).rate >= 40951
    requires InSecond(run, t0)
    ensures UnderCeiling(RunEnd(before, history), run)
  {
    hide Sound, UnderCeiling, InSecond, RunEnd;
    RunKeepsSound(before, history);
    var b := RunEnd(before, history);
    if b.rate >= 40960 {
      FastKeepsCeiling(b, run, t0);
    } else {
      AwkwardKeepsCeiling(b, run, t0);
    }
  }

  // ---------------------------------------------------------------------
  // Rates that break the ceiling
  // ---------------------------------------------------------------------

  /** Ask for everything at t, then every `step` ms, n times in all, and once more at `end`. */
  function Paced(t: nat, step: nat, n: nat, end: u64): seq<Call>
    decreases n
  {
    if n == 0 then [Consume(U64_MAX, end)]
    else [Consume(U64_MAX, Min(t, end))] + Paced(t + step, step, n - 1, end)
  }

  lemma {:induction false} PacedWithin(t0: nat, t: nat, step: nat, n: nat, end: u64)
    requires t0 <= t && t0 <= end
    ensures Within(Paced(t, step, n, end), t0, end)
    decreases n
  {
    if n > 0 {
      PacedWithin(t0, t + step, step, n - 1, end);
    }
  }

  function Share(rate: nat, ms: nat): nat {
    ms * rate / 1000
  }

  /** A tenth of a second is worth less than the burst. */
  lemma ShareFits(rate: u64, ms: u64)
    requires rate < 40960 && ms <= 100
    ensures SaturatingMul(ms, rate) / 1000 == Share(rate, ms) < 4096
  {
    assert 0 <= ms * rate <= 100 * rate;
  }

  lemma EmptyRefills(b: Bucket, now: u64)
    requires b.tokens == 0 && 0 < b.rate < 40960 && b.capacity == 4096
    requires b.last <= now <= b.last + 100
    ensures Refilled(b, now) == b.(tokens := Share(b.rate, now - b.last), last := now)
  {
    ShareFits(b.rate, now - b.last);
    hide SaturatingMul;
    if now == b.last {
      assert Share(b.rate, 0) == 0;
    }
    hide Share;
  }

  /** An empty bucket asked for everything gives the share of the time since, if that fits. */
  lemma DrainedGives(b: Bucket, now: u64)
    requires b.tokens == 0 && 0 < b.rate < 40960 && b.capacity == 4096
    requires b.last <= now <= b.last + 100
    ensures var c := Consume(U64_MAX, now);
            Granted(b, c) == Share(b.rate, now - b.last) && After(b, c) == b.(last := now)
  {
    hide Refilled, Share;
    EmptyRefills(b, now);
  }

  /** n equal amounts. */
  function Times(n: nat, x: nat): nat {
    if n == 0 then 0 else Times(n - 1, x) + x
  }

  lemma {:induction false} TimesIs(n: nat, x: nat)
    ensures Times(n, x) == n * x
  {
    if n > 0 {
      TimesIs(n - 1, x);
      assert n * x == (n - 1) * x + x;
    }
  }

  /** What the schedule is granted from an empty bucket. */
  lemma {:induction false} PacedGets(b: Bucket, step: nat, n: nat, rest: nat, end: u64)
    requires b.tokens == 0 && 0 < b.rate < 40960 && b.capacity == 4096
    requires step <= 100 && rest <= 100 && end == b.last + Times(n, step) + rest
    ensures RunGranted(b, Paced(b.last + step, step, n, end)) == Times(n, Share(b.rate, step)) + Share(b.rate, rest)
    decreases n
  {
    hide After, Granted, Share;
    var run := Paced(b.last + step, step, n, end);
    if n == 0 {
      DrainedGives(b, end);
      assert run[1..] == [];
      assert RunGranted(After(b, run[0]), run[1..]) == 0;
    } else {
      var b' := b.(last := b.last + step);
      DrainedGives(b, b.last + step);
      assert run[0] == Consume(U64_MAX, b'.last) && run[1..] == Paced(b'.last + step, step, n - 1, end);
      hide Paced;
      PacedGets(b', step, n - 1, rest, end);
    }
  }

  /** A step in milliseconds whose rounding loses little enough at the rate. */
  function StepFor(rate: nat): (a: nat)
    ensures a in {100, 96, 94, 91, 90, 58, 53, 35, 17}
  {
    if rate in {40879, 40888, 40889, 40897, 40898, 40899, 40906, 40907, 40908, 40909, 40915, 40916, 40917, 40918, 40919,
                40926, 40927, 40928, 40937, 40938, 40947} then 94
    else if rate in {40924, 40925, 40934, 40935, 40945} then 90
    else if rate in {40929, 40939, 40948} then 96
    else if rate in {40933, 40949} then 58
    else if rate in {40936, 40946} then 91
    else if rate == 40942 then 17
    else if rate == 40943 then 35
    else if rate == 40944 then 53
    else 100
  }

  /** A full bucket and a second of steps of `a` ms: more than the rate and a tenth. */
  predicate Wins(rate: nat, a: nat)
    requires a > 0
  {
    10 * (4096 + (1000 / a) * Share(rate, a) + Share(rate, 1000 % a)) > 11 * rate
  }

  /** The losses of a schedule from its quotients. */
  lemma WinsBy(rate: nat, a: nat, n: nat, c: nat, x: nat, y: nat)
    requires a > 0 && n == 1000 / a && c == 1000 % a
    requires 1000 * x <= a * rate < 1000 * x + 1000 && 1000 * y <= c * rate < 1000 * y + 1000
    requires 10 * (4096 + n * x + y) > 11 * rate
    ensures Wins(rate, a)
  {
    assert Share(rate, a) == x && Share(rate, c) == y;
  }

  lemma TableA()
    ensures Wins(40879, 94) && Wins(40888, 94) && Wins(40889, 94)
    ensures Wins(40897, 94) && Wins(40898, 94) && Wins(40899, 94)
  {
    hide Wins;
    WinsBy(40879, 94, 10, 60, 3842, 2452);
    WinsBy(40888, 94, 10, 60, 3843, 2453);
    WinsBy(40889, 94, 10, 60, 3843, 2453);
    WinsBy(40897, 94, 10, 60, 3844, 2453);
    WinsBy(40898, 94, 10, 60, 3844, 2453);
    WinsBy(40899, 94, 10, 60, 3844, 2453);
  }

  lemma TableB()
    ensures Wins(40906, 94) && Wins(40907, 94) && Wins(40908, 94)
    ensures Wins(40909, 94) && Wins(40915, 94) && Wins(40916, 94)
  {
    hide Wins;
    WinsBy(40906, 94, 10, 60, 3845, 2454);
    WinsBy(40907, 94, 10, 60, 3845, 2454);
    WinsBy(40908, 94, 10, 60, 3845, 2454);
    WinsBy(40909, 94, 10, 60, 3845, 2454);
    WinsBy(40915, 94, 10, 60, 3846, 2454);
    WinsBy(40916, 94, 10, 60, 3846, 2454);
  }

  lemma TableC()
    ensures Wins(40917, 94) && Wins(40918, 94) && Wins(40919, 94)
    ensures Wins(40926, 94) && Wins(40927, 94) && Wins(40928, 94)
  {
    hide Wins;
    WinsBy(40917, 94, 10, 60, 3846, 2455);
    WinsBy(40918, 94, 10, 60, 3846, 2455);
    WinsBy(40919, 94, 10, 60, 3846, 2455);
    WinsBy(40926, 94, 10, 60, 3847, 2455);
    WinsBy(40927, 94, 10, 60, 3847, 2455);
    WinsBy(40928, 94, 10, 60, 3847, 2455);
  }

  lemma TableD()
    ensures Wins(40937, 94) && Wins(40938, 94) && Wins(40947, 94)
    ensures Wins(40924, 90) && Wins(40925, 90) && Wins(40934, 90)
  {
    hide Wins;
    WinsBy(40937, 94, 10, 60, 3848, 2456);
    WinsBy(40938, 94, 10, 60, 3848, 2456);
    WinsBy(40947, 94, 10, 60, 3849, 2456);
    WinsBy(40924, 90, 11, 10, 3683, 409);
    WinsBy(40925, 90, 11, 10, 3683, 409);
    WinsBy(40934, 90, 11, 10, 3684, 409);
  }

  lemma TableE()
    ensures Wins(40935, 90) && Wins(40945, 90) && Wins(40929, 96)
    ensures Wins(40939, 96) && Wins(40948, 96) && Wins(40933, 58)
  {
    hide Wins;
    WinsBy(40935, 90, 11, 10, 3684, 409);
    WinsBy(40945, 90, 11, 10, 3685, 409);
    WinsBy(40929, 96, 10, 40, 3929, 1637);
    WinsBy(40939, 96, 10, 40, 3930, 1637);
    WinsBy(40948, 96, 10, 40, 3931, 1637);
    WinsBy(40933, 58, 17, 14, 2374, 573);
  }

  lemma TableF()
    ensures Wins(40949, 58) && Wins(40936, 91) && Wins(40946, 91)
    ensures Wins(40942, 17) && Wins(40943, 35) && Wins(40944, 53)
  {
    hide Wins;
    WinsBy(40949, 58, 17, 14, 2375, 573);
    WinsBy(40936, 91, 10, 90, 3725, 3684);
    WinsBy(40946, 91, 10, 90, 3726, 3685);
    WinsBy(40942, 17, 58, 14, 696, 573);
    WinsBy(40943, 35, 28, 20, 1433, 818);
    WinsBy(40944, 53, 18, 46, 2170, 1883);
  }

  lemma StepWins(rate: nat)
    requires 0 < rate < 40951
    ensures Wins(rate, StepFor(rate))
  {
    if StepFor(rate) == 100 {
      assert Share(rate, 100) == rate / 10 && Share(rate, 0) == 0;
      TenthWins(rate);
    } else {
      hide Wins, Share;
      TableA();
      TableB();
      TableC();
      TableD();
      TableE();
      TableF();
    }
  }

  lemma TenthWins(rate: nat)
    requires 0 < rate < 40951 && StepFor(rate) == 100
    ensures 10 * (4096 + 10 * (rate / 10)) > 11 * rate
  {
  }

  /** A full upload bucket that is asked for everything at each step of a second. */
  function Greedy(rate: nat, t0: nat): seq<Call>
    requires t0 + 1000 <= U64_MAX
  {
    Paced(t0, StepFor(rate), 1000 / StepFor(rate) + 1, t0 + 1000)
  }

  /**
   * Below 40951 bytes a second the 4 KiB floor breaks the ceiling: a caller
   * that keeps asking goes over it within one second.
   */
  lemma SlowUploadExceeds(rate: u64, t0: nat)
    requires 0 < rate < 40951 && t0 + 1000 <= U64_MAX
    ensures InSecond(Greedy(rate, t0), t0)
    ensures !UnderCeiling(Fresh(rate, UploadTight, t0), Greedy(rate, t0))
  {
    hide BurstCapacity, Tolerance, SaturatingMul, Share, Within, UnderCeiling, RunGranted, Times, Paced;
    var b := Fresh(rate, UploadTight, t0);
    var a := StepFor(rate);
    SlowBurst(rate);
    StepWins(rate);
    hide StepFor;
    PacedWithin(t0, t0, a, 1000 / a + 1, t0 + 1000);
    PacedSecond(b, a, 1000 / a, 1000 % a, t0);
    OverATenth(b, Greedy(rate, t0));
  }

  lemma PacedOpens(t: nat, a: nat, n: nat, end: u64)
    requires t <= end
    ensures var run := Paced(t, a, n + 1, end);
      run != [] && run[0] == Consume(U64_MAX, t) && run[1..] == Paced(t + a, a, n, end)
  {
  }

  /** What a full bucket gives when it is asked for everything at once and n times after that, and at the end. */
  lemma PacedSecond(b: Bucket, a: nat, n: nat, rest: nat, t0: nat)
    requires b.tokens == b.capacity == 4096 && 0 < b.rate < 40960 && b.last == t0 && t0 + 1000 <= U64_MAX
    requires a <= 100 && rest <= 100 && n * a + rest == 1000
    ensures RunGranted(b, Paced(t0, a, n + 1, t0 + 1000)) == 4096 + n * Share(b.rate, a) + Share(b.rate, rest)
  {
    hide Share, RunGranted, Times, Paced;
    var run := Paced(t0, a, n + 1, t0 + 1000);
    PacedOpens(t0, a, n, t0 + 1000);
    FullGives(b, run, t0);
    TimesIs(n, a);
    PacedGets(b.(tokens := 0), a, n, rest, t0 + 1000);
    TimesIs(n, Share(b.rate, a));
  }

  lemma OverATenth(b: Bucket, run: seq<Call>)
    requires Tolerance(b.rate) == 20 && 10 * RunGranted(b, run) > 11 * b.rate
    ensures !UnderCeiling(b, run)
  {
    hide Tolerance, RunGranted;
    assert b.rate * 220 == 20 * (11 * b.rate);
  }

  lemma FullGives(b: Bucket, run: seq<Call>, t0: nat)
    requires run != [] && b.tokens == b.capacity == 4096 && b.rate > 0 && b.last == t0
    requires t0 <= U64_MAX && run[0] == Consume(U64_MAX, t0)
    ensures RunGranted(b, run) == 4096 + RunGranted(b.(tokens := 0), run[1..])
  {
  }

  /** The ceiling is kept exactly from 40951 bytes a second on. */
  lemma CeilingIsExact(rate: u64)
    requires rate > 0
    ensures KeepsCeiling(rate) <==> rate >= 40951
  {
    hide UnderCeiling, InSecond, Sound;
    if rate >= 40951 {
      forall b: Bucket, run: seq<Call>, t0: nat |
        Sound(b) && b.policy == UploadTight && b.rate == rate && InSecond(run, t0)
        ensures UnderCeiling(b, run)
      {
        UploadCeiling(b, [], run, t0);
      }
    } else {
      SlowUploadExceeds(rate, 0);
      FreshIsSound(rate);
    }
  }

  lemma FreshIsSound(rate: u64)
    ensures var b := Fresh(rate, UploadTight, 0); Sound(b) && b.policy == UploadTight && b.rate == rate
  {
  }
}
