/**
 * The byte-rate token bucket (`src/ratelimit.rs`): what a whole run of calls
 * can be granted, against the rate and the burst the bucket was built with.
 */
module RateLimit {
  import opened Common

  const U64_MAX: nat := 0xFFFF_FFFF_FFFF_FFFF

  type u64 = x: int | 0 <= x <= 0xFFFF_FFFF_FFFF_FFFF

  function SaturatingAdd(a: u64, b: u64): u64 {
    Min(a + b, U64_MAX)
  }

  function SaturatingMul(a: u64, b: u64): u64 {
    assert 0 <= a * b;
    Min(a * b, U64_MAX)
  }

  function Clamp(x: u64, lo: u64, hi: u64): u64 {
    Max(lo, Min(x, hi))
  }

  datatype Policy = Standard | UploadTight

  /** Upload tolerance, in half percents of the rate. */
  function Tolerance(rate: u64): (t: u64)
    ensures 2 <= t <= 20
  {
    var kb := rate / 1024;
    if kb < 100 then 20 else Max(Max(20 - (kb - 100) / 50, 0), 2)
  }

  function BurstCapacity(rate: u64, policy: Policy): u64 {
    if rate == 0 then U64_MAX
    else match policy
      case Standard => Clamp(rate, 64 * 1024, 8 * 1024 * 1024)
      case UploadTight => Clamp(SaturatingMul(rate, Tolerance(rate)) / 200, 4 * 1024, 1024 * 1024)
  }

  datatype Bucket = Bucket(capacity: u64, tokens: u64, rate: u64, policy: Policy, last: u64)

  function Fresh(rate: u64, policy: Policy, now: u64): Bucket {
    Bucket(BurstCapacity(rate, policy), BurstCapacity(rate, policy), rate, policy, now)
  }

  function Refilled(b: Bucket, now: u64): Bucket {
    if b.rate == 0 || now <= b.last then b
    else
      var add := SaturatingMul(now - b.last, b.rate) / 1000;
      b.(tokens := Min(b.capacity, SaturatingAdd(b.tokens, add)), last := now)
  }

  datatype Call = Consume(want: u64, at: u64) | Available(at: u64) | SetRate(rate: u64, at: u64)

  function Granted(b: Bucket, c: Call): u64 {
    match c
    case Consume(want, now) => if b.rate == 0 then want else Min(want, Refilled(b, now).tokens)
    case _ => 0
  }

  function After(b: Bucket, c: Call): Bucket {
    match c
    case Consume(want, now) =>
      if b.rate == 0 then b
      else var f := Refilled(b, now); f.(tokens := f.tokens - Min(want, f.tokens))
    case Available(now) => Refilled(b, now)
    case SetRate(rate, now) =>
      var capacity := BurstCapacity(rate, b.policy);
      Bucket(capacity, Min(Refilled(b, now).tokens, capacity), rate, b.policy, Refilled(b, now).last)
  }

  /** The bucket after a run of calls, and the bytes the run was granted. */
  function RunEnd(b: Bucket, run: seq<Call>): Bucket
    decreases |run|
  {
    if run == [] then b else RunEnd(After(b, run[0]), run[1..])
  }

  function RunGranted(b: Bucket, run: seq<Call>): nat
    decreases |run|
  {
    if run == [] then 0 else Granted(b, run[0]) + RunGranted(After(b, run[0]), run[1..])
  }

  predicate Sound(b: Bucket) {
    b.capacity == BurstCapacity(b.rate, b.policy) && b.tokens <= b.capacity
  }

  lemma {:induction false} RunKeepsSound(b: Bucket, run: seq<Call>)
    requires Sound(b)
    ensures Sound(RunEnd(b, run)) && RunEnd(b, run).policy == b.policy
    decreases |run|
  {
    hide BurstCapacity;
    if run != [] {
      RunKeepsSound(After(b, run[0]), run[1..]);
    }
  }

  predicate Within(run: seq<Call>, t0: nat, t1: nat) {
    forall i :: 0 <= i < |run| ==> !run[i].SetRate? && t0 <= run[i].at <= t1
  }

  /** What `ms` milliseconds at a rate are worth, in thousandths of a byte. */
  function Worth(rate: nat, ms: nat): nat {
    rate * ms
  }

  lemma WorthAdds(rate: nat, a: nat, b: nat)
    ensures Worth(rate, a + b) == Worth(rate, a) + Worth(rate, b)
  {
  }

  lemma RefillIsBounded(b: Bucket, now: u64)
    requires b.rate > 0 && b.tokens <= b.capacity && now > b.last
    ensures 1000 * (Refilled(b, now).tokens - b.tokens) <= Worth(b.rate, now - b.last)
  {
    var owed := Worth(b.rate, now - b.last);
    assert SaturatingMul(now - b.last, b.rate) <= owed;
    hide Worth, SaturatingMul;
  }

  /** One call moves tokens to the caller and gains no more than the elapsed time is worth. */
  lemma CallIsBounded(b: Bucket, c: Call)
    requires b.rate > 0 && b.tokens <= b.capacity && !c.SetRate?
    ensures var b' := After(b, c);
            && b'.rate == b.rate && b'.capacity == b.capacity && b'.policy == b.policy
            && b'.last == Max(b.last, c.at)
            && b'.tokens + Granted(b, c) <= b.capacity
            && 1000 * (b'.tokens + Granted(b, c) - b.tokens) <= Worth(b.rate, b'.last - b.last)
  {
    if c.at > b.last {
      RefillIsBounded(b, c.at);
      hide Worth, SaturatingMul;
    }
  }

  /** The bound from a bucket whose last refill is inside the window. */
  lemma {:induction false} BoundFrom(b: Bucket, run: seq<Call>, t1: nat)
    requires b.rate > 0 && b.tokens <= b.capacity && b.last <= t1
    requires Within(run, 0, t1)
    ensures 1000 * RunGranted(b, run) <= 1000 * b.tokens + Worth(b.rate, t1 - b.last)
    decreases |run|
  {
    hide Worth, After, Granted;
    if run != [] {
      var c, rest := run[0], run[1..];
      var b' := After(b, c);
      assert Within(rest, 0, t1);
      CallIsBounded(b, c);
      BoundFrom(b', rest, t1);
      WorthAdds(b.rate, b'.last - b.last, t1 - b'.last);
    }
  }

  /** With a clock that lags the last refill, only what is left can be granted. */
  lemma {:induction false} NothingNew(b: Bucket, run: seq<Call>, t1: nat)
    requires b.rate > 0 && b.tokens <= b.capacity && t1 <= b.last
    requires Within(run, 0, t1)
    ensures RunGranted(b, run) <= b.tokens
    decreases |run|
  {
    if run != [] {
      assert Within(run[1..], 0, t1);
      NothingNew(After(b, run[0]), run[1..], t1);
    }
  }

  lemma FirstCallRefills(b: Bucket, run: seq<Call>, t0: nat, t1: nat)
    requires b.rate > 0 && b.tokens <= b.capacity && b.last < t0 <= t1
    requires run != [] && Within(run, t0, t1)
    ensures 1000 * RunGranted(b, run) <= 1000 * b.capacity + Worth(b.rate, t1 - t0)
  {
    hide Worth, After, Granted;
    var c, rest := run[0], run[1..];
    var b' := After(b, c);
    assert Within(rest, 0, t1);
    CallIsBounded(b, c);
    BoundFrom(b', rest, t1);
    WorthAdds(b.rate, t1 - c.at, c.at - t0);
  }

  /**
   * Whatever happened before, and whatever the calls ask, the calls made
   * between t0 and t1 are granted at most one burst plus the time's worth.
   */
  lemma WindowIsBounded(before: Bucket, history: seq<Call>, run: seq<Call>, t0: nat, t1: nat)
    requires Sound(before) && RunEnd(before, history).rate > 0
    requires t0 <= t1 && Within(run, t0, t1)
    ensures var b := RunEnd(before, history);
            1000 * RunGranted(b, run) <= 1000 * BurstCapacity(b.rate, b.policy) + Worth(b.rate, t1 - t0)
  {
    hide BurstCapacity, Worth, RunEnd, After, Granted;
    RunKeepsSound(before, history);
    var b := RunEnd(before, history);
    if run != [] {
      assert Within(run, 0, t1);
      if t1 <= b.last {
        NothingNew(b, run, t1);
      } else if t0 <= b.last {
        BoundFrom(b, run, t1);
        WorthAdds(b.rate, t1 - b.last, b.last - t0);
      } else {
        FirstCallRefills(b, run, t0, t1);
      }
    }
  }

  // ---------------------------------------------------------------------
  // What rounding loses
  // ---------------------------------------------------------------------

  predicate Capped(b: Bucket, now: u64) {
    b.rate > 0 && now > b.last && Refilled(b, now).tokens == b.capacity
  }

  /** A refill that does not fill the bucket falls short of the elapsed time by less than one byte. */
  lemma RefillLosesLessThanAByte(b: Bucket, now: u64)
    requires Sound(b) && b.rate > 0 && now > b.last && !Capped(b, now)
    ensures var gain := Refilled(b, now).tokens - b.tokens;
            Worth(b.rate, now - b.last) - 1000 < 1000 * gain <= Worth(b.rate, now - b.last)
  {
    hide Worth, SaturatingMul, BurstCapacity;
    CapacityIsSmall(b.rate, b.policy);
    SaturatedWorth(b.rate, now - b.last);
  }

  lemma CapacityIsSmall(rate: u64, policy: Policy)
    requires rate > 0
    ensures BurstCapacity(rate, policy) <= 8 * 1024 * 1024
  {
  }

  lemma SaturatedWorth(rate: u64, ms: u64)
    ensures SaturatingMul(ms, rate) == Min(Worth(rate, ms), U64_MAX)
  {
    assert ms * rate == rate * ms;
  }

  /** The bucket never fills up along the run. */
  predicate NeverFull(b: Bucket, run: seq<Call>)
    decreases |run|
  {
    run == [] || (!Capped(b, run[0].at) && NeverFull(After(b, run[0]), run[1..]))
  }

  /**
   * As long as the bucket never fills, everything the elapsed time is worth is
   * granted or still there, but for less than one byte per call.
   */
  lemma {:induction false} RunIsExact(b: Bucket, run: seq<Call>, t1: nat)
    requires Sound(b) && b.rate > 0 && Within(run, 0, t1) && NeverFull(b, run)
    ensures var e := RunEnd(b, run);
            && e.last >= b.last
            && 1000 * (RunGranted(b, run) + e.tokens - b.tokens) <= Worth(b.rate, e.last - b.last)
            && 1000 * (RunGranted(b, run) + e.tokens - b.tokens) >= Worth(b.rate, e.last - b.last) - 1000 * |run|
    decreases |run|
  {
    hide BurstCapacity, Worth, After, Granted, Refilled;
    if run == [] {
      WorthAdds(b.rate, 0, 0);
    } else {
      var c, rest := run[0], run[1..];
      var b' := After(b, c);
      assert Within(rest, 0, t1);
      CallIsBounded(b, c);
      CallLosesLittle(b, c);
      RunIsExact(b', rest, t1);
      WorthAdds(b.rate, b'.last - b.last, RunEnd(b', rest).last - b'.last);
    }
  }

  lemma CallLosesLittle(b: Bucket, c: Call)
    requires Sound(b) && b.rate > 0 && !c.SetRate? && !Capped(b, c.at)
    ensures var b' := After(b, c);
            && Sound(b') && b'.last >= b.last
            && 1000 * (b'.tokens + Granted(b, c) - b.tokens) >= Worth(b.rate, b'.last - b.last) - 1000
  {
    hide BurstCapacity;
    if c.at > b.last {
      RefillLosesLessThanAByte(b, c.at);
    }
  }

  // ---------------------------------------------------------------------
  // The bucket as the program keeps it
  // ---------------------------------------------------------------------

  class TokenBucket {
    var capacity: u64
    var tokens: u64
    var rate: u64
    const policy: Policy
    var last: u64

    ghost function View(): Bucket
      reads this
    {
      Bucket(capacity, tokens, rate, policy, last)
    }

    constructor (rate: u64, policy: Policy, now: u64)
      ensures View() == Fresh(rate, policy, now) && Sound(View())
    {
      capacity := BurstCapacity(rate, policy);
      tokens := BurstCapacity(rate, policy);
      this.rate, this.policy, last := rate, policy, now;
    }

    method Refill(now: u64)
      modifies this
      ensures View() == Refilled(old(View()), now)
    {
      if rate == 0 || now <= last {
        return;
      }
      var dt := now - last;
      var add := SaturatingMul(dt, rate) / 1000;
      tokens := Min(capacity, SaturatingAdd(tokens, add));
      last := now;
    }

    method ChangeRate(newRate: u64, now: u64)
      modifies this
      ensures View() == After(old(View()), SetRate(newRate, now))
      ensures old(Sound(View())) ==> Sound(View())
    {
      Refill(now);
      capacity := BurstCapacity(newRate, policy);
      tokens := Min(tokens, capacity);
      rate := newRate;
    }

    method Spendable(now: u64) returns (n: u64)
      modifies this
      ensures View() == After(old(View()), Available(now))
      ensures n == if rate == 0 then U64_MAX else tokens
      ensures old(Sound(View())) ==> Sound(View())
    {
      if rate == 0 {
        return U64_MAX;
      }
      Refill(now);
      n := tokens;
    }

    method Spend(want: u64, now: u64) returns (take: u64)
      modifies this
      ensures View() == After(old(View()), Consume(want, now))
      ensures take == Granted(old(View()), Consume(want, now)) <= want
      ensures old(Sound(View())) ==> Sound(View())
    {
      if rate == 0 {
        return want;
      }
      Refill(now);
      take := Min(want, tokens);
      tokens := tokens - take;
    }
  }
}
