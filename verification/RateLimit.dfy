/** The per-peer token bucket of src/ratelimit.rs, and the window policy it decides.
    Tokens and times are exact reals. */
module RateLimit {
  import opened ByteStrings

  /** One call of `allow`: the key, the limit the caller passes, and the clock read before the lock. */
  datatype Call = Call(key: Bytes, rate: nat, time: real)

  datatype Bucket = Bucket(tokens: real, last: real)

  // ---------------------------------------------------------------- the policy

  /** The time that passed, zero when the clock reads were taken out of order. */
  function Elapsed(earlier: real, later: real): real {
    if earlier < later then later - earlier else 0.0
  }

  /** Tokens earned in `time` at `rate` tokens per second: the product, written as a sum so that the
      proofs below stay linear. */
  function Earned(time: real, rate: nat): real {
    if rate == 0 then 0.0 else Earned(time, rate - 1) + time
  }

  lemma {:induction false} EarnedIsProduct(time: real, rate: nat)
    ensures Earned(time, rate) == time * rate as real
  {
    if rate > 0 {
      EarnedIsProduct(time, rate - 1);
      assert time * rate as real == time * (rate - 1) as real + time;
    }
  }

  lemma {:induction false} EarnedBounds(time: real, rate: nat)
    ensures time >= 0.0 ==> Earned(time, rate) >= 0.0
    ensures time == 0.0 ==> Earned(time, rate) == 0.0
    ensures time > 0.0 && rate > 0 ==> Earned(time, rate) > 0.0
  {
    if rate > 0 {
      EarnedBounds(time, rate - 1);
    }
  }

  /** What the n-th call of one key earns at its own rate since the call before it. */
  function Gain(h: seq<Call>, n: nat): real
    requires 0 < n < |h|
  {
    Earned(Elapsed(h[n - 1].time, h[n].time), h[n].rate)
  }

  /** The allowance of the window of calls i..n: the capacity at its first call plus all later gains. */
  function Budget(h: seq<Call>, i: nat, n: nat): real
    requires i <= n < |h|
    decreases n
  {
    if i == n then h[i].rate as real else Budget(h, i, n - 1) + Gain(h, n)
  }

  /** How many of the calls i..n-1 were admitted. */
  ghost function Spent(h: seq<Call>, i: nat, n: nat): nat
    requires i <= n <= |h|
    decreases n, 0
  {
    if i == n then 0 else Spent(h, i, n - 1) + if Admitted(h, n - 1) then 1 else 0
  }

  /** The policy: the n-th call fits into the allowance of every window that ends with it. */
  ghost predicate Admitted(h: seq<Call>, n: nat)
    requires n < |h|
    decreases n, 1
  {
    forall i: nat | i <= n :: Spent(h, i, n) as real + 1.0 <= Budget(h, i, n)
  }

  /** The calls that touch the bucket of `key`: rate zero means no limit and no bucket. */
  function Requests(history: seq<Call>, key: Bytes): (h: seq<Call>)
    ensures forall c | c in h :: c.key == key && c.rate > 0
  {
    if history == [] then []
    else
      var c := history[|history| - 1];
      Requests(history[..|history| - 1], key) + if c.key == key && c.rate > 0 then [c] else []
  }

  /** The answer the policy gives to `c` after any interleaved history of all keys. */
  ghost predicate Decides(history: seq<Call>, c: Call) {
    c.rate == 0 ||
    (var h := Requests(history, c.key);
     Admitted(h + [c], |h|))
  }

  // ---------------------------------------------------------------- the bucket

  function Min(a: real, b: real): real { if a < b then a else b }

  /** Tokens in the bucket at the n-th call of one key, after the refill. */
  function Level(h: seq<Call>, n: nat): real
    requires n < |h|
    decreases n, 0
  {
    if n == 0 then h[0].rate as real
    else Min(Left(h, n - 1) + Gain(h, n), h[n].rate as real)
  }

  /** Tokens left after the n-th call took its token, if there was one. */
  function Left(h: seq<Call>, n: nat): real
    requires n < |h|
    decreases n, 1
  {
    if Level(h, n) >= 1.0 then Level(h, n) - 1.0 else Level(h, n)
  }

  /** The refill of `allow`: a new bucket starts full; refilling stops at the caller's rate. */
  function Refill(b: Option<Bucket>, rate: nat, now: real): real {
    var start := if b.Some? then b.value else Bucket(rate as real, now);
    Min(start.tokens + Earned(Elapsed(start.last, now), rate), rate as real)
  }

  /** What `allow` does to one bucket: refill, then take a token if there is one. */
  function Serve(b: Option<Bucket>, rate: nat, now: real): (Bucket, bool) {
    var tokens := Refill(b, rate, now);
    if tokens >= 1.0 then (Bucket(tokens - 1.0, now), true) else (Bucket(tokens, now), false)
  }

  function Lookup(buckets: map<Bytes, Bucket>, key: Bytes): Option<Bucket> {
    if key in buckets then Some(buckets[key]) else None
  }

  /** One critical section of `allow` on the whole bucket map. */
  function Step(buckets: map<Bytes, Bucket>, c: Call): (map<Bytes, Bucket>, bool) {
    if c.rate == 0 then (buckets, true)
    else
      var (b, ok) := Serve(Lookup(buckets, c.key), c.rate, c.time);
      (buckets[c.key := b], ok)
  }

  function Run(history: seq<Call>): map<Bytes, Bucket> {
    if history == [] then map[] else Step(Run(history[..|history| - 1]), history[|history| - 1]).0
  }

  /** The answers of a fresh limiter to a whole interleaved history. */
  function Answers(history: seq<Call>): (a: seq<bool>)
    ensures |a| == |history|
  {
    if history == [] then []
    else
      var before := history[..|history| - 1];
      Answers(before) + [Step(Run(before), history[|history| - 1]).1]
  }

  // ---------------------------------------------------------------- exactness

  /** The level is the tightest of all windows ending here, so one comparison decides them all. */
  lemma {:induction false} LevelIsTightestWindow(h: seq<Call>, n: nat)
    requires n < |h|
    ensures forall i: nat | i <= n :: Level(h, n) <= Budget(h, i, n) - Spent(h, i, n) as real
    ensures exists i: nat | i <= n :: Level(h, n) == Budget(h, i, n) - Spent(h, i, n) as real
    ensures Admitted(h, n) <==> Level(h, n) >= 1.0
  {
    if n == 0 {
      assert Level(h, 0) == Budget(h, 0, 0) - Spent(h, 0, 0) as real;
    } else {
      LevelIsTightestWindow(h, n - 1);
      forall i: nat | i <= n
        ensures Level(h, n) <= Budget(h, i, n) - Spent(h, i, n) as real
      {
        if i < n {
          assert Level(h, n - 1) <= Budget(h, i, n - 1) - Spent(h, i, n - 1) as real;
        }
      }
      if Level(h, n) == h[n].rate as real {
        assert Level(h, n) == Budget(h, n, n) - Spent(h, n, n) as real;
      } else {
        var i: nat :| i <= n - 1 && Level(h, n - 1) == Budget(h, i, n - 1) - Spent(h, i, n - 1) as real;
        assert Level(h, n) == Budget(h, i, n) - Spent(h, i, n) as real;
      }
    }
    var i: nat :| i <= n && Level(h, n) == Budget(h, i, n) - Spent(h, i, n) as real;
    assert Admitted(h, n) ==> Spent(h, i, n) as real + 1.0 <= Budget(h, i, n);
  }

  lemma AdmittedByLevel(h: seq<Call>, n: nat)
    requires n < |h|
    ensures Admitted(h, n) <==> Level(h, n) >= 1.0
  {
    LevelIsTightestWindow(h, n);
  }

  /** Bucket invariant: never negative, never above the rate of the key's last limited call. */
  lemma {:induction false} LevelBounds(h: seq<Call>, n: nat)
    requires n < |h|
    ensures 0.0 <= Left(h, n) <= Level(h, n) <= h[n].rate as real
  {
    if n > 0 {
      LevelBounds(h, n - 1);
      EarnedBounds(Elapsed(h[n - 1].time, h[n].time), h[n].rate);
    }
  }

  lemma {:induction false} LevelOfPrefix(h: seq<Call>, more: seq<Call>, n: nat)
    requires n < |h|
    ensures Level(h + more, n) == Level(h, n) && Left(h + more, n) == Left(h, n)
  {
    if n > 0 {
      LevelOfPrefix(h, more, n - 1);
      assert Gain(h + more, n) == Gain(h, n);
    }
  }

  lemma {:induction false} SpentOfPrefix(h: seq<Call>, more: seq<Call>, i: nat, n: nat)
    requires i <= n <= |h|
    ensures Spent(h + more, i, n) == Spent(h, i, n)
    decreases n
  {
    if i < n {
      SpentOfPrefix(h, more, i, n - 1);
      LevelOfPrefix(h, more, n - 1);
      LevelIsTightestWindow(h, n - 1);
      LevelIsTightestWindow(h + more, n - 1);
    }
  }

  /** The bucket that one key's limited calls leave behind. */
  function BucketAfter(h: seq<Call>): Option<Bucket> {
    if h == [] then None else Some(Bucket(Left(h, |h| - 1), h[|h| - 1].time))
  }

  lemma LevelOfNext(h: seq<Call>, c: Call)
    ensures Level(h + [c], |h|) == Refill(BucketAfter(h), c.rate, c.time)
  {
    if h == [] {
      EarnedBounds(Elapsed(c.time, c.time), c.rate);
    } else {
      LevelOfPrefix(h, [c], |h| - 1);
    }
  }

  lemma BucketAfterLast(g: seq<Call>, n: nat, tokens: real)
    requires |g| == n + 1 && tokens == Level(g, n)
    ensures BucketAfter(g) == Some(Bucket(if tokens >= 1.0 then tokens - 1.0 else tokens, g[n].time))
  {
  }

  lemma ServeOfRefill(b: Option<Bucket>, rate: nat, now: real, tokens: real)
    requires tokens == Refill(b, rate, now)
    ensures Serve(b, rate, now) == (Bucket(if tokens >= 1.0 then tokens - 1.0 else tokens, now), tokens >= 1.0)
  {
  }

  lemma ServeFollowsLevel(h: seq<Call>, c: Call)
    ensures BucketAfter(h + [c]) == Some(Serve(BucketAfter(h), c.rate, c.time).0)
    ensures Serve(BucketAfter(h), c.rate, c.time).1 <==> Level(h + [c], |h|) >= 1.0
  {
    var g, b, tokens := h + [c], BucketAfter(h), Level(h + [c], |h|);
    assert tokens == Refill(b, c.rate, c.time) by { LevelOfNext(h, c); }
    ServeOfRefill(b, c.rate, c.time, tokens);
    BucketAfterLast(g, |h|, tokens);
  }

  lemma RequestsAppend(history: seq<Call>, c: Call, key: Bytes)
    ensures Requests(history + [c], key) ==
            if c.key == key && c.rate > 0 then Requests(history, key) + [c] else Requests(history, key)
  {
    assert (history + [c])[..|history|] == history;
  }

  /** Every key's bucket is the one its own limited calls leave behind. */
  ghost predicate Mirrors(buckets: map<Bytes, Bucket>, history: seq<Call>) {
    forall key: Bytes :: Lookup(buckets, key) == BucketAfter(Requests(history, key))
  }

  /** One step of the shared map answers by the policy of its own key and keeps the mirror. */
  lemma StepFollowsPolicy(buckets: map<Bytes, Bucket>, history: seq<Call>, c: Call)
    requires Mirrors(buckets, history)
    ensures Step(buckets, c).1 <==> Decides(history, c)
    ensures Mirrors(Step(buckets, c).0, history + [c])
  {
    var after := Step(buckets, c).0;
    var h := Requests(history, c.key);
    ServeFollowsLevel(h, c);
    AdmittedByLevel(h + [c], |h|);
    assert Lookup(buckets, c.key) == BucketAfter(h);
    forall key: Bytes
      ensures Lookup(after, key) == BucketAfter(Requests(history + [c], key))
    {
      RequestsAppend(history, c, key);
      assert Lookup(buckets, key) == BucketAfter(Requests(history, key));
      if c.rate == 0 || key != c.key {
        assert Lookup(after, key) == Lookup(buckets, key);
      }
    }
  }

  lemma RunAppend(history: seq<Call>, c: Call)
    ensures Run(history + [c]) == Step(Run(history), c).0
    ensures Answers(history + [c]) == Answers(history) + [Step(Run(history), c).1]
  {
    assert (history + [c])[..|history|] == history;
  }

  lemma {:induction false} RunMirrors(history: seq<Call>)
    ensures Mirrors(Run(history), history)
  {
    if history != [] {
      var before, c := history[..|history| - 1], history[|history| - 1];
      RunMirrors(before);
      StepFollowsPolicy(Run(before), before, c);
      assert before + [c] == history;
    }
  }

  /** Main theorem: over any interleaving of keys and rates, every answer is the window policy's. */
  lemma {:induction false} AnswersFollowPolicy(history: seq<Call>, n: nat)
    requires n < |history|
    ensures Answers(history)[n] <==> Decides(history[..n], history[n])
  {
    var before, c := history[..|history| - 1], history[|history| - 1];
    assert before + [c] == history;
    RunAppend(before, c);
    if n < |before| {
      AnswersFollowPolicy(before, n);
      assert before[..n] == history[..n];
    } else {
      RunMirrors(before);
      StepFollowsPolicy(Run(before), before, c);
    }
  }

  // ---------------------------------------------------------------- consequences

  /** No window admits more than its allowance. */
  lemma {:induction false} WindowBound(h: seq<Call>, i: nat, j: nat)
    requires i <= j < |h|
    ensures Spent(h, i, j + 1) as real <= Budget(h, i, j)
    decreases j
  {
    if i < j {
      WindowBound(h, i, j - 1);
      EarnedBounds(Elapsed(h[j - 1].time, h[j].time), h[j].rate);
    } else if Admitted(h, j) {
      assert Spent(h, i, j) as real + 1.0 <= Budget(h, i, j);
    }
    if Admitted(h, j) {
      assert Spent(h, i, j) as real + 1.0 <= Budget(h, i, j);
    }
  }

  ghost predicate Ordered(h: seq<Call>) {
    forall k | 0 < k < |h| :: h[k - 1].time <= h[k].time
  }

  lemma {:induction false} EarnedAdds(x: real, y: real, rate: nat)
    ensures Earned(x + y, rate) == Earned(x, rate) + Earned(y, rate)
  {
    if rate > 0 {
      EarnedAdds(x, y, rate - 1);
    }
  }

  /** A full bucket and what a period earns. */
  function Allowance(rate: nat, earlier: real, later: real): real {
    rate as real + Earned(later - earlier, rate)
  }

  /** By how much the clock reads of the calls i..j went backwards, added up. */
  function Setback(h: seq<Call>, i: nat, j: nat): real
    requires i <= j < |h|
    decreases j
  {
    if i == j then 0.0 else Setback(h, i, j - 1) + Elapsed(h[j].time, h[j - 1].time)
  }

  lemma {:induction false} SetbackIff(h: seq<Call>, i: nat, j: nat)
    requires i <= j < |h|
    ensures Setback(h, i, j) >= 0.0
    ensures Setback(h, i, j) == 0.0 <==> Ordered(h[i..j + 1])
    decreases j
  {
    if i < j {
      SetbackIff(h, i, j - 1);
      var n := j - i;
      var window := h[i..j + 1];
      assert window[..n] == h[i..j];
      assert window[n - 1] == h[j - 1] && window[n] == h[j];
      assert Ordered(window) <==> Ordered(window[..n]) && window[n - 1].time <= window[n].time;
    }
  }

  lemma {:induction false} EarnedGrows(time: real, rate: nat, cap: nat)
    requires time >= 0.0 && rate <= cap
    ensures Earned(time, rate) <= Earned(time, cap)
  {
    if rate < cap {
      EarnedGrows(time, rate, cap - 1);
    }
  }

  /** One more call of a window adds its time step and what its clock went backwards. */
  lemma ClockStep(h: seq<Call>, i: nat, j: nat, rate: nat)
    requires i < j < |h|
    ensures Allowance(rate, h[i].time, h[j].time) + Earned(Setback(h, i, j), rate) ==
            Allowance(rate, h[i].time, h[j - 1].time) + Earned(Setback(h, i, j - 1), rate)
            + Earned(Elapsed(h[j - 1].time, h[j].time), rate)
  {
    var before, step := h[j - 1].time, h[j].time - h[j - 1].time;
    var back := Elapsed(h[j].time, before);
    assert Elapsed(before, h[j].time) == step + back;
    EarnedAdds(before - h[i].time, step, rate);
    EarnedAdds(step, back, rate);
    EarnedAdds(Setback(h, i, j - 1), back, rate);
  }

  /** With rates up to `cap` in it, the budget of a window is at most the allowance at that rate and what
      the clock earned twice; with that one rate it is exactly this. Calls outside the window are free. */
  lemma {:induction false} BudgetTelescopes(h: seq<Call>, i: nat, j: nat, cap: nat)
    requires i <= j < |h|
    requires forall k | i <= k <= j :: h[k].rate <= cap
    ensures Budget(h, i, j) <= Allowance(cap, h[i].time, h[j].time) + Earned(Setback(h, i, j), cap)
    ensures (forall k | i <= k <= j :: h[k].rate == cap) ==>
              Budget(h, i, j) == Allowance(cap, h[i].time, h[j].time) + Earned(Setback(h, i, j), cap)
    decreases j
  {
    if i == j {
      EarnedBounds(0.0, cap);
    } else {
      BudgetTelescopes(h, i, j - 1, cap);
      ClockStep(h, i, j, cap);
      EarnedGrows(Elapsed(h[j - 1].time, h[j].time), h[j].rate, cap);
    }
  }

  /** Whatever rates up to `cap` its calls carry, a window admits at most the capacity, the rate times its
      duration, and the rate times what its clock reads went backwards. */
  lemma AdmissionsBound(h: seq<Call>, i: nat, j: nat, cap: nat)
    requires i <= j < |h|
    requires forall k | i <= k <= j :: h[k].rate <= cap
    ensures Spent(h, i, j + 1) as real <= Allowance(cap, h[i].time, h[j].time) + Earned(Setback(h, i, j), cap)
  {
    WindowBound(h, i, j);
    BudgetTelescopes(h, i, j, cap);
  }

  /** With one rate in the window, its budget is capacity plus rate times duration exactly when its clock
      reads are in order. */
  lemma BudgetIsAllowanceIff(h: seq<Call>, i: nat, j: nat, rate: nat)
    requires i <= j < |h| && rate > 0
    requires forall k | i <= k <= j :: h[k].rate == rate
    ensures Budget(h, i, j) == Allowance(rate, h[i].time, h[j].time) <==> Ordered(h[i..j + 1])
  {
    BudgetTelescopes(h, i, j, rate);
    SetbackIff(h, i, j);
    EarnedBounds(Setback(h, i, j), rate);
  }

  lemma OrderedWindow(h: seq<Call>, i: nat, j: nat)
    requires i <= j <= |h| && Ordered(h)
    ensures Ordered(h[i..j])
  {
    assert forall k | 0 <= k < j - i :: h[i..j][k] == h[i + k];
  }

  /** The documented limit: with clocks in order and rates up to `cap` in the window, the calls i..j get at
      most the capacity plus the rate times the duration. Only the window itself is restricted. */
  lemma RateHonoured(h: seq<Call>, i: nat, j: nat, cap: nat)
    requires i <= j < |h| && Ordered(h[i..j + 1])
    requires forall k | i <= k <= j :: h[k].rate <= cap
    ensures Spent(h, i, j + 1) as real <= Allowance(cap, h[i].time, h[j].time)
  {
    AdmissionsBound(h, i, j, cap);
    SetbackIff(h, i, j);
    EarnedBounds(0.0, cap);
  }

  /** `count` is no more than the rate allows from call `first` to the last call. */
  ghost predicate WithinRate(h: seq<Call>, first: nat, rate: nat, count: nat) {
    if first >= |h| then count == 0
    else count as real <= Allowance(rate, h[first].time, h[|h| - 1].time)
  }

  /** From call `first` on, the clocks are in order and no call asks for more than `rate`. */
  ghost predicate Steady(h: seq<Call>, first: nat, rate: nat) {
    first <= |h| ==> Ordered(h[first..]) && forall k | first <= k < |h| :: h[k].rate <= rate
  }

  /** What was paid for since call `first` is within the budget, and for steady calls within the rate. */
  ghost predicate WithinBudget(h: seq<Call>, first: nat, count: nat) {
    && (first >= |h| ==> count == 0)
    && (first < |h| ==> count as real <= Budget(h, first, |h| - 1))
    && (forall rate: nat | Steady(h, first, rate) :: WithinRate(h, first, rate, count))
  }

  lemma PaidIsWithinBudget(h: seq<Call>, first: nat, count: nat)
    requires first <= |h| && count <= Spent(h, first, |h|)
    ensures WithinBudget(h, first, count)
  {
    if first < |h| {
      WindowBound(h, first, |h| - 1);
      forall rate: nat | Steady(h, first, rate)
        ensures WithinRate(h, first, rate, count)
      {
        assert h[first..(|h| - 1) + 1] == h[first..];
        RateHonoured(h, first, |h| - 1, rate);
      }
    }
  }

  lemma AllowanceIsRateTimesTime(rate: nat, earlier: real, later: real)
    ensures Allowance(rate, earlier, later) == rate as real + (later - earlier) * rate as real
  {
    EarnedIsProduct(later - earlier, rate);
  }

  /** Clock reads that reach the lock out of order break that limit: rate 1 admits two calls
      in a window whose ends carry the same time. */
  lemma OutOfOrderClocksExceedTheRate(key: Bytes)
    ensures var h := [Call(key, 1, 0.0), Call(key, 1, 1.0), Call(key, 1, 0.0), Call(key, 1, 1.0)];
            Spent(h, 1, 4) == 2 && h[3].time == h[1].time
  {
    var h := [Call(key, 1, 0.0), Call(key, 1, 1.0), Call(key, 1, 0.0), Call(key, 1, 1.0)];
    assert Level(h, 0) == 1.0;
    assert Left(h, 0) == 0.0;
    assert Gain(h, 1) == 1.0;
    assert Level(h, 1) == 1.0;
    assert Left(h, 1) == 0.0;
    assert Gain(h, 2) == 0.0;
    assert Level(h, 2) == 0.0;
    assert Gain(h, 3) == 1.0;
    assert Level(h, 3) == 1.0;
    LevelIsTightestWindow(h, 1);
    LevelIsTightestWindow(h, 2);
    LevelIsTightestWindow(h, 3);
    assert Spent(h, 1, 2) == 1;
    assert Spent(h, 1, 3) == 1;
  }

  // ---------------------------------------------------------------- when the documented limit holds

  /** Every window admits at most the capacity plus the rate times its duration. */
  ghost predicate LimitKept(h: seq<Call>, rate: nat) {
    forall i: nat, j: nat | i <= j < |h| :: Spent(h, i, j + 1) as real <= Allowance(rate, h[i].time, h[j].time)
  }

  /** Which clock read may be the next one at the lock. */
  type Clock = (real, real) -> bool

  /** The limited calls of one key, with rates up to `cap`, whose reads come from the clock. */
  ghost predicate ReadFrom(h: seq<Call>, clock: Clock, key: Bytes, cap: nat) {
    && (forall c | c in h :: c.key == key && 0 < c.rate <= cap)
    && (forall k | 0 < k < |h| :: clock(h[k - 1].time, h[k].time))
  }

  lemma OrderedClockKeepsLimit(h: seq<Call>, clock: Clock, key: Bytes, cap: nat)
    requires forall a: real, b: real | clock(a, b) :: a <= b
    requires ReadFrom(h, clock, key, cap)
    ensures LimitKept(h, cap)
  {
    assert Ordered(h);
    forall i: nat, j: nat | i <= j < |h|
      ensures Spent(h, i, j + 1) as real <= Allowance(cap, h[i].time, h[j].time)
    {
      OrderedWindow(h, i, j + 1);
      RateHonoured(h, i, j, cap);
    }
  }

  /** All calls of one key at one rate, each with one of the two reads; first and last read are `late`. */
  ghost predicate Swings(h: seq<Call>, key: Bytes, rate: nat, early: real, late: real) {
    && h != [] && h[0].time == late && h[|h| - 1].time == late
    && forall c | c in h :: c.key == key && c.rate == rate && (c.time == early || c.time == late)
  }

  /** One more call adds one to what was spent exactly when it is admitted. */
  lemma SpentOfNext(h: seq<Call>, c: Call, before: nat)
    requires before <= |h|
    ensures Spent(h + [c], before, |h| + 1) == Spent(h, before, |h|) + if Admitted(h + [c], |h|) then 1 else 0
  {
    SpentOfPrefix(h, [c], before, |h|);
  }

  /** What one more call does to the spending and to the bucket. */
  lemma NextCall(h: seq<Call>, c: Call)
    ensures var level, n := Refill(BucketAfter(h), c.rate, c.time), |h|;
            Spent(h + [c], 0, n + 1) == Spent(h, 0, n) + (if level >= 1.0 then 1 else 0) &&
            Left(h + [c], n) == if level >= 1.0 then level - 1.0 else level
  {
    LevelOfNext(h, c);
    AdmittedByLevel(h + [c], |h|);
    SpentOfNext(h, c, 0);
  }

  /** As many calls as the capacity, all at one moment, use the bucket up. */
  lemma {:induction false} Exhaust(key: Bytes, rate: nat, early: real, late: real, n: nat) returns (h: seq<Call>)
    requires 0 < n <= rate
    ensures Swings(h, key, rate, early, late)
    ensures Spent(h, 0, |h|) == n && Left(h, |h| - 1) == (rate - n) as real
  {
    var c := Call(key, rate, late);
    EarnedBounds(0.0, rate);
    if n == 1 {
      NextCall([], c);
      h := [] + [c];
    } else {
      var before := Exhaust(key, rate, early, late, n - 1);
      NextCall(before, c);
      h := before + [c];
    }
  }

  /** Going back and forth between two reads fills an empty bucket: after some swings it holds a token. */
  lemma {:induction false} SwingToToken(h: seq<Call>, key: Bytes, rate: nat, early: real, late: real, n: nat)
    returns (h': seq<Call>)
    requires rate > 0 && early < late && Swings(h, key, rate, early, late)
    requires 0.0 <= Left(h, |h| - 1) < 1.0 <= Left(h, |h| - 1) + Earned(Earned(late - early, rate), n)
    ensures Swings(h', key, rate, early, late) && Spent(h', 0, |h'|) == Spent(h, 0, |h|) + 1
    decreases n
  {
    var gain := Earned(late - early, rate);
    var back, forth := Call(key, rate, early), Call(key, rate, late);
    EarnedBounds(0.0, rate);
    EarnedBounds(late - early, rate);
    NextCall(h, back);
    NextCall(h + [back], forth);
    h' := h + [back] + [forth];
    if Left(h, |h| - 1) + gain < 1.0 {
      h' := SwingToToken(h', key, rate, early, late, n - 1);
    }
  }

  lemma EnoughSwings(gain: real) returns (n: nat)
    requires gain > 0.0
    ensures Earned(gain, n) >= 1.0
  {
    n := (1.0 / gain).Floor + 1;
    assert gain * n as real >= gain * (1.0 / gain) == 1.0;
    EarnedIsProduct(gain, n);
  }

  /** Any two reads that can be swapped, however close, are enough to break the limit at any rate: some
      history of these two reads admits one call too many between two equal reads. */
  lemma TwoReadsBreakTheLimit(key: Bytes, rate: nat, early: real, late: real) returns (h: seq<Call>)
    requires rate > 0 && early < late
    ensures Swings(h, key, rate, early, late) && Spent(h, 0, |h|) == rate + 1
    ensures !LimitKept(h, rate)
  {
    var empty := Exhaust(key, rate, early, late, rate);
    EarnedBounds(late - early, rate);
    var n := EnoughSwings(Earned(late - early, rate));
    h := SwingToToken(empty, key, rate, early, late, n);
    EarnedBounds(0.0, rate);
    assert Spent(h, 0, (|h| - 1) + 1) as real > Allowance(rate, h[0].time, h[|h| - 1].time);
  }

  /** Exactly when the documented limit holds: for a clock on which time may stand still or pass, every
      history keeps the limit if and only if no read reaches the lock after a later one. */
  lemma LimitGuaranteedIff(clock: Clock, key: Bytes, rate: nat)
    requires rate > 0
    requires forall a: real, b: real | a <= b :: clock(a, b)
    ensures (forall h | ReadFrom(h, clock, key, rate) :: LimitKept(h, rate)) <==>
            (forall a: real, b: real | clock(a, b) :: a <= b)
  {
    if forall a: real, b: real | clock(a, b) :: a <= b {
      forall h | ReadFrom(h, clock, key, rate)
        ensures LimitKept(h, rate)
      {
        OrderedClockKeepsLimit(h, clock, key, rate);
      }
    } else {
      var late: real, early: real :| clock(late, early) && early < late;
      var h := TwoReadsBreakTheLimit(key, rate, early, late);
      assert ReadFrom(h, clock, key, rate);
    }
  }

  // ---------------------------------------------------------------- liveness

  lemma EarnsOne(earlier: real, later: real, rate: nat)
    requires (later - earlier) * rate as real >= 1.0
    ensures Earned(Elapsed(earlier, later), rate) >= 1.0
  {
    assert later <= earlier ==> (later - earlier) * rate as real <= 0.0;
    EarnedIsProduct(later - earlier, rate);
  }

  /** Liveness: whatever was called before, waiting one over the rate is always enough. */
  lemma WaitingIsEnough(history: seq<Call>, c: Call)
    requires c.rate > 0
    requires var h := Requests(history, c.key);
             h == [] || (c.time - h[|h| - 1].time) * c.rate as real >= 1.0
    ensures Decides(history, c)
  {
    var h := Requests(history, c.key);
    AdmittedByLevel(h + [c], |h|);
    LevelOfNext(h, c);
    if h != [] {
      LevelBounds(h, |h| - 1);
      EarnsOne(h[|h| - 1].time, c.time, c.rate);
    }
  }

  function Copies(c: Call, n: nat): (h: seq<Call>)
    ensures |h| == n
  {
    seq(n, _ => c)
  }

  lemma {:induction false} BurstLevel(c: Call, n: nat)
    requires c.rate > 0
    ensures Level(Copies(c, n + 1), n) == if n <= c.rate then (c.rate - n) as real else 0.0
  {
    if n > 0 {
      var h := Copies(c, n);
      BurstLevel(c, n - 1);
      EarnedBounds(0.0, c.rate);
      assert Copies(c, n + 1) == h + [c];
      LevelOfPrefix(h, [c], n - 1);
    }
  }

  lemma CopiesGrow(calls: seq<Call>, c: Call, n: nat)
    ensures Copies(c, n + 1) == Copies(c, n) + [c]
    ensures calls + Copies(c, n + 1) == calls + Copies(c, n) + [c]
  {
  }

  lemma {:induction false} RequestsOfBurst(calls: seq<Call>, c: Call, n: nat)
    requires c.rate > 0 && Requests(calls, c.key) == []
    ensures Requests(calls + Copies(c, n), c.key) == Copies(c, n)
  {
    if n == 0 {
      assert calls + Copies(c, 0) == calls;
    } else {
      RequestsOfBurst(calls, c, n - 1);
      CopiesGrow(calls, c, n - 1);
      RequestsAppend(calls + Copies(c, n - 1), c, c.key);
    }
  }

  /** A burst: of calls at one moment, from a key that made none before, exactly the first `rate` are admitted. */
  lemma BurstAdmitsTheRate(calls: seq<Call>, c: Call, n: nat)
    requires c.rate > 0 && Requests(calls, c.key) == []
    ensures Decides(calls + Copies(c, n), c) <==> n < c.rate
  {
    RequestsOfBurst(calls, c, n);
    assert Copies(c, n) + [c] == Copies(c, n + 1);
    AdmittedByLevel(Copies(c, n + 1), n);
    BurstLevel(c, n);
  }

  // ---------------------------------------------------------------- independence of keys

  /** The calls of one key, unlimited ones included. */
  function On(history: seq<Call>, key: Bytes): seq<Call> {
    if history == [] then []
    else
      var c := history[|history| - 1];
      On(history[..|history| - 1], key) + if c.key == key then [c] else []
  }

  /** The answers given to one key. */
  function AnswersOn(history: seq<Call>, key: Bytes): seq<bool> {
    if history == [] then []
    else
      var last := |history| - 1;
      AnswersOn(history[..last], key) + if history[last].key == key then [Answers(history)[last]] else []
  }

  lemma StepIsLocal(m: map<Bytes, Bucket>, m': map<Bytes, Bucket>, c: Call, key: Bytes)
    requires Lookup(m, key) == Lookup(m', key)
    ensures c.key != key ==> Lookup(Step(m, c).0, key) == Lookup(m, key)
    ensures c.key == key ==> Step(m, c).1 == Step(m', c).1 && Lookup(Step(m, c).0, key) == Lookup(Step(m', c).0, key)
  {
  }

  /** A key's answers and bucket are those of a limiter that only ever saw that key. */
  lemma {:induction false} KeysDoNotInterfere(history: seq<Call>, key: Bytes)
    ensures AnswersOn(history, key) == Answers(On(history, key))
    ensures Lookup(Run(history), key) == Lookup(Run(On(history, key)), key)
  {
    if history != [] {
      var before, c := history[..|history| - 1], history[|history| - 1];
      assert before + [c] == history;
      KeysDoNotInterfere(before, key);
      StepIsLocal(Run(before), Run(On(before, key)), c, key);
      RunAppend(before, c);
      if c.key == key {
        RunAppend(On(before, key), c);
        assert On(history, key) == On(before, key) + [c];
      } else {
        assert On(history, key) == On(before, key);
      }
    }
  }

  /** The bucket key of a tunnel's messages: peer, ":ws:", target. */
  function TunnelKey(peer: Bytes, target: Bytes): Bytes {
    peer + ([COLON, 119, 115, COLON] + target)
  }

  lemma TunnelKeyText(peer: Bytes, target: Bytes)
    ensures TunnelKey(peer, target) == peer + Ascii(":ws:") + target
  {
    assert [COLON, 119, 115, COLON] == Ascii(":ws:");
  }

  /** Peer ids carry no colon, so tunnel keys of different tunnels differ and none is a request key. */
  lemma TunnelKeysAreDistinct(peer: Bytes, target: Bytes, peer': Bytes, target': Bytes)
    requires COLON !in peer && COLON !in peer'
    ensures TunnelKey(peer, target) == TunnelKey(peer', target') <==> peer == peer' && target == target'
    ensures TunnelKey(peer, target) != peer'
  {
    var rest, rest' := [119, 115, COLON] + target, [119, 115, COLON] + target';
    assert TunnelKey(peer, target) == peer + [COLON] + rest;
    assert TunnelKey(peer', target') == peer' + [COLON] + rest';
    assert TunnelKey(peer, target)[|peer|] == COLON;
    if TunnelKey(peer, target) == TunnelKey(peer', target') {
      SplitUnique(peer, rest, peer', rest', COLON);
      assert target == rest[3..] && target' == rest'[3..];
    }
  }

  /** The messages of a tunnel never spend the tokens of requests. */
  lemma MessagesSpendNoRequests(history: seq<Call>, peer: Bytes, owner: Bytes, target: Bytes, rate: nat, now: real,
                                c: Call)
    requires COLON !in peer && COLON !in owner && c.key == peer
    ensures Decides(history + [Call(TunnelKey(owner, target), rate, now)], c) <==> Decides(history, c)
  {
    TunnelKeysAreDistinct(owner, target, peer, target);
    RequestsAppend(history, Call(TunnelKey(owner, target), rate, now), peer);
  }

  /** A call adds one to what its key spent exactly when it is limited and admitted. */
  lemma OneMoreCall(history: seq<Call>, c: Call, key: Bytes, before: nat)
    requires before <= |Requests(history, key)|
    ensures var h, h' := Requests(history, key), Requests(history + [c], key);
            before <= |h'| &&
            Spent(h', before, |h'|) ==
            Spent(h, before, |h|) + if c.key == key && c.rate > 0 && Decides(history, c) then 1 else 0
  {
    RequestsAppend(history, c, key);
    if c.key == key && c.rate > 0 {
      SpentOfNext(Requests(history, key), c, before);
    }
  }

  // ---------------------------------------------------------------- the shared object

  method Refilled(b: Bucket, rate: nat, now: real) returns (tokens: real)
    ensures tokens == Refill(Some(b), rate, now)
  {
    var cap := rate as real;
    var elapsed := Elapsed(b.last, now);
    EarnedIsProduct(elapsed, rate);
    tokens := Min(b.tokens + elapsed * cap, cap);
  }

  /** The limiter shared by all incoming streams. `history` records the critical sections. */
  class RateLimiter {
    var buckets: map<Bytes, Bucket>
    ghost var history: seq<Call>

    ghost predicate Valid()
      reads this
    {
      Mirrors(buckets, history)
    }

    constructor ()
      ensures Valid() && history == [] && buckets == map[]
    {
      buckets := map[];
      history := [];
    }

    /** Answers by the window policy of `peer` alone and touches no other bucket. */
    method Allow(peer: Bytes, rate: nat, now: real) returns (ok: bool)
      requires Valid()
      modifies this
      ensures Valid() && history == old(history) + [Call(peer, rate, now)]
      ensures ok <==> Decides(old(history), Call(peer, rate, now))
      ensures forall key | key != peer ::
        (key in buckets <==> key in old(buckets)) && (key in buckets ==> buckets[key] == old(buckets)[key])
      ensures rate == 0 ==> buckets == old(buckets)
    {
      StepFollowsPolicy(buckets, history, Call(peer, rate, now));
      history := history + [Call(peer, rate, now)];
      if rate == 0 {
        return true;
      }
      var b := if peer in buckets then buckets[peer] else Bucket(rate as real, now);
      var tokens := Refilled(b, rate, now);
      ok := tokens >= 1.0;
      if ok {
        tokens := tokens - 1.0;
      }
      buckets := buckets[peer := Bucket(tokens, now)];
      assert buckets == Step(old(buckets), Call(peer, rate, now)).0;
    }
  }
}
