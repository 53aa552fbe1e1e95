/** Per-tenant token buckets, after rate_limit.rs. Time is a real number of seconds that callers
    pass in: `born` is the reading of the clock that a new bucket gets and `now` the one it is then
    refilled with; f64 arithmetic is taken to be exact. */
module RateLimiter {
  import opened Results
  import opened MachineTypes

  // ---------------------------------------------------------------------------------------
  //  Configuration
  // ---------------------------------------------------------------------------------------

  datatype Class = Write | Read | Admin

  function ClassOf(operation: string): Class {
    if operation in {"remember", "revise", "forget"} then Write
    else if operation in {"recall", "prime", "subscribe", "insights", "get", "feed"} then Read
    else if operation in {"reflect", "reflect_policy", "set_policy", "key_create", "key_revoke", "key_list"} then Admin
    else Read
  }

  datatype Config = Config(
    enabled: bool,
    writeRate: real, writeBurst: nat,
    readRate: real, readBurst: nat,
    adminRate: real, adminBurst: nat)
  {
    function Rate(class_: Class): real {
      match class_
      case Write => writeRate
      case Read => readRate
      case Admin => adminRate
    }

    function Burst(class_: Class): real {
      match class_
      case Write => writeBurst as real
      case Read => readBurst as real
      case Admin => adminBurst as real
    }
  }

  datatype Key = Key(tenant: string, class_: Class)

  // ---------------------------------------------------------------------------------------
  //  One bucket
  // ---------------------------------------------------------------------------------------

  datatype Bucket = Bucket(tokens: real, max: real, rate: real, lastRefill: real)

  function Ceiling(x: real): int {
    -((-x).Floor)
  }

  /** `x.ceil() as u64`: the cast saturates at both ends. */
  function CeilingAsU64(x: real): nat {
    if x <= 0.0 then 0 else if Ceiling(x) > U64_MAX then U64_MAX else Ceiling(x)
  }

  function Min(x: real, y: real): real {
    if x <= y then x else y
  }

  function Earned(elapsed: real, rate: real): real {
    elapsed * rate
  }

  function Refilled(b: Bucket, now: real): Bucket {
    var elapsed := now - b.lastRefill;
    if elapsed > 0.0 then b.(tokens := Min(b.tokens + Earned(elapsed, b.rate), b.max), lastRefill := now) else b
  }

  /** The wait for a deficit; dividing by a zero rate gives infinity, which the cast saturates. */
  function RetryAfterMs(deficit: real, rate: real): nat {
    if rate == 0.0 then U64_MAX else CeilingAsU64(deficit / rate * 1000.0)
  }

  function SecondsUntilFull(b: Bucket): nat {
    if b.tokens >= b.max then 0
    else if b.rate == 0.0 then U64_MAX
    else CeilingAsU64((b.max - b.tokens) / b.rate)
  }

  datatype Verdict = Unlimited | Admitted(remaining: real) | Refused(retryAfterMs: nat)

  function Acquired(b: Bucket, now: real): (Bucket, Verdict) {
    var full := Refilled(b, now);
    if full.tokens >= 1.0 then (full.(tokens := full.tokens - 1.0), Admitted(full.tokens - 1.0))
    else (full, Refused(RetryAfterMs(1.0 - full.tokens, full.rate)))
  }

  class TokenBucket {
    var tokens: real
    const max: real
    const rate: real
    var lastRefill: real

    function Value(): Bucket
      reads this
    {
      Bucket(tokens, max, rate, lastRefill)
    }

    constructor (max: real, rate: real, now: real)
      ensures Value() == Bucket(max, max, rate, now)
    {
      this.tokens, this.max, this.rate, this.lastRefill := max, max, rate, now;
    }

    method Refill(now: real)
      modifies this
      ensures Value() == Refilled(old(Value()), now)
    {
      var elapsed := now - lastRefill;
      if elapsed > 0.0 {
        tokens := Min(tokens + Earned(elapsed, rate), max);
        lastRefill := now;
      }
    }

    method TryAcquire(now: real) returns (verdict: Verdict)
      modifies this
      ensures (Value(), verdict) == Acquired(old(Value()), now)
    {
      Refill(now);
      if tokens >= 1.0 {
        tokens := tokens - 1.0;
        verdict := Admitted(tokens);
      } else {
        verdict := Refused(RetryAfterMs(1.0 - tokens, rate));
      }
    }

    method Remaining(now: real) returns (remaining: real)
      modifies this
      ensures Value() == Refilled(old(Value()), now) && remaining == tokens
    {
      Refill(now);
      remaining := tokens;
    }
  }

  // ---------------------------------------------------------------------------------------
  //  All buckets
  // ---------------------------------------------------------------------------------------

  type Buckets = map<Key, Bucket>

  function FullBucket(config: Config, key: Key, born: real): Bucket {
    Bucket(config.Burst(key.class_), config.Burst(key.class_), config.Rate(key.class_), born)
  }

  /** A bucket comes into being, full, the first time its key is used. */
  function Fetched(config: Config, buckets: Buckets, key: Key, born: real): Bucket {
    if key in buckets then buckets[key] else FullBucket(config, key, born)
  }

  function Checked(config: Config, buckets: Buckets, key: Key, born: real, now: real): (Buckets, Verdict) {
    if !config.enabled then (buckets, Unlimited)
    else
      var (bucket, verdict) := Acquired(Fetched(config, buckets, key, born), now);
      (buckets[key := bucket], verdict)
  }

  function Queried(config: Config, buckets: Buckets, key: Key, born: real, now: real): Buckets {
    buckets[key := Refilled(Fetched(config, buckets, key, born), now)]
  }

  class Limiter {
    const config: Config
    var buckets: map<Key, TokenBucket>

    /** No two keys share a bucket object. */
    ghost predicate Valid()
      reads this
    {
      forall k, l :: k in buckets && l in buckets && k != l ==> buckets[k] != buckets[l]
    }

    ghost function Value(): Buckets
      reads this, buckets.Values
    {
      map k | k in buckets :: buckets[k].Value()
    }

    constructor (config: Config)
      ensures Valid() && Value() == map[] && this.config == config
    {
      this.config := config;
      buckets := map[];
    }

    method Fetch(key: Key, born: real) returns (bucket: TokenBucket)
      requires Valid()
      modifies this
      ensures Valid() && key in buckets && buckets[key] == bucket
      ensures forall b :: b in buckets.Values ==> b in old(buckets.Values) || fresh(b)
      ensures Value() == old(Value())[key := Fetched(config, old(Value()), key, born)]
    {
      if key !in buckets {
        var created := new TokenBucket(config.Burst(key.class_), config.Rate(key.class_), born);
        buckets := buckets[key := created];
      }
      bucket := buckets[key];
    }

    /** check */
    method Check(tenant: string, operation: string, born: real, now: real) returns (verdict: Verdict)
      requires Valid()
      modifies this, buckets.Values
      ensures Valid()
      ensures forall b :: b in buckets.Values ==> b in old(buckets.Values) || fresh(b)
      ensures (Value(), verdict) == Checked(config, old(Value()), Key(tenant, ClassOf(operation)), born, now)
    {
      if !config.enabled {
        return Unlimited;
      }
      var key := Key(tenant, ClassOf(operation));
      var bucket := Fetch(key, born);
      ghost var others := Value();
      assert bucket.Value() == others[key] == Fetched(config, old(Value()), key, born);
      verdict := bucket.TryAcquire(now);
      assert Value() == old(Value())[key := bucket.Value()];
    }

    /** status: the limit, the tokens left and the seconds until full. */
    method Status(tenant: string, operation: string, born: real, now: real)
      returns (limit: real, remaining: real, refillSecs: nat)
      requires Valid()
      modifies this, buckets.Values
      ensures Valid()
      ensures forall b :: b in buckets.Values ==> b in old(buckets.Values) || fresh(b)
      ensures Value() == Queried(config, old(Value()), Key(tenant, ClassOf(operation)), born, now)
      ensures var bucket := Value()[Key(tenant, ClassOf(operation))];
        limit == bucket.max && remaining == bucket.tokens && refillSecs == SecondsUntilFull(bucket)
    {
      var key := Key(tenant, ClassOf(operation));
      var bucket := Fetch(key, born);
      remaining := bucket.Remaining(now);
      limit := bucket.max;
      if remaining < limit {
        refillSecs := if bucket.rate == 0.0 then U64_MAX else CeilingAsU64((limit - remaining) / bucket.rate);
      } else {
        refillSecs := 0;
      }
    }
  }

  // ---------------------------------------------------------------------------------------
  //  Runs
  // ---------------------------------------------------------------------------------------

  /** A call for which the clock does not move between creating a bucket and refilling it. Calls for
      which it does are reduced to these below. */
  datatype Event = Check(key: Key, at: real) | Status(key: Key, at: real)

  predicate InTimeOrder(run: seq<Event>) {
    forall i, j :: 0 <= i < j < |run| ==> run[i].at <= run[j].at
  }

  function Step(config: Config, buckets: Buckets, event: Event): Buckets {
    match event
    case Check(key, at) => Checked(config, buckets, key, at, at).0
    case Status(key, at) => Queried(config, buckets, key, at, at)
  }

  /** The buckets after a run from an empty limiter. */
  function After(config: Config, run: seq<Event>): Buckets {
    if run == [] then map[] else Step(config, After(config, run[..|run| - 1]), run[|run| - 1])
  }

  /** The answer to the i-th event, which is a check. */
  function Answer(config: Config, run: seq<Event>, i: nat): Verdict
    requires i < |run| && run[i].Check?
  {
    Checked(config, After(config, run[..i]), run[i].key, run[i].at, run[i].at).1
  }

  predicate Admits(config: Config, run: seq<Event>, i: nat)
    requires i < |run|
  {
    run[i].Check? && Answer(config, run, i).Admitted?
  }

  /** How many checks of a key were admitted at positions from j up to but not including i. */
  function Admissions(config: Config, run: seq<Event>, key: Key, j: nat, i: nat): (n: nat)
    requires j <= i <= |run|
  {
    if j == i then 0
    else if run[i - 1].key == key && Admits(config, run, i - 1) then Admissions(config, run, key, j, i - 1) + 1
    else Admissions(config, run, key, j, i - 1)
  }

  /** What a bucket that was full at event j and has been charged since can still admit at a time. */
  function Allowance(config: Config, run: seq<Event>, key: Key, j: nat, at: real): real
    requires j < |run|
  {
    config.Burst(key.class_) + Earned(at - run[j].at, config.Rate(key.class_))
    - Admissions(config, run, key, j, |run|) as real
  }

  // ---------------------------------------------------------------------------------------
  //  The level of a key's bucket
  // ---------------------------------------------------------------------------------------

  /** The tokens an operation at time `at` would find. */
  function Level(config: Config, buckets: Buckets, key: Key, at: real): real {
    Refilled(Fetched(config, buckets, key, at), at).tokens
  }

  predicate Settled(config: Config, buckets: Buckets, now: real) {
    forall key :: key in buckets ==>
      var b := buckets[key];
      && b.max == config.Burst(key.class_) && b.rate == config.Rate(key.class_)
      && b.tokens <= b.max && b.lastRefill <= now
  }

  function Charge(config: Config, buckets: Buckets, event: Event): real {
    if event.Check? && Checked(config, buckets, event.key, event.at, event.at).1.Admitted? then 1.0 else 0.0
  }

  lemma EarnedAdds(x: real, y: real, rate: real)
    ensures Earned(x, rate) + Earned(y, rate) == Earned(x + y, rate)
    ensures Earned(0.0, rate) == 0.0
  {}

  lemma StaysSettled(config: Config, buckets: Buckets, event: Event)
    requires Settled(config, buckets, event.at)
    ensures Settled(config, Step(config, buckets, event), event.at)
  {
    hide Earned;
  }

  lemma LevelOfOthers(config: Config, buckets: Buckets, event: Event, key: Key, at: real)
    requires key != event.key
    ensures Level(config, Step(config, buckets, event), key, at) == Level(config, buckets, key, at)
  {
    hide Earned, Refilled, Acquired;
  }

  /** An event charges its own bucket, which then fills at its rate, and touches no other. */
  lemma LevelAfterStep(config: Config, buckets: Buckets, event: Event, key: Key, at: real)
    requires config.enabled && Settled(config, buckets, event.at) && event.at <= at
    ensures Settled(config, Step(config, buckets, event), event.at)
    ensures Level(config, Step(config, buckets, event), key, at)
         == if key != event.key then Level(config, buckets, key, at)
            else Min(Level(config, buckets, key, event.at) - Charge(config, buckets, event)
                     + Earned(at - event.at, config.Rate(key.class_)), config.Burst(key.class_))
  {
    hide Earned;
    EarnedAdds(at - event.at, 0.0, config.Rate(key.class_));
    StaysSettled(config, buckets, event);
    if key != event.key {
      LevelOfOthers(config, buckets, event, key, at);
    }
  }

  lemma {:induction false} AlwaysSettled(config: Config, run: seq<Event>, at: real)
    requires config.enabled && InTimeOrder(run)
    requires forall i :: 0 <= i < |run| ==> run[i].at <= at
    ensures Settled(config, After(config, run), at)
  {
    if run != [] {
      var init, last := run[..|run| - 1], run[|run| - 1];
      AlwaysSettled(config, init, last.at);
      LevelAfterStep(config, After(config, init), last, last.key, at);
    }
  }

  lemma {:induction false} AdmissionsOfPrefix(config: Config, run: seq<Event>, key: Key, j: nat, i: nat, n: nat)
    requires j <= i <= n <= |run|
    ensures Admissions(config, run[..n], key, j, i) == Admissions(config, run, key, j, i)
  {
    if j < i {
      AdmissionsOfPrefix(config, run, key, j, i - 1, n);
      assert run[..n][..i - 1] == run[..i - 1];
    }
  }

  /** An event of a key ages the allowances of the key and charges them. */
  lemma AllowanceAfterStep(config: Config, run: seq<Event>, key: Key, j: nat, at: real)
    requires config.enabled && j < |run| - 1
    ensures var init, last := run[..|run| - 1], run[|run| - 1];
      Allowance(config, run, key, j, at)
      == Allowance(config, init, key, j, last.at) + Earned(at - last.at, config.Rate(key.class_))
         - if last.key == key then Charge(config, After(config, init), last) else 0.0
  {
    var n := |run| - 1;
    AdmissionsOfPrefix(config, run, key, j, n, n);
    EarnedAdds(run[n].at - run[j].at, at - run[n].at, config.Rate(key.class_));
  }

  lemma AllowanceFromLast(config: Config, run: seq<Event>, key: Key, at: real)
    requires config.enabled && run != [] && run[|run| - 1].key == key
    ensures var init, last := run[..|run| - 1], run[|run| - 1];
      Allowance(config, run, key, |run| - 1, at)
      == config.Burst(key.class_) + Earned(at - last.at, config.Rate(key.class_))
         - Charge(config, After(config, init), last)
  {
    assert Admissions(config, run, key, |run| - 1, |run| - 1) == 0;
  }

  lemma FullAtFirst(config: Config, key: Key, at: real)
    ensures Level(config, map[], key, at) == config.Burst(key.class_)
  {}

  /** At every moment of every run the bucket of a key holds exactly the least of its burst and
      the allowances judged from the events of the key so far. */
  lemma {:induction false} LevelIsLeastAllowance(config: Config, run: seq<Event>, key: Key, at: real)
    requires config.enabled && InTimeOrder(run)
    requires forall i :: 0 <= i < |run| ==> run[i].at <= at
    ensures var level := Level(config, After(config, run), key, at);
      && level <= config.Burst(key.class_)
      && (forall j :: 0 <= j < |run| && run[j].key == key ==> level <= Allowance(config, run, key, j, at))
      && (level == config.Burst(key.class_)
          || exists j :: 0 <= j < |run| && run[j].key == key && level == Allowance(config, run, key, j, at))
  {
    hide Level, Earned, Charge, Step, Settled;
    FullAtFirst(config, key, at);
    if run != [] {
      var n := |run| - 1;
      var init, last := run[..n], run[n];
      var s := if last.key == key then last.at else at;
      AlwaysSettled(config, init, last.at);
      LevelAfterStep(config, After(config, init), last, key, at);
      LevelIsLeastAllowance(config, init, key, s);
      EarnedAdds(at - last.at, 0.0, config.Rate(key.class_));
      var level := Level(config, After(config, init), key, s);
      forall j | 0 <= j < n
        ensures Allowance(config, run, key, j, at) == Allowance(config, init, key, j, s)
          + if last.key == key
            then Earned(at - s, config.Rate(key.class_)) - Charge(config, After(config, init), last)
            else 0.0
      {
        AllowanceAfterStep(config, run, key, j, at);
        EarnedAdds(last.at - run[j].at, at - last.at, config.Rate(key.class_));
      }
      if last.key == key {
        AllowanceFromLast(config, run, key, at);
      }
      if level != config.Burst(key.class_) {
        var j :| 0 <= j < n && init[j].key == key && level == Allowance(config, init, key, j, s);
        assert run[j].key == key;
      }
    }
  }

  // ---------------------------------------------------------------------------------------
  //  Admission
  // ---------------------------------------------------------------------------------------

  function AllowanceBefore(config: Config, run: seq<Event>, j: nat, i: nat): real
    requires j <= i < |run|
  {
    var key := run[i].key;
    config.Burst(key.class_) + Earned(run[i].at - run[j].at, config.Rate(key.class_))
    - Admissions(config, run, key, j, i) as real
  }

  lemma AdmittedIffLevel(config: Config, run: seq<Event>, i: nat)
    requires config.enabled && i < |run| && run[i].Check?
    ensures Admits(config, run, i) <==> Level(config, After(config, run[..i]), run[i].key, run[i].at) >= 1.0
  {}

  lemma AllowanceOfPast(config: Config, run: seq<Event>, j: nat, i: nat)
    requires j < i < |run|
    ensures Allowance(config, run[..i], run[i].key, j, run[i].at) == AllowanceBefore(config, run, j, i)
  {
    AdmissionsOfPrefix(config, run, run[i].key, j, i, i);
  }

  lemma AdmittedWithinAllowance(config: Config, run: seq<Event>, i: nat, j: nat)
    requires config.enabled && InTimeOrder(run)
    requires j < i < |run| && Admits(config, run, i) && run[j].key == run[i].key
    ensures AllowanceBefore(config, run, j, i) >= 1.0
  {
    AdmittedIffLevel(config, run, i);
    LevelIsLeastAllowance(config, run[..i], run[i].key, run[i].at);
    assert run[..i][j].key == run[i].key;
    AllowanceOfPast(config, run, j, i);
  }

  lemma RefusedBeyondAllowance(config: Config, run: seq<Event>, i: nat) returns (j: nat)
    requires config.enabled && InTimeOrder(run)
    requires i < |run| && run[i].Check? && !Admits(config, run, i)
    requires config.Burst(run[i].key.class_) >= 1.0
    ensures j < i && run[j].key == run[i].key && AllowanceBefore(config, run, j, i) < 1.0
  {
    AdmittedIffLevel(config, run, i);
    var past := run[..i];
    LevelIsLeastAllowance(config, past, run[i].key, run[i].at);
    j :| 0 <= j < |past| && past[j].key == run[i].key
         && Level(config, After(config, past), run[i].key, run[i].at)
             == Allowance(config, past, run[i].key, j, run[i].at);
    AllowanceOfPast(config, run, j, i);
  }

  /** A check is admitted exactly when the burst allows any check at all and, from the moment of
      every earlier event of its bucket, the admissions since then and this one stay within the
      burst plus what the rate has earned. */
  lemma AdmittedIffWithinAllowance(config: Config, run: seq<Event>, i: nat)
    requires config.enabled && InTimeOrder(run)
    requires i < |run| && run[i].Check?
    ensures var key := run[i].key;
      Admits(config, run, i)
      <==> config.Burst(key.class_) >= 1.0
           && forall j :: 0 <= j < i && run[j].key == key ==>
                Admissions(config, run, key, j, i) as real + 1.0
                <= config.Burst(key.class_) + Earned(run[i].at - run[j].at, config.Rate(key.class_))
  {
    var key := run[i].key;
    if Admits(config, run, i) {
      AdmittedIffLevel(config, run, i);
      LevelIsLeastAllowance(config, run[..i], key, run[i].at);
      forall j | 0 <= j < i && run[j].key == key
        ensures Admissions(config, run, key, j, i) as real + 1.0
             <= config.Burst(key.class_) + Earned(run[i].at - run[j].at, config.Rate(key.class_))
      {
        AdmittedWithinAllowance(config, run, i, j);
      }
    } else if config.Burst(key.class_) >= 1.0 {
      var j := RefusedBeyondAllowance(config, run, i);
      assert AllowanceBefore(config, run, j, i) < 1.0;
    }
  }

  lemma EarnedGrows(x: real, y: real, rate: real)
    requires rate >= 0.0 && x <= y
    ensures Earned(x, rate) <= Earned(y, rate)
    ensures x >= 0.0 ==> Earned(x, rate) >= 0.0
  {}

  /** Admissions may be counted from the first use of the key in the window. */
  lemma {:induction false} FirstUse(config: Config, run: seq<Event>, key: Key, i: nat, k: nat) returns (j: nat)
    requires i <= k < |run| && run[k].key == key
    ensures i <= j <= k && run[j].key == key
    ensures Admissions(config, run, key, i, k) == Admissions(config, run, key, j, k)
    decreases k - i
  {
    if run[i].key == key {
      j := i;
    } else {
      j := FirstUse(config, run, key, i + 1, k);
      NothingAdmittedAt(config, run, key, i, k);
    }
  }

  lemma {:induction false} NothingAdmittedAt(config: Config, run: seq<Event>, key: Key, i: nat, k: nat)
    requires i < k <= |run| && run[i].key != key
    ensures Admissions(config, run, key, i, k) == Admissions(config, run, key, i + 1, k)
  {
    if i + 1 < k {
      NothingAdmittedAt(config, run, key, i, k - 1);
    }
  }

  /** What a rate adds to the burst over a window: nothing if it is negative. */
  function Gain(rate: real): real {
    if rate < 0.0 then 0.0 else rate
  }

  lemma EarnedAtMostGained(elapsed: real, rate: real)
    requires elapsed >= 0.0
    ensures Earned(elapsed, rate) <= Earned(elapsed, Gain(rate))
  {
    if rate < 0.0 {
      assert elapsed * -rate >= 0.0;
    }
  }

  /** No window of a run admits more than the burst plus the rate times its length, or than the burst
      alone if the rate is negative. */
  lemma {:induction false} WindowBound(config: Config, run: seq<Event>, key: Key, i: nat, k: nat)
    requires config.enabled && InTimeOrder(run)
    requires i <= k < |run|
    ensures Admissions(config, run, key, i, k + 1) as real
         <= config.Burst(key.class_) + Earned(run[k].at - run[i].at, Gain(config.Rate(key.class_)))
  {
    hide Earned, Answer, Gain;
    var rate, gain := config.Rate(key.class_), Gain(config.Rate(key.class_));
    assert gain >= 0.0 by { GainIsNotNegative(rate); }
    assert i < k ==> run[i].at <= run[k].at;
    EarnedGrows(0.0, run[k].at - run[i].at, gain);
    EarnedAdds(0.0, 0.0, gain);
    if run[k].key == key && Admits(config, run, k) {
      var j := FirstUse(config, run, key, i, k);
      AdmittedIffWithinAllowance(config, run, k);
      assert i < j ==> run[i].at <= run[j].at;
      assert j < k ==> run[j].at <= run[k].at;
      EarnedAtMostGained(run[k].at - run[j].at, rate);
      EarnedGrows(run[k].at - run[j].at, run[k].at - run[i].at, gain);
    } else if i < k {
      WindowBound(config, run, key, i, k - 1);
      assert run[k - 1].at <= run[k].at;
      EarnedGrows(run[k - 1].at - run[i].at, run[k].at - run[i].at, gain);
    }
  }

  lemma GainIsNotNegative(rate: real)
    ensures Gain(rate) >= 0.0
    ensures rate >= 0.0 ==> Gain(rate) == rate
  {}

  /** The window admits no more than the burst plus the rate, as it is, times its length. */
  predicate WithinRate(config: Config, run: seq<Event>, key: Key, i: nat, k: nat)
    requires i <= k < |run|
  {
    Admissions(config, run, key, i, k + 1) as real
    <= config.Burst(key.class_) + Earned(run[k].at - run[i].at, config.Rate(key.class_))
  }

  /** With the rate as it is, that bound holds of all windows of all runs exactly if the rate is not
      negative. */
  lemma WindowBoundIff(config: Config, key: Key)
    requires config.enabled
    ensures (forall run: seq<Event>, i: nat, k: nat :: InTimeOrder(run) && 0 <= i <= k < |run| ==>
              WithinRate(config, run, key, i, k))
       <==> config.Rate(key.class_) >= 0.0
  {
    var burst, rate := config.Burst(key.class_), config.Rate(key.class_);
    if rate >= 0.0 {
      forall run: seq<Event>, i: nat, k: nat | InTimeOrder(run) && 0 <= i <= k < |run|
        ensures WithinRate(config, run, key, i, k)
      {
        WindowBound(config, run, key, i, k);
      }
    } else {
      var at := (burst + 1.0) / -rate;
      assert at * -rate == burst + 1.0;
      assert at > 0.0 by { if at <= 0.0 { EarnedGrows(at, 0.0, -rate); EarnedAdds(0.0, 0.0, -rate); } }
      var run := [Status(key, 0.0), Status(key, at)];
      assert Earned(run[1].at - run[0].at, rate) == -(burst + 1.0);
      assert InTimeOrder(run) && !WithinRate(config, run, key, 0, 1);
    }
  }

  // ---------------------------------------------------------------------------------------
  //  What an answer depends on
  // ---------------------------------------------------------------------------------------

  /** The checks of one key in a run, in order. */
  function ChecksOf(run: seq<Event>, key: Key): (checks: seq<Event>)
    ensures forall i :: 0 <= i < |checks| ==> checks[i].Check? && checks[i].key == key && checks[i] in run
  {
    if run == [] then []
    else
      var init, last := run[..|run| - 1], run[|run| - 1];
      if last.Check? && last.key == key then ChecksOf(init, key) + [last] else ChecksOf(init, key)
  }

  lemma {:induction false} ChecksInTimeOrder(run: seq<Event>, key: Key)
    requires InTimeOrder(run)
    ensures InTimeOrder(ChecksOf(run, key))
  {
    if run != [] {
      var init := run[..|run| - 1];
      ChecksInTimeOrder(init, key);
      forall i | 0 <= i < |ChecksOf(init, key)| ensures ChecksOf(init, key)[i].at <= run[|run| - 1].at {
        assert ChecksOf(init, key)[i] in init;
      }
    }
  }

  /** Looking at a bucket early does not change what it holds later, as the rate is not negative. */
  lemma LevelFills(config: Config, buckets: Buckets, key: Key, s: real, at: real)
    requires Settled(config, buckets, s) && s <= at && config.Rate(key.class_) >= 0.0
    ensures Level(config, buckets, key, at)
         == Min(Level(config, buckets, key, s) + Earned(at - s, config.Rate(key.class_)), config.Burst(key.class_))
  {
    EarnedGrows(0.0, at - s, config.Rate(key.class_));
    EarnedAdds(0.0, 0.0, config.Rate(key.class_));
    if key in buckets {
      var b := buckets[key];
      EarnedAdds(s - b.lastRefill, at - s, b.rate);
      EarnedGrows(0.0, s - b.lastRefill, b.rate);
    }
  }

  lemma LevelsStayEqual(config: Config, all: Buckets, checked: Buckets, last: Event, at: real)
    requires config.enabled && Settled(config, all, last.at) && Settled(config, checked, last.at)
    requires last.at <= at && config.Rate(last.key.class_) >= 0.0
    requires Level(config, all, last.key, last.at) == Level(config, checked, last.key, last.at)
    ensures Level(config, Step(config, all, last), last.key, at)
         == Level(config, if last.Check? then Step(config, checked, last) else checked, last.key, at)
  {
    LevelAfterStep(config, all, last, last.key, at);
    if last.Check? {
      LevelAfterStep(config, checked, last, last.key, at);
    } else {
      LevelFills(config, checked, last.key, last.at, at);
    }
  }

  lemma ChecksSettled(config: Config, run: seq<Event>, key: Key, at: real)
    requires config.enabled && InTimeOrder(run)
    requires forall i :: 0 <= i < |run| ==> run[i].at <= at
    ensures Settled(config, After(config, run), at)
    ensures Settled(config, After(config, ChecksOf(run, key)), at)
  {
    var checks := ChecksOf(run, key);
    AlwaysSettled(config, run, at);
    ChecksInTimeOrder(run, key);
    forall i | 0 <= i < |checks| ensures checks[i].at <= at { assert checks[i] in run; }
    AlwaysSettled(config, checks, at);
  }

  lemma AfterOneMore(config: Config, run: seq<Event>, event: Event)
    ensures After(config, run + [event]) == Step(config, After(config, run), event)
  {
    assert (run + [event])[..|run|] == run;
  }

  /** A bucket holds what the checks of its own key left in it: neither other keys nor any
      status call makes a difference. */
  lemma {:induction false} LevelDependsOnChecks(config: Config, run: seq<Event>, key: Key, at: real)
    requires config.enabled && InTimeOrder(run) && config.Rate(key.class_) >= 0.0
    requires forall i :: 0 <= i < |run| ==> run[i].at <= at
    ensures Level(config, After(config, run), key, at) == Level(config, After(config, ChecksOf(run, key)), key, at)
    decreases |run|
  {
    if run != [] {
      var init, last := run[..|run| - 1], run[|run| - 1];
      ChecksSettled(config, init, key, last.at);
      if last.key != key {
        LevelDependsOnChecks(config, init, key, at);
        LevelAfterStep(config, After(config, init), last, key, at);
      } else {
        LevelDependsOnChecks(config, init, key, last.at);
        AfterOneMore(config, ChecksOf(init, key), last);
        LevelsStayEqual(config, After(config, init), After(config, ChecksOf(init, key)), last, at);
      }
    }
  }

  lemma NegativeQuotient(x: real, y: real)
    requires x > 0.0 && y < 0.0
    ensures x / y * 1000.0 < 0.0
  {}

  /** With no burst and a negative rate every check is refused, and told not to wait. */
  lemma RefusedAtOnce(config: Config, run: seq<Event>, i: nat)
    requires config.enabled && InTimeOrder(run) && i < |run| && run[i].Check?
    requires config.Burst(run[i].key.class_) < 1.0 && config.Rate(run[i].key.class_) < 0.0
    ensures Answer(config, run, i) == Refused(0)
  {
    hide Earned;
    var key, past := run[i].key, After(config, run[..i]);
    AlwaysSettled(config, run[..i], run[i].at);
    var level := Level(config, past, key, run[i].at);
    assert level <= config.Burst(key.class_);
    NegativeQuotient(1.0 - level, config.Rate(key.class_));
  }

  /** The answer, remaining tokens and retry time included, is the one the checks of the same tenant
      and class would get on their own. */
  predicate DependsOnChecks(config: Config, run: seq<Event>, i: nat)
    requires i < |run| && run[i].Check?
  {
    var checks := ChecksOf(run[..i + 1], run[i].key);
    && checks != [] && checks[|checks| - 1] == run[i]
    && Answer(config, run, i) == Answer(config, checks, |checks| - 1)
  }

  lemma LastCheck(run: seq<Event>, i: nat)
    requires i < |run| && run[i].Check?
    ensures var checks := ChecksOf(run[..i + 1], run[i].key);
      checks != [] && checks[|checks| - 1] == run[i] && checks[..|checks| - 1] == ChecksOf(run[..i], run[i].key)
  {
    assert run[..i + 1][..i] == run[..i];
  }

  /** What a check answers is decided by the level it finds. */
  function AnswerAt(level: real, rate: real): Verdict {
    if level >= 1.0 then Admitted(level - 1.0) else Refused(RetryAfterMs(1.0 - level, rate))
  }

  lemma AnswerIsOfLevel(config: Config, run: seq<Event>, i: nat)
    requires config.enabled && i < |run| && run[i].Check?
    requires Settled(config, After(config, run[..i]), run[i].at)
    ensures Answer(config, run, i)
         == AnswerAt(Level(config, After(config, run[..i]), run[i].key, run[i].at), config.Rate(run[i].key.class_))
  {
    hide Earned, RetryAfterMs, After;
  }

  lemma EventsDependOnChecks(config: Config, run: seq<Event>, i: nat)
    requires InTimeOrder(run) && i < |run| && run[i].Check?
    requires config.enabled ==> config.Rate(run[i].key.class_) >= 0.0
    ensures DependsOnChecks(config, run, i)
  {
    hide Earned, ChecksOf, After, Level, AnswerAt, Settled;
    var key, at, past := run[i].key, run[i].at, run[..i];
    var checks := ChecksOf(run[..i + 1], key);
    LastCheck(run, i);
    if config.enabled {
      hide Answer;
      AlwaysSettled(config, past, at);
      ChecksSettled(config, past, key, at);
      AnswerIsOfLevel(config, run, i);
      AnswerIsOfLevel(config, checks, |checks| - 1);
      LevelDependsOnChecks(config, past, key, at);
    }
  }

  // ---------------------------------------------------------------------------------------
  //  Calls with two readings of the clock
  // ---------------------------------------------------------------------------------------

  /** A check or a status call at the time of its refill, and the reading that a bucket it has to
      create gets before that. */
  datatype Call = Call(event: Event, born: real)

  /** `strict`: the clock moves between the two readings. */
  predicate CallsInOrder(calls: seq<Call>, strict: bool) {
    && (forall i :: 0 <= i < |calls| ==>
          if strict then calls[i].born < calls[i].event.at else calls[i].born <= calls[i].event.at)
    && forall i, j :: 0 <= i < j < |calls| ==> calls[i].event.at <= calls[j].born
  }

  function Called(config: Config, buckets: Buckets, call: Call): Buckets {
    match call.event
    case Check(key, at) => Checked(config, buckets, key, call.born, at).0
    case Status(key, at) => Queried(config, buckets, key, call.born, at)
  }

  function AfterCalls(config: Config, calls: seq<Call>): Buckets {
    if calls == [] then map[] else Called(config, AfterCalls(config, calls[..|calls| - 1]), calls[|calls| - 1])
  }

  /** The answer to the last of the calls, which is a check. */
  function LastAnswer(config: Config, calls: seq<Call>): Verdict
    requires calls != [] && calls[|calls| - 1].event.Check?
  {
    var init, last := calls[..|calls| - 1], calls[|calls| - 1];
    Checked(config, AfterCalls(config, init), last.event.key, last.born, last.event.at).1
  }

  predicate Creates(config: Config, buckets: Buckets, call: Call) {
    call.event.key !in buckets && (config.enabled || call.event.Status?)
  }

  /** The calls as events: one that creates a bucket is preceded by a status call at its birth. */
  function Expanded(config: Config, calls: seq<Call>): (run: seq<Event>)
    ensures calls != [] ==> run != [] && run[|run| - 1] == calls[|calls| - 1].event
  {
    if calls == [] then []
    else
      var init, last := calls[..|calls| - 1], calls[|calls| - 1];
      var before := Expanded(config, init);
      (if Creates(config, AfterCalls(config, init), last) then before + [Status(last.event.key, last.born)] else before)
      + [last.event]
  }

  /** The events before the last. */
  function Opened(config: Config, calls: seq<Call>): seq<Event>
    requires calls != []
  {
    var init, last := calls[..|calls| - 1], calls[|calls| - 1];
    if Creates(config, AfterCalls(config, init), last)
    then Expanded(config, init) + [Status(last.event.key, last.born)]
    else Expanded(config, init)
  }

  lemma ExpandedIs(config: Config, calls: seq<Call>)
    requires calls != []
    ensures Expanded(config, calls) == Opened(config, calls) + [calls[|calls| - 1].event]
  {}

  lemma CreatedFirst(config: Config, buckets: Buckets, call: Call)
    ensures var first :=
        if Creates(config, buckets, call) then Step(config, buckets, Status(call.event.key, call.born)) else buckets;
      && Step(config, first, call.event) == Called(config, buckets, call)
      && (call.event.Check? ==>
            Checked(config, first, call.event.key, call.event.at, call.event.at).1
            == Checked(config, buckets, call.event.key, call.born, call.event.at).1)
  {}

  lemma OpenedIs(config: Config, calls: seq<Call>)
    requires calls != []
    requires After(config, Expanded(config, calls[..|calls| - 1])) == AfterCalls(config, calls[..|calls| - 1])
    ensures var before, last := AfterCalls(config, calls[..|calls| - 1]), calls[|calls| - 1];
      After(config, Opened(config, calls))
      == if Creates(config, before, last) then Step(config, before, Status(last.event.key, last.born)) else before
  {
    hide Step, Creates, After, AfterCalls, Expanded;
    var init, last := calls[..|calls| - 1], calls[|calls| - 1];
    AfterOneMore(config, Expanded(config, init), Status(last.event.key, last.born));
  }

  lemma {:induction false} ExpandedInOrder(config: Config, calls: seq<Call>, strict: bool)
    requires CallsInOrder(calls, strict)
    ensures var run := Expanded(config, calls);
      InTimeOrder(run) && forall i :: 0 <= i < |run| ==> run[i].at <= calls[|calls| - 1].event.at
  {
    hide Creates, AfterCalls, Expanded;
    if calls == [] {
      assert Expanded(config, []) == [] by { NothingExpanded(config); }
    } else {
      var init, last := calls[..|calls| - 1], calls[|calls| - 1];
      ExpandedInOrder(config, init, strict);
      ExpandedIs(config, calls);
      assert init != [] ==> init[|init| - 1].event.at <= last.born;
      assert Expanded(config, init) == [] || init != [] by { NothingExpanded(config); }
      OneMoreInOrder(Expanded(config, init), Status(last.event.key, last.born));
      OneMoreInOrder(Opened(config, calls), last.event);
    }
  }

  lemma OneMoreInOrder(run: seq<Event>, event: Event)
    requires InTimeOrder(run)
    ensures (forall i :: 0 <= i < |run| ==> run[i].at <= event.at) ==>
      InTimeOrder(run + [event]) && forall i :: 0 <= i < |run| + 1 ==> (run + [event])[i].at <= event.at
  {}

  lemma NothingExpanded(config: Config)
    ensures Expanded(config, []) == []
  {}

  /** All that holds over runs of events holds over calls: they leave the same buckets. */
  lemma {:induction false} CallsAreEvents(config: Config, calls: seq<Call>)
    ensures After(config, Expanded(config, calls)) == AfterCalls(config, calls)
  {
    hide Step, Called, Creates, Expanded, Opened;
    if calls == [] {
      NothingExpanded(config);
    } else {
      var init, last := calls[..|calls| - 1], calls[|calls| - 1];
      CallsAreEvents(config, init);
      CreatedFirst(config, AfterCalls(config, init), last);
      OpenedIs(config, calls);
      ExpandedIs(config, calls);
      AfterOneMore(config, Opened(config, calls), last.event);
    }
  }

  /** And they get the same answers. */
  lemma AnswersAreEvents(config: Config, calls: seq<Call>)
    requires calls != [] && calls[|calls| - 1].event.Check?
    ensures var run := Expanded(config, calls); Answer(config, run, |run| - 1) == LastAnswer(config, calls)
  {
    hide Step, Called, Creates, Expanded, Opened, After, AfterCalls, Checked;
    var init, last, first := calls[..|calls| - 1], calls[|calls| - 1], Opened(config, calls);
    CallsAreEvents(config, init);
    CreatedFirst(config, AfterCalls(config, init), last);
    OpenedIs(config, calls);
    ExpandedIs(config, calls);
    assert (first + [last.event])[..|first|] == first;
  }

  /** The check calls of one key, in order. */
  function CheckCallsOf(calls: seq<Call>, key: Key): (checks: seq<Call>)
    ensures forall i :: 0 <= i < |checks| ==> checks[i] in calls
  {
    if calls == [] then []
    else
      var init, last := calls[..|calls| - 1], calls[|calls| - 1];
      if last.event.Check? && last.event.key == key then CheckCallsOf(init, key) + [last] else CheckCallsOf(init, key)
  }

  lemma {:induction false} CheckCallsInOrder(calls: seq<Call>, key: Key, strict: bool)
    requires CallsInOrder(calls, strict)
    ensures CallsInOrder(CheckCallsOf(calls, key), strict)
  {
    if calls != [] {
      var init := calls[..|calls| - 1];
      CheckCallsInOrder(init, key, strict);
      forall i | 0 <= i < |CheckCallsOf(init, key)|
        ensures CheckCallsOf(init, key)[i].event.at <= calls[|calls| - 1].born
      {
        assert CheckCallsOf(init, key)[i] in init;
      }
    }
  }

  lemma ChecksOfOneMore(run: seq<Event>, event: Event, key: Key)
    ensures ChecksOf(run + [event], key)
         == if event.Check? && event.key == key then ChecksOf(run, key) + [event] else ChecksOf(run, key)
  {
    assert (run + [event])[..|run|] == run;
  }

  function EventsOf(calls: seq<Call>): (run: seq<Event>)
    ensures |run| == |calls|
    ensures forall i :: 0 <= i < |run| ==> run[i] == calls[i].event
  {
    seq(|calls|, i requires 0 <= i < |calls| => calls[i].event)
  }

  lemma EventsOfOneMore(calls: seq<Call>, call: Call)
    ensures EventsOf(calls + [call]) == EventsOf(calls) + [call.event]
  {}

  /** The events of a run of calls have the same checks of the key as the check calls alone. */
  lemma {:induction false} ChecksOfExpanded(config: Config, calls: seq<Call>, key: Key)
    ensures ChecksOf(Expanded(config, calls), key) == EventsOf(CheckCallsOf(calls, key))
  {
    hide Creates, AfterCalls, Expanded, ChecksOf, EventsOf;
    if calls == [] {
      NothingExpanded(config);
      assert ChecksOf([], key) == EventsOf([]) by { NoChecks(key); }
    } else {
      var init, last := calls[..|calls| - 1], calls[|calls| - 1];
      ChecksOfExpanded(config, init, key);
      ExpandedIs(config, calls);
      ChecksOfOneMore(Expanded(config, init), Status(last.event.key, last.born), key);
      ChecksOfOneMore(Opened(config, calls), last.event, key);
      EventsOfOneMore(CheckCallsOf(init, key), last);
    }
  }

  lemma NoChecks(key: Key)
    ensures ChecksOf([], key) == EventsOf([])
  {}

  lemma {:induction false} CheckCallsAlone(calls: seq<Call>, key: Key)
    ensures CheckCallsOf(CheckCallsOf(calls, key), key) == CheckCallsOf(calls, key)
  {
    if calls != [] {
      var init, last := calls[..|calls| - 1], calls[|calls| - 1];
      CheckCallsAlone(init, key);
      var checks := CheckCallsOf(init, key);
      assert (checks + [last])[..|checks|] == checks;
    }
  }

  // ---------------------------------------------------------------------------------------
  //  Which limits status calls leave alone
  // ---------------------------------------------------------------------------------------

  /** The last answer, remaining tokens and retry time included, is the one the checks of the same
      tenant and class would get on their own. */
  predicate LastDependsOnChecks(config: Config, calls: seq<Call>)
    requires calls != [] && calls[|calls| - 1].event.Check?
  {
    LastAnswer(config, calls) == LastAnswer(config, CheckCallsOf(calls, calls[|calls| - 1].event.key))
  }

  /** Limiting is off, or tokens do not drain away, or there is none to drain, or, if the clock moves
      on, no whole one by the time it is looked at. */
  predicate IsTransparent(config: Config, class_: Class, strict: bool) {
    || !config.enabled
    || config.Rate(class_) >= 0.0
    || config.Burst(class_) == 0.0
    || (strict && config.Burst(class_) <= 1.0)
  }

  lemma WholeExpansion(config: Config, calls: seq<Call>, strict: bool)
    requires CallsInOrder(calls, strict) && calls != [] && calls[|calls| - 1].event.Check?
    requires config.enabled ==> config.Rate(calls[|calls| - 1].event.key.class_) >= 0.0
    ensures var key := calls[|calls| - 1].event.key;
      var checks := EventsOf(CheckCallsOf(calls, key));
      checks != [] && checks[|checks| - 1].Check? && LastAnswer(config, calls) == Answer(config, checks, |checks| - 1)
  {
    hide Answer, LastAnswer, Expanded, AfterCalls;
    var run := Expanded(config, calls);
    ExpandedInOrder(config, calls, strict);
    AnswersAreEvents(config, calls);
    EventsDependOnChecks(config, run, |run| - 1);
    assert run[..|run|] == run;
    ChecksOfExpanded(config, calls, calls[|calls| - 1].event.key);
  }

  /** Draining, with at most one token and that one not whole any more when it is looked at, a bucket
      refuses every check and tells it not to wait. */
  lemma DrainedRefuses(config: Config, calls: seq<Call>, strict: bool)
    requires config.enabled && CallsInOrder(calls, strict) && calls != [] && calls[|calls| - 1].event.Check?
    requires var class_ := calls[|calls| - 1].event.key.class_;
      config.Rate(class_) < 0.0 && (config.Burst(class_) == 0.0 || (strict && config.Burst(class_) <= 1.0))
    ensures LastAnswer(config, calls) == Refused(0)
  {
    hide LastAnswer, Expanded, AfterCalls, Answer, Earned;
    var run, key := Expanded(config, calls), calls[|calls| - 1].event.key;
    ExpandedInOrder(config, calls, strict);
    AnswersAreEvents(config, calls);
    if config.Burst(key.class_) < 1.0 {
      RefusedAtOnce(config, run, |run| - 1);
    } else {
      var j := FirstLook(config, calls);
      AdmittedIffWithinAllowance(config, run, |run| - 1);
      EarnedNegative(run[|run| - 1].at - run[j].at, config.Rate(key.class_));
      RefusedDraining(config, run, |run| - 1);
    }
  }

  lemma EarnedNegative(elapsed: real, rate: real)
    requires elapsed > 0.0 && rate < 0.0
    ensures Earned(elapsed, rate) < 0.0
  {}

  lemma RefusedDraining(config: Config, run: seq<Event>, i: nat)
    requires config.enabled && InTimeOrder(run) && i < |run| && run[i].Check?
    requires !Admits(config, run, i) && config.Rate(run[i].key.class_) < 0.0
    ensures Answer(config, run, i) == Refused(0)
  {
    hide Earned, Refilled;
    AlwaysSettled(config, run[..i], run[i].at);
    AnswerIsOfLevel(config, run, i);
    var level := Level(config, After(config, run[..i]), run[i].key, run[i].at);
    assert level < 1.0;
    NegativeQuotient(1.0 - level, config.Rate(run[i].key.class_));
  }

  /** A bucket that is in use was looked at strictly before the last call. */
  lemma FirstLook(config: Config, calls: seq<Call>) returns (j: nat)
    requires config.enabled && CallsInOrder(calls, true) && calls != []
    ensures var run := Expanded(config, calls);
      j < |run| - 1 && run[j].key == calls[|calls| - 1].event.key && run[j].at < calls[|calls| - 1].event.at
  {
    var init, last := calls[..|calls| - 1], calls[|calls| - 1];
    var before := Expanded(config, init);
    if last.event.key in AfterCalls(config, init) {
      j := LookedAt(config, init, last.event.key);
    } else {
      j := |before|;
    }
  }

  lemma {:induction false} LookedAt(config: Config, calls: seq<Call>, key: Key) returns (j: nat)
    requires config.enabled && CallsInOrder(calls, true) && key in AfterCalls(config, calls)
    ensures var run := Expanded(config, calls);
      j < |run| && run[j].key == key && calls != [] && run[j].at <= calls[|calls| - 1].event.at
  {
    var init, last := calls[..|calls| - 1], calls[|calls| - 1];
    if last.event.key == key {
      j := |Expanded(config, calls)| - 1;
    } else {
      j := LookedAt(config, init, key);
    }
  }

  lemma AnswerDependsOnChecks(config: Config, calls: seq<Call>, strict: bool)
    requires CallsInOrder(calls, strict) && calls != [] && calls[|calls| - 1].event.Check?
    requires IsTransparent(config, calls[|calls| - 1].event.key.class_, strict)
    ensures LastDependsOnChecks(config, calls)
  {
    hide LastAnswer, Answer;
    var key := calls[|calls| - 1].event.key;
    var checks := CheckCallsOf(calls, key);
    CheckCallsInOrder(calls, key, strict);
    if !config.enabled || config.Rate(key.class_) >= 0.0 {
      WholeExpansion(config, calls, strict);
      WholeExpansion(config, checks, strict);
      CheckCallsAlone(calls, key);
    } else {
      DrainedRefuses(config, calls, strict);
      DrainedRefuses(config, checks, strict);
    }
  }

  /** A negative rate drains a bucket from its birth: a status call long before a check makes the
      check refused that would be admitted on its own, `gap` after creating the bucket itself. */
  lemma NegativeRateIsNotTransparent(config: Config, key: Key, gap: real) returns (calls: seq<Call>)
    requires config.enabled && gap >= 0.0
    requires var burst, rate := config.Burst(key.class_), config.Rate(key.class_);
      rate < 0.0 && burst + Earned(gap, rate) >= 1.0
    ensures CallsInOrder(calls, gap > 0.0) && |calls| == 2
    ensures calls[0].event.Status? && calls[0].event.key == key
    ensures calls[1].event.Check? && calls[1].event.key == key
    ensures LastAnswer(config, [calls[1]]).Admitted? && LastAnswer(config, calls).Refused?
    ensures CheckCallsOf(calls, key) == [calls[1]] && !LastDependsOnChecks(config, calls)
  {
    var burst, rate := config.Burst(key.class_), config.Rate(key.class_);
    var late := gap + gap + burst / -rate;
    var status, check := Call(Status(key, gap), 0.0), Call(Check(key, late), late - gap);
    calls := [status, check];
    LaterThan(burst, rate);
    DrainedAfter(gap, burst, rate);
    assert calls[..1] == [status] && [status][..0] == [] && [check][..0] == [];
    assert AfterCalls(config, [status]) == Queried(config, map[], key, 0.0, gap);
    assert CheckCallsOf([status], key) == [];
  }

  lemma LaterThan(burst: real, rate: real)
    requires burst >= 0.0 && rate < 0.0
    ensures burst / -rate >= 0.0
  {}

  lemma DrainedAfter(gap: real, burst: real, rate: real)
    requires burst >= 0.0 && rate < 0.0 && gap >= 0.0
    ensures burst + Earned(gap + gap + burst / -rate, rate) <= 0.0
    ensures Earned(gap, rate) + Earned(gap + burst / -rate, rate) == Earned(gap + gap + burst / -rate, rate)
    ensures Earned(gap, rate) <= 0.0
  {
    var wait := burst / -rate;
    assert wait * -rate == burst;
    EarnedAdds(gap, gap, rate);
    EarnedAdds(gap + gap, wait, rate);
    EarnedAdds(gap, gap + wait, rate);
    assert gap * -rate >= 0.0;
  }

  /** Status calls and other callers never change an answer exactly if limiting is off, the rate is
      not negative, or the burst is zero; if the clock always moves between creating a bucket and
      looking into it, a burst of one is as good. */
  lemma StatusIsTransparentIff(config: Config, key: Key, strict: bool)
    ensures (forall calls: seq<Call> ::
              CallsInOrder(calls, strict) && calls != [] && calls[|calls| - 1].event.Check?
              && calls[|calls| - 1].event.key == key ==>
              LastDependsOnChecks(config, calls))
       <==> IsTransparent(config, key.class_, strict)
  {
    hide LastDependsOnChecks;
    if IsTransparent(config, key.class_, strict) {
      forall calls: seq<Call> |
          CallsInOrder(calls, strict) && calls != [] && calls[|calls| - 1].event.Check?
          && calls[|calls| - 1].event.key == key
        ensures LastDependsOnChecks(config, calls)
      {
        AnswerDependsOnChecks(config, calls, strict);
      }
    } else {
      var gap := OneTokenLess(config, key, strict);
      var calls := NegativeRateIsNotTransparent(config, key, gap);
    }
  }

  /** A time in which a bucket that drains loses one token, if it can and has to. */
  lemma OneTokenLess(config: Config, key: Key, strict: bool) returns (gap: real)
    requires !IsTransparent(config, key.class_, strict)
    ensures gap >= 0.0 && (strict <==> gap > 0.0)
    ensures config.Burst(key.class_) + Earned(gap, config.Rate(key.class_)) >= 1.0
  {
    var rate := config.Rate(key.class_);
    if strict {
      gap := 1.0 / -rate;
      assert gap * -rate == 1.0;
      assert gap > 0.0 by { if gap <= 0.0 { EarnedGrows(gap, 0.0, -rate); EarnedAdds(0.0, 0.0, -rate); } }
    } else {
      gap := 0.0;
    }
  }

  // ---------------------------------------------------------------------------------------
  //  Retrying
  // ---------------------------------------------------------------------------------------

  lemma CeilingBounds(x: real)
    ensures x <= Ceiling(x) as real < x + 1.0
  {}

  lemma EarnedReaches(elapsed: real, deficit: real, rate: real)
    requires rate > 0.0
    ensures Earned(elapsed, rate) >= deficit <==> elapsed >= deficit / rate
  {
    var wait := deficit / rate;
    assert Earned(wait, rate) == deficit;
    if elapsed >= wait { EarnedGrows(wait, elapsed, rate); }
    if elapsed < wait {
      EarnedAdds(elapsed, wait - elapsed, rate);
      assert (wait - elapsed) * rate > 0.0;
    }
  }

  lemma {:induction false} AdmissionsAdd(config: Config, run: seq<Event>, key: Key, j: nat, i: nat, k: nat)
    requires j <= i <= k <= |run|
    ensures Admissions(config, run, key, j, k)
         == Admissions(config, run, key, j, i) + Admissions(config, run, key, i, k)
  {
    if i < k {
      AdmissionsAdd(config, run, key, j, i, k - 1);
    }
  }

  /** The tokens that the i-th event finds. */
  function Found(config: Config, run: seq<Event>, i: nat): real
    requires i < |run|
  {
    Level(config, After(config, run[..i]), run[i].key, run[i].at)
  }

  /** A refusal gives the time in which its deficit is earned, rounded up to a millisecond. */
  lemma WaitIsRoundedUp(config: Config, run: seq<Event>, i: nat, elapsed: real)
    requires config.enabled && InTimeOrder(run) && i < |run| && run[i].Check? && config.Rate(run[i].key.class_) > 0.0
    requires Answer(config, run, i).Refused? && Answer(config, run, i).retryAfterMs < U64_MAX
    ensures var ms, earned := Answer(config, run, i).retryAfterMs as real,
        Earned(elapsed, config.Rate(run[i].key.class_));
      && Found(config, run, i) < 1.0
      && (elapsed >= ms / 1000.0 ==> Found(config, run, i) + earned >= 1.0)
      && (elapsed <= (ms - 1.0) / 1000.0 ==> Found(config, run, i) + earned < 1.0)
  {
    hide Earned, Level, Answer, After;
    var rate := config.Rate(run[i].key.class_);
    AlwaysSettled(config, run[..i], run[i].at);
    AnswerIsOfLevel(config, run, i);
    var deficit := 1.0 - Found(config, run, i);
    EarnedReaches(elapsed, deficit, rate);
    EarnedReaches(0.0, deficit, rate);
    EarnedAdds(0.0, 0.0, rate);
    CeilingBounds(deficit / rate * 1000.0);
  }

  /** What the i-th event finds is no more than any earlier event of its bucket allows it, and is the
      burst or as much as one of them allows. */
  lemma FoundIsLeast(config: Config, run: seq<Event>, i: nat)
    requires config.enabled && InTimeOrder(run) && i < |run|
    ensures forall j :: 0 <= j < i && run[j].key == run[i].key ==>
      Found(config, run, i) <= AllowanceBefore(config, run, j, i)
    ensures Found(config, run, i) == config.Burst(run[i].key.class_)
      || exists j :: 0 <= j < i && run[j].key == run[i].key
           && Found(config, run, i) == AllowanceBefore(config, run, j, i)
  {
    hide Level, Allowance, AllowanceBefore, Earned, After;
    var past := run[..i];
    LevelIsLeastAllowance(config, past, run[i].key, run[i].at);
    forall j | 0 <= j < i { AllowanceOfPast(config, run, j, i); }
    assert forall j :: 0 <= j < i ==> past[j] == run[j];
  }

  /** What an event allows later is what it allowed and what was earned since, less what was admitted. */
  lemma AllowanceLater(config: Config, run: seq<Event>, j: nat, i: nat, k: nat)
    requires j <= i <= k < |run| && run[i].key == run[k].key
    ensures AllowanceBefore(config, run, j, k)
         == AllowanceBefore(config, run, j, i) + Earned(run[k].at - run[i].at, config.Rate(run[k].key.class_))
            - Admissions(config, run, run[k].key, i, k) as real
  {
    AdmissionsAdd(config, run, run[k].key, j, i, k);
    EarnedAdds(run[i].at - run[j].at, run[k].at - run[i].at, config.Rate(run[k].key.class_));
  }

  /** A refused caller who comes again when the time it was given has passed is admitted if no other
      check of its bucket was admitted in between, whatever was refused or asked for meanwhile. */
  lemma RetryIsAdmitted(config: Config, run: seq<Event>, i: nat, k: nat)
    requires config.enabled && InTimeOrder(run) && i < k < |run| && run[i].Check? && run[k].Check?
    requires run[i].key == run[k].key
    requires config.Rate(run[i].key.class_) > 0.0 && config.Burst(run[i].key.class_) >= 1.0
    requires Answer(config, run, i).Refused? && Answer(config, run, i).retryAfterMs < U64_MAX
    requires Admissions(config, run, run[i].key, i, k) == 0
    requires run[k].at >= run[i].at + Answer(config, run, i).retryAfterMs as real / 1000.0
    ensures Admits(config, run, k)
  {
    hide Answer, Earned, Admits, Admissions, Found, AllowanceBefore;
    var key, rate := run[i].key, config.Rate(run[i].key.class_);
    WaitIsRoundedUp(config, run, i, run[k].at - run[i].at);
    FoundIsLeast(config, run, i);
    forall j | 0 <= j < k && run[j].key == key ensures AllowanceBefore(config, run, j, k) >= 1.0 {
      if j < i {
        AllowanceLater(config, run, j, i, k);
      } else {
        AdmissionsAdd(config, run, key, i, j, k);
        EarnedGrows(0.0, run[k].at - run[j].at, rate);
        AllowanceIs(config, run, j, k);
      }
    }
    forall j | 0 <= j < k && run[j].key == key
      ensures Admissions(config, run, key, j, k) as real + 1.0
           <= config.Burst(key.class_) + Earned(run[k].at - run[j].at, rate)
    {
      AllowanceIs(config, run, j, k);
    }
    AdmittedIffWithinAllowance(config, run, k);
  }

  lemma AllowanceIs(config: Config, run: seq<Event>, j: nat, k: nat)
    requires j <= k < |run|
    ensures AllowanceBefore(config, run, j, k)
         == config.Burst(run[k].key.class_) + Earned(run[k].at - run[j].at, config.Rate(run[k].key.class_))
            - Admissions(config, run, run[k].key, j, k) as real
  {}

  /** A check of its bucket that comes a whole millisecond before that time or earlier is refused,
      whatever came in between. */
  lemma EarlyRetryIsRefused(config: Config, run: seq<Event>, i: nat, k: nat)
    requires config.enabled && InTimeOrder(run) && i < k < |run| && run[i].Check? && run[k].Check?
    requires run[i].key == run[k].key
    requires config.Rate(run[i].key.class_) > 0.0 && config.Burst(run[i].key.class_) >= 1.0
    requires Answer(config, run, i).Refused? && Answer(config, run, i).retryAfterMs < U64_MAX
    requires run[k].at <= run[i].at + (Answer(config, run, i).retryAfterMs as real - 1.0) / 1000.0
    ensures !Admits(config, run, k)
  {
    hide Answer, Earned, Admits, Admissions, Found, AllowanceBefore;
    WaitIsRoundedUp(config, run, i, run[k].at - run[i].at);
    FoundIsLeast(config, run, i);
    var j :| 0 <= j < i && run[j].key == run[i].key && Found(config, run, i) == AllowanceBefore(config, run, j, i);
    AllowanceLater(config, run, j, i, k);
    AllowanceIs(config, run, j, k);
    AdmittedIffWithinAllowance(config, run, k);
  }

  /** The retry time is tight: after it, with no competing admission, the caller is admitted, and a
      whole millisecond earlier nobody is. */
  lemma RetryAfterIsTight(config: Config, run: seq<Event>, i: nat, k: nat)
    requires config.enabled && InTimeOrder(run) && i < k < |run| && run[i].Check? && run[k].Check?
    requires run[i].key == run[k].key
    requires config.Rate(run[i].key.class_) > 0.0 && config.Burst(run[i].key.class_) >= 1.0
    requires Answer(config, run, i).Refused? && Answer(config, run, i).retryAfterMs < U64_MAX
    ensures var ms := Answer(config, run, i).retryAfterMs as real;
      && (run[k].at >= run[i].at + ms / 1000.0 && Admissions(config, run, run[i].key, i, k) == 0 ==>
            Admits(config, run, k))
      && (run[k].at <= run[i].at + (ms - 1.0) / 1000.0 ==> !Admits(config, run, k))
  {
    hide Answer, Admits, Admissions;
    var ms := Answer(config, run, i).retryAfterMs as real;
    if run[k].at >= run[i].at + ms / 1000.0 && Admissions(config, run, run[i].key, i, k) == 0 {
      RetryIsAdmitted(config, run, i, k);
    }
    if run[k].at <= run[i].at + (ms - 1.0) / 1000.0 {
      EarlyRetryIsRefused(config, run, i, k);
    }
  }

  // ---------------------------------------------------------------------------------------
  //  Until full
  // ---------------------------------------------------------------------------------------

  /** With a positive rate a bucket that is left alone is full after the seconds that a status call
      gives, and a whole second or more before that it is not. */
  lemma FullInSeconds(b: Bucket, at: real)
    requires b.rate > 0.0 && b.tokens <= b.max && at >= b.lastRefill
    requires SecondsUntilFull(b) < U64_MAX
    ensures at >= b.lastRefill + SecondsUntilFull(b) as real ==> Refilled(b, at).tokens == b.max
    ensures at <= b.lastRefill + (SecondsUntilFull(b) as real - 1.0) ==> Refilled(b, at).tokens < b.max
  {
    if b.tokens < b.max {
      var deficit := b.max - b.tokens;
      EarnedReaches(at - b.lastRefill, deficit, b.rate);
      EarnedReaches(0.0, deficit, b.rate);
      EarnedAdds(0.0, 0.0, b.rate);
      CeilingBounds(deficit / b.rate);
      hide Earned;
    }
  }

  // ---------------------------------------------------------------------------------------
  //  Which limits an operation meets
  // ---------------------------------------------------------------------------------------

  const WRITES := ["remember", "revise", "forget"]
  const ADMINS := ["reflect", "reflect_policy", "set_policy", "key_create", "key_revoke", "key_list"]

  /** Writing operations meet the write limits, administrative ones the admin limits and all others,
      known or not, the read limits, each from a full bucket of the tenant that the other two kinds do
      not draw on. */
  lemma OperationMeetsLimits(config: Config, tenant: string, operation: string, now: real)
    ensures var key := Key(tenant, ClassOf(operation));
      var first := Fetched(config, map[], key, now);
      if operation in WRITES then
        first == Bucket(config.writeBurst as real, config.writeBurst as real, config.writeRate, now)
      else if operation in ADMINS then
        first == Bucket(config.adminBurst as real, config.adminBurst as real, config.adminRate, now)
      else
        first == Bucket(config.readBurst as real, config.readBurst as real, config.readRate, now)
    ensures forall other: string, name :: Key(tenant, ClassOf(operation)) == Key(other, ClassOf(name)) <==>
      tenant == other && (operation in WRITES <==> name in WRITES) && (operation in ADMINS <==> name in ADMINS)
  {
    forall name: string
      ensures ClassOf(name) == if name in WRITES then Write else if name in ADMINS then Admin else Read
    {
      ClassIs(name);
    }
  }

  lemma ClassIs(name: string)
    ensures ClassOf(name) == if name in WRITES then Write else if name in ADMINS then Admin else Read
  {
    assert name in WRITES <==> name == WRITES[0] || name == WRITES[1] || name == WRITES[2];
    assert name in ADMINS <==>
        || name == ADMINS[0] || name == ADMINS[1] || name == ADMINS[2]
        || name == ADMINS[3] || name == ADMINS[4] || name == ADMINS[5];
  }

  /** A retry time is cut at the greatest 64-bit number only if the wait is longer than that, or if
      there is no rate. */
  lemma RetryIsCutIff(deficit: real, rate: real)
    requires deficit > 0.0 && rate >= 0.0
    ensures RetryAfterMs(deficit, rate) == U64_MAX
       <==> rate == 0.0 || deficit / rate * 1000.0 > (U64_MAX - 1) as real
  {
    if rate > 0.0 {
      CeilingBounds(deficit / rate * 1000.0);
    }
  }
}
