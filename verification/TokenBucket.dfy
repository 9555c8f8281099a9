/** The per-socket rate limit: a bucket refilled whole, never more often than once in its period. */
module TokenBucket {
  import opened Prelude

  type Time = int

  datatype BucketName = MESSAGE | TYPING

  datatype Config = Config(capacity: nat, refillMs: nat)

  datatype Bucket = Bucket(tokens: int, at: Time)

  function ConfigOf(name: BucketName): Config {
    match name
    case MESSAGE => Config(20, 10_000)
    case TYPING => Config(5, 10_000)
  }

  /** One call: the bucket it leaves, and whether it was granted. A missing bucket is made full. */
  function TakeOne(held: Option<Bucket>, config: Config, now: Time): (Bucket, bool) {
    var bucket := if held.Some? then held.value else Bucket(config.capacity, now);
    var filled := if now - bucket.at >= config.refillMs then Bucket(config.capacity, now) else bucket;
    if filled.tokens <= 0 then (filled, false) else (filled.(tokens := filled.tokens - 1), true)
  }

  class SocketData {
    var buckets: map<BucketName, Bucket>

    constructor ()
      ensures buckets == map[]
    {
      buckets := map[];
    }

    function Held(name: BucketName): Option<Bucket>
      reads this
    {
      if name in buckets then Some(buckets[name]) else None
    }

    method TakeToken(name: BucketName, now: Time) returns (granted: bool)
      modifies this
      ensures
        var (bucket, given) := TakeOne(old(Held(name)), ConfigOf(name), now);
        buckets == old(buckets)[name := bucket] && granted == given
      ensures
        var capacity := if name == MESSAGE then 20 else 5;
        var full := name !in old(buckets) || now - old(buckets)[name].at >= 10_000;
        var held := if full then Bucket(capacity, now) else old(buckets)[name];
        && (granted <==> held.tokens > 0)
        && buckets == old(buckets)[name := if granted then Bucket(held.tokens - 1, held.at) else held]
    {
      var config := ConfigOf(name);
      if name !in buckets {
        buckets := buckets[name := Bucket(config.capacity, now)];
      }
      if now - buckets[name].at >= config.refillMs {
        buckets := buckets[name := Bucket(config.capacity, now)];
      }
      if buckets[name].tokens <= 0 {
        return false;
      }
      buckets := buckets[name := buckets[name].(tokens := buckets[name].tokens - 1)];
      return true;
    }
  }

  // ---- How much a window can be granted ----

  /** The bucket after calls at the given times. */
  function After(held: Option<Bucket>, config: Config, times: seq<Time>): Option<Bucket>
    decreases |times|
  {
    if times == [] then held else After(Some(TakeOne(held, config, times[0]).0), config, times[1..])
  }

  function Grants(held: Option<Bucket>, config: Config, times: seq<Time>): nat
    decreases |times|
  {
    if times == [] then 0
    else
      var (bucket, granted) := TakeOne(held, config, times[0]);
      (if granted then 1 else 0) + Grants(Some(bucket), config, times[1..])
  }

  /** The clock does not run backwards. */
  ghost predicate InOrder(times: seq<Time>) {
    forall i, j :: 0 <= i < j < |times| ==> times[i] <= times[j]
  }

  /** Whole periods from `from` to `to`. */
  function Periods(from: Time, to: Time, refillMs: nat): int
    requires refillMs > 0
  {
    (to - from) / refillMs
  }

  lemma PeriodsShrink(from: Time, later: Time, to: Time, refillMs: nat)
    requires refillMs > 0 && from <= later <= to
    ensures 0 <= Periods(later, to, refillMs) <= Periods(from, to, refillMs)
    ensures later - from >= refillMs ==> Periods(later, to, refillMs) + 1 <= Periods(from, to, refillMs)
  {
    AtLeast(to - later, to - from, refillMs);
    if later - from >= refillMs {
      AtLeast(to - later + refillMs, to - from, refillMs);
      OneMore(to - later, refillMs);
    }
  }

  lemma AtLeast(a: nat, b: nat, d: nat)
    requires a <= b && d > 0
    ensures 0 <= a / d <= b / d
  {
    var p, q := a / d, b / d;
    assert a == p * d + a % d && b == q * d + b % d;
    if q < p {
      Multiple(q, p, d);
    }
  }

  lemma Multiple(q: int, p: int, d: nat)
    requires q < p
    ensures q * d + d <= p * d
  {
    assert (q + 1) * d <= p * d;
  }

  lemma OneMore(a: nat, d: nat)
    requires d > 0
    ensures (a + d) / d == a / d + 1
  {
    var q, p := a / d, (a + d) / d;
    assert a == q * d + a % d && a + d == p * d + (a + d) % d;
    assert (q + 1) * d == q * d + d;
    if p < q + 1 {
      Multiple(p, q + 1, d);
    } else if q + 1 < p {
      Multiple(q + 1, p, d);
    }
  }

  lemma MoreIsMore(capacity: nat, a: int, b: int)
    requires a <= b
    ensures capacity * a <= capacity * b
  {
  }

  /** From a bucket filled at `at`, each further filling needs another whole period. */
  lemma {:induction false} GrantsSinceFilling(bucket: Bucket, config: Config, times: seq<Time>, end: Time)
    requires config.refillMs > 0 && InOrder(times) && 0 <= bucket.tokens <= config.capacity
    requires bucket.at <= end && forall t :: t in times ==> bucket.at <= t <= end
    ensures Grants(Some(bucket), config, times)
            <= bucket.tokens + config.capacity * Periods(bucket.at, end, config.refillMs)
    decreases |times|
  {
    PeriodsShrink(bucket.at, bucket.at, end, config.refillMs);
    MoreIsMore(config.capacity, 0, Periods(bucket.at, end, config.refillMs));
    if times != [] {
      var now, next := times[0], TakeOne(Some(bucket), config, times[0]).0;
      assert now in times;
      forall t | t in times[1..]
        ensures next.at <= t <= end
      {
        assert t in times;
        var j :| 0 <= j < |times[1..]| && times[1..][j] == t;
        assert times[j + 1] == t;
      }
      GrantsSinceFilling(next, config, times[1..], end);
      PeriodsShrink(bucket.at, now, end, config.refillMs);
      if now - bucket.at >= config.refillMs {
        MoreIsMore(config.capacity, Periods(now, end, config.refillMs) + 1, Periods(bucket.at, end, config.refillMs));
        assert config.capacity * (Periods(now, end, config.refillMs) + 1)
            == config.capacity * Periods(now, end, config.refillMs) + config.capacity;
      }
    }
  }

  /** Whenever the bucket was last filled, a window sees at most one filling more than it holds whole periods. */
  lemma {:induction false} GrantsInWindow(bucket: Bucket, config: Config, times: seq<Time>, start: Time, end: Time)
    requires config.refillMs > 0 && InOrder(times) && 0 <= bucket.tokens <= config.capacity
    requires bucket.at <= start <= end && forall t :: t in times ==> start <= t <= end
    ensures Grants(Some(bucket), config, times)
            <= bucket.tokens + config.capacity * (Periods(start, end, config.refillMs) + 1)
    decreases |times|
  {
    PeriodsShrink(start, start, end, config.refillMs);
    MoreIsMore(config.capacity, 0, Periods(start, end, config.refillMs) + 1);
    if times != [] {
      var now, next := times[0], TakeOne(Some(bucket), config, times[0]).0;
      assert now in times;
      forall t | t in times[1..]
        ensures now <= t <= end && start <= t
      {
        assert t in times;
        var j :| 0 <= j < |times[1..]| && times[1..][j] == t;
        assert times[j + 1] == t;
      }
      if now - bucket.at >= config.refillMs {
        GrantsSinceFilling(next, config, times[1..], end);
        PeriodsShrink(start, now, end, config.refillMs);
        MoreIsMore(config.capacity, Periods(now, end, config.refillMs), Periods(start, end, config.refillMs));
        assert config.capacity * (Periods(start, end, config.refillMs) + 1)
            == config.capacity * Periods(start, end, config.refillMs) + config.capacity;
      } else {
        GrantsInWindow(next, config, times[1..], start, end);
      }
    }
  }

  /** A bucket that has been used is not full: filling and taking are one call. */
  lemma {:induction false} UsedIsNotFull(held: Option<Bucket>, config: Config, times: seq<Time>, end: Time)
    requires config.capacity > 0 && InOrder(times)
    requires held.Some? ==> 0 <= held.value.tokens < config.capacity && held.value.at <= end
    requires forall t :: t in times ==> t <= end
    ensures
      var after := After(held, config, times);
      && (after.None? <==> held.None? && times == [])
      && (after.Some? ==> 0 <= after.value.tokens < config.capacity && after.value.at <= end)
    decreases |times|
  {
    if times != [] {
      assert times[0] in times && forall t :: t in times[1..] ==> t in times;
      UsedIsNotFull(Some(TakeOne(held, config, times[0]).0), config, times[1..], end);
    }
  }

  /**
   * In any run of calls, any stretch of calls within `window` milliseconds is
   * granted less than capacity * (floor(window / refillMs) + 2).
   */
  lemma WindowIsBounded(config: Config, times: seq<Time>, i: nat, j: nat, window: nat)
    requires config.capacity > 0 && config.refillMs > 0 && InOrder(times)
    requires i < j <= |times| && times[j - 1] - times[i] <= window
    ensures Grants(After(None, config, times[..i]), config, times[i..j])
            < config.capacity * (window / config.refillMs + 2)
  {
    var held, start, end := After(None, config, times[..i]), times[i], times[i] + window;
    var inside := times[i..j];
    assert forall t :: t in times[..i] ==> t <= start;
    UsedIsNotFull(None, config, times[..i], start);
    assert Periods(start, end, config.refillMs) == window / config.refillMs;
    forall t | t in inside
      ensures start <= t <= end
    {
      var k :| 0 <= k < |inside| && inside[k] == t;
      assert times[i + k] == t;
    }
    var q := window / config.refillMs;
    assert config.capacity * (q + 2) == config.capacity * (q + 1) + config.capacity;
    assert config.capacity * (q + 1) == config.capacity * q + config.capacity;
    if held.Some? {
      GrantsInWindow(held.value, config, inside, start, end);
    } else {
      FirstUseIsFull(config, inside);
      GrantsSinceFilling(Bucket(config.capacity, start), config, inside, end);
    }
  }

  /** What that is for the two buckets: 20 messages, 5 typing signals, every ten seconds. */
  lemma SocketLimits(times: seq<Time>, i: nat, j: nat, window: nat)
    requires InOrder(times) && i < j <= |times| && times[j - 1] - times[i] <= window
    ensures Grants(After(None, ConfigOf(MESSAGE), times[..i]), ConfigOf(MESSAGE), times[i..j]) < 20 * (window / 10_000 + 2)
    ensures Grants(After(None, ConfigOf(TYPING), times[..i]), ConfigOf(TYPING), times[i..j]) < 5 * (window / 10_000 + 2)
  {
    hide Grants, After;
    WindowIsBounded(ConfigOf(MESSAGE), times, i, j, window);
    WindowIsBounded(ConfigOf(TYPING), times, i, j, window);
  }

  lemma FirstUseIsFull(config: Config, times: seq<Time>)
    requires times != []
    ensures Grants(None, config, times) == Grants(Some(Bucket(config.capacity, times[0])), config, times)
  {
  }

  /** Calls at one instant inside the period use up what is left. */
  lemma {:induction false} Burst(bucket: Bucket, config: Config, n: nat, now: Time)
    requires n <= bucket.tokens && now - bucket.at < config.refillMs
    ensures Grants(Some(bucket), config, seq(n, _ => now)) == n
    ensures After(Some(bucket), config, seq(n, _ => now)) == Some(Bucket(bucket.tokens - n, bucket.at))
    decreases n
  {
    if n > 0 {
      assert seq(n, _ => now)[1..] == seq(n - 1, _ => now);
      Burst(bucket.(tokens := bucket.tokens - 1), config, n - 1, now);
    }
  }

  /** The bound is met: around a refill, one millisecond is granted one less than twice the capacity. */
  lemma BoundIsMet(config: Config)
    requires config.capacity > 0 && config.refillMs > 1
    ensures
      var before := seq(config.capacity - 1, _ => config.refillMs - 1);
      var at := seq(config.capacity, _ => config.refillMs as Time);
      Grants(After(None, config, [0]), config, before + at) == config.capacity * (1 / config.refillMs + 2) - 1
  {
    var n, period := config.capacity, config.refillMs;
    var before, at := seq(n - 1, _ => period - 1), seq(n, _ => period as Time);
    var used := Bucket(n - 1, 0);
    assert [0][1..] == [];
    assert After(None, config, [0]) == Some(used);
    Burst(used, config, n - 1, period - 1);
    Joins(Some(used), config, before, at);
    assert at == [period as Time] + at[1..];
    assert at[1..] == seq(n - 1, _ => period as Time);
    Burst(Bucket(n - 1, period), config, n - 1, period);
    assert 1 / period == 0;
    assert n * 2 == n + n;
  }

  lemma {:induction false} Joins(held: Option<Bucket>, config: Config, a: seq<Time>, b: seq<Time>)
    ensures Grants(held, config, a + b) == Grants(held, config, a) + Grants(After(held, config, a), config, b)
    decreases |a|
  {
    if a == [] {
      assert a + b == b;
    } else {
      assert (a + b)[1..] == a[1..] + b;
      Joins(Some(TakeOne(held, config, a[0]).0), config, a[1..], b);
    }
  }
}
