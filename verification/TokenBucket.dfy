/**
 The token-bucket arithmetic of internal/httpx/ratelimit.go on values: one bucket, a
 table of buckets, and the decisions taken along a whole trace of calls and sweeps.

 Time is integer nanoseconds, tokens are reals.
 */
module TokenBucket {
  import opened Prelude

  const SECOND: int := 1_000_000_000
  const MINUTE: int := 60 * SECOND

  datatype Config = Config(rate: real, burst: real, ttl: int)

  datatype Bucket = Bucket(tokens: real, lastSeen: int)

  datatype Decision = Admit | Reject(retryAfter: int)

  type Table = map<string, Bucket>

  /** Go's conversion of a float to an integer duration: the fraction is dropped. */
  function Truncate(x: real): (n: int)
    ensures x >= 0.0 ==> n as real <= x < n as real + 1.0
    ensures x < 0.0 ==> n as real - 1.0 < x <= n as real
  {
    if x >= 0.0 then x.Floor else -((-x).Floor)
  }

  /** Go's Duration.Round to whole seconds, for a non-negative duration: half rounds up. */
  function RoundToSecond(d: int): (r: int)
    requires 0 <= d
    ensures r % SECOND == 0
    ensures -SECOND < 2 * (d - r) < SECOND || 2 * (r - d) == SECOND
  {
    var rest := d % SECOND;
    if 2 * rest < SECOND then d - rest else d + SECOND - rest
  }

  /** The time, in nanoseconds, in which `tokens` accrue. */
  function TimeFor(rate: real, tokens: real): real
    requires rate > 0.0
  {
    tokens / rate * SECOND as real
  }

  /** The configuration NewRateLimiter settles on. */
  function NewConfig(rate: real, burst: real): (c: Config)
    ensures c.rate == rate && c.burst >= 1.0 && (burst >= 1.0 ==> c.burst == burst)
    ensures c.ttl >= 10 * MINUTE
  {
    var burst := if burst < 1.0 then 1.0 else burst;
    var ttl := 10 * MINUTE;
    if rate > 0.0 && Truncate(TimeFor(rate, burst)) > ttl
    then Config(rate, burst, Truncate(TimeFor(rate, burst)))
    else Config(rate, burst, ttl)
  }

  /** The idle window is ten minutes unless a full refill takes longer, and then no longer than that. */
  lemma IdleWindow(rate: real, burst: real)
    ensures var c := NewConfig(rate, burst);
      if rate > 0.0 && TimeFor(rate, c.burst) >= (10 * MINUTE + 1) as real
      then c.ttl as real <= TimeFor(rate, c.burst) < c.ttl as real + 1.0
      else c.ttl == 10 * MINUTE
  {
  }

  /** What the analysis needs of a configuration: room for a token, and an idle window that covers a refill. */
  ghost predicate Configured(c: Config) {
    && c.burst >= 1.0
    && c.ttl >= 10 * MINUTE
    && (c.rate > 0.0 ==> TimeFor(c.rate, c.burst) < c.ttl as real + 1.0)
  }

  lemma NewConfigConfigured(rate: real, burst: real)
    ensures Configured(NewConfig(rate, burst))
  {
  }

  /** Tokens accrued over `elapsed` nanoseconds. */
  function Accrued(c: Config, elapsed: int): real {
    elapsed as real / SECOND as real * c.rate
  }

  /** Balance after the lazy refill, capped at the burst. */
  function Level(c: Config, b: Bucket, now: int): real {
    var filled := b.tokens + Accrued(c, now - b.lastSeen);
    if filled > c.burst then c.burst else filled
  }

  function RetryAfter(c: Config, tokens: real): int {
    if c.rate <= 0.0 then MINUTE else AdviceFor(TimeFor(c.rate, 1.0 - tokens))
  }

  /** The advice given for a true wait of `need` nanoseconds. */
  function AdviceFor(need: real): int {
    var d := Truncate(need);
    if d < SECOND then SECOND else RoundToSecond(d)
  }

  /** One call on one bucket, which does not exist before the first call. */
  function Serve(c: Config, b: Option<Bucket>, now: int): (Bucket, Decision) {
    match b
    case None => (Bucket(c.burst - 1.0, now), Admit)
    case Some(b) =>
      var level := Level(c, b, now);
      if level < 1.0
      then (Bucket(level, now), Reject(RetryAfter(c, level)))
      else (Bucket(level - 1.0, now), Admit)
  }

  // ----- One key: the trace of its arrival times ---------------------------------------

  ghost predicate NonDecreasing(ts: seq<int>) {
    forall i, j :: 0 <= i <= j < |ts| ==> ts[i] <= ts[j]
  }

  /** The bucket after serving every arrival in `ts`. */
  function After(c: Config, ts: seq<int>): Option<Bucket> {
    if ts == [] then None else Some(Serve(c, After(c, Init(ts)), Last(ts)).0)
  }

  /** The decision on the last arrival in `ts`, the earlier ones having been served. */
  function Verdict(c: Config, ts: seq<int>): Decision
    requires ts != []
  {
    Serve(c, After(c, Init(ts)), Last(ts)).1
  }

  lemma AccruedAdds(c: Config, a: int, b: int)
    ensures Accrued(c, a) + Accrued(c, b) == Accrued(c, a + b)
  {
    assert (a + b) as real / SECOND as real == a as real / SECOND as real + b as real / SECOND as real;
  }

  lemma AccruedMonotone(c: Config, a: int, b: int)
    requires c.rate >= 0.0 && a <= b
    ensures Accrued(c, a) <= Accrued(c, b)
    ensures Accrued(c, 0) == 0.0
  {
    assert a as real / SECOND as real <= b as real / SECOND as real;
  }

  /** What is left of the budget for arrivals i..j: burst + rate * (tj - ti) - (j - i + 1). */
  function Slack(c: Config, ts: seq<int>, i: nat, j: nat): real
    requires i <= j < |ts|
  {
    c.burst + Accrued(c, ts[j] - ts[i]) - (j - i + 1) as real
  }

  /** Every stretch of consecutive arrivals fits in the burst plus what accrues meanwhile. */
  ghost predicate Conforms(c: Config, ts: seq<int>) {
    forall i, j :: 0 <= i <= j < |ts| ==> Slack(c, ts, i, j) >= 0.0
  }

  ghost predicate AllAdmitted(c: Config, ts: seq<int>) {
    forall n :: 0 < n <= |ts| ==> Verdict(c, ts[..n]) == Admit
  }

  lemma AllAdmittedInit(c: Config, ts: seq<int>)
    requires ts != []
    ensures AllAdmitted(c, ts) <==> AllAdmitted(c, Init(ts)) && Verdict(c, ts) == Admit
  {
    assert ts[..|ts|] == ts;
    assert forall n | 0 < n < |ts| :: Init(ts)[..n] == ts[..n];
  }

  /** The balance an admission of the last arrival leaves. */
  function Balance(c: Config, ts: seq<int>): real
    requires ts != []
  {
    match After(c, Init(ts))
    case None => c.burst - 1.0
    case Some(b) => Level(c, b, Last(ts)) - 1.0
  }

  lemma SlackGrows(c: Config, ts: seq<int>, i: nat)
    requires i < |ts| - 1
    ensures Slack(c, ts, i, |ts| - 1)
         == Slack(c, Init(ts), i, |ts| - 2) + Accrued(c, ts[|ts| - 1] - ts[|ts| - 2]) - 1.0
  {
    AccruedAdds(c, ts[|ts| - 2] - ts[i], ts[|ts| - 1] - ts[|ts| - 2]);
  }

  lemma LastSeenIsLast(c: Config, ts: seq<int>)
    requires ts != [] && c.burst >= 1.0
    ensures After(c, ts).value.lastSeen == Last(ts)
    ensures Verdict(c, ts) == Admit <==> Balance(c, ts) >= 0.0
    ensures Verdict(c, ts) == Admit ==> After(c, ts).value.tokens == Balance(c, ts)
  {
  }

  /** While nothing is rejected, the balance is the tightest slack over the stretches ending now. */
  lemma {:induction false} BalanceIsTightestSlack(c: Config, ts: seq<int>) returns (tightest: nat)
    requires c.burst >= 1.0 && ts != [] && AllAdmitted(c, Init(ts))
    ensures tightest < |ts|
    ensures Balance(c, ts) == Slack(c, ts, tightest, |ts| - 1)
    ensures var last := |ts| - 1; forall i :: 0 <= i <= last ==> Balance(c, ts) <= Slack(c, ts, i, last)
  {
    var last := |ts| - 1;
    tightest := last;
    AccruedAdds(c, 0, 0);
    if last > 0 {
      AllAdmittedInit(c, Init(ts));
      LastSeenIsLast(c, Init(ts));
      var earlier := BalanceIsTightestSlack(c, Init(ts));
      forall i | 0 <= i < last ensures Balance(c, ts) <= Slack(c, ts, i, last) {
        SlackGrows(c, ts, i);
      }
      SlackGrows(c, ts, earlier);
      if Balance(c, ts) < c.burst - 1.0 { tightest := earlier; }
    }
  }

  lemma ConformsInit(c: Config, ts: seq<int>)
    requires ts != []
    ensures Conforms(c, ts) <==>
            Conforms(c, Init(ts)) && var last := |ts| - 1; forall i :: 0 <= i <= last ==> Slack(c, ts, i, last) >= 0.0
  {
    assert forall i, j | 0 <= i <= j < |ts| - 1 :: Slack(c, ts, i, j) == Slack(c, Init(ts), i, j);
  }

  /** Admission characterised over whole traces: nothing is rejected exactly when the arrivals conform. */
  lemma {:induction false} ExactAdmission(c: Config, ts: seq<int>)
    requires c.burst >= 1.0
    ensures AllAdmitted(c, ts) <==> Conforms(c, ts)
  {
    if ts != [] {
      ExactAdmission(c, Init(ts));
      AllAdmittedInit(c, ts);
      ConformsInit(c, ts);
      LastSeenIsLast(c, ts);
      if AllAdmitted(c, Init(ts)) {
        var tightest := BalanceIsTightestSlack(c, ts);
      }
    }
  }

  // ----- How many calls get through in a window ------------------------------------------

  /** Arrivals of `ts` admitted at a time in [from, to]. */
  function Admissions(c: Config, ts: seq<int>, from: int, to: int): nat {
    if ts == [] then 0
    else Admissions(c, Init(ts), from, to)
         + if Verdict(c, ts) == Admit && from <= Last(ts) <= to then 1 else 0
  }

  /** Balances stay between empty and full, whatever is admitted or rejected. */
  lemma {:induction false} BalanceBounds(c: Config, ts: seq<int>)
    requires c.burst >= 1.0 && c.rate >= 0.0 && NonDecreasing(ts) && ts != []
    ensures 0.0 <= After(c, ts).value.tokens <= c.burst
    ensures After(c, ts).value.lastSeen == Last(ts)
  {
    if |ts| > 1 {
      BalanceBounds(c, Init(ts));
      AccruedMonotone(c, 0, Last(ts) - Last(Init(ts)));
    }
  }

  /** What was admitted since `from`, plus what is left, never exceeds the burst plus what accrued. */
  lemma {:induction false} SpentPlusLeft(c: Config, ts: seq<int>, from: int, to: int)
    requires c.burst >= 1.0 && c.rate >= 0.0 && NonDecreasing(ts) && ts != []
    ensures Last(ts) < from ==> Admissions(c, ts, from, to) == 0
    ensures from <= Last(ts) <= to ==>
              Admissions(c, ts, from, to) as real + After(c, ts).value.tokens
              <= c.burst + Accrued(c, Last(ts) - from)
    ensures from <= to < Last(ts) ==>
              Admissions(c, ts, from, to) as real <= c.burst + Accrued(c, to - from)
  {
    var now := Last(ts);
    BalanceBounds(c, ts);
    if from <= now { AccruedMonotone(c, 0, now - from); }
    if from <= to { AccruedMonotone(c, 0, to - from); }
    if |ts| > 1 {
      var before := Init(ts);
      BalanceBounds(c, before);
      SpentPlusLeft(c, before, from, to);
      AccruedMonotone(c, 0, now - Last(before));
      AccruedAdds(c, Last(before) - from, now - Last(before));
      if from <= Last(before) <= to < now { AccruedMonotone(c, Last(before) - from, to - from); }
    }
  }

  lemma {:induction false} NoneOutside(c: Config, ts: seq<int>, from: int, to: int)
    requires to < from
    ensures Admissions(c, ts, from, to) == 0
  {
    if ts != [] { NoneOutside(c, Init(ts), from, to); }
  }

  /** The rate limit proper: in any window, on any trace, at most the burst plus what accrues in the window. */
  lemma WindowBound(c: Config, ts: seq<int>, from: int, to: int)
    requires c.burst >= 1.0 && c.rate >= 0.0 && NonDecreasing(ts) && from <= to
    ensures Admissions(c, ts, from, to) as real <= c.burst + Accrued(c, to - from)
  {
    AccruedMonotone(c, 0, to - from);
    if ts != [] {
      SpentPlusLeft(c, ts, from, to);
      BalanceBounds(c, ts);
      if from <= Last(ts) <= to { AccruedMonotone(c, Last(ts) - from, to - from); }
    }
  }

  // ----- Rejections leave no trace --------------------------------------------------------

  /** `later` is `earlier` observed again at a later time, nothing having been spent in between. */
  ghost predicate Observed(c: Config, earlier: Bucket, later: Bucket) {
    && later.tokens == earlier.tokens + Accrued(c, later.lastSeen - earlier.lastSeen)
    && later.tokens <= c.burst
  }

  lemma ObservedSameLevel(c: Config, earlier: Bucket, later: Bucket, now: int)
    requires Observed(c, earlier, later)
    ensures Level(c, earlier, now) == Level(c, later, now)
  {
    AccruedAdds(c, later.lastSeen - earlier.lastSeen, now - later.lastSeen);
  }

  /** Serving `more` when all of it is rejected only re-observes the bucket. */
  lemma {:induction false} RejectedRunObserves(c: Config, ts: seq<int>, more: seq<int>)
    requires c.burst >= 1.0 && ts != []
    requires forall n :: 0 < n <= |more| ==> Verdict(c, ts + more[..n]) != Admit
    ensures Observed(c, After(c, ts).value, After(c, ts + more).value) || more == []
  {
    if more != [] {
      assert more[..|more|] == more;
      assert Init(ts + more) == ts + Init(more);
      forall n | 0 < n <= |Init(more)| ensures Verdict(c, ts + Init(more)[..n]) != Admit {
        assert Init(more)[..n] == more[..n];
      }
      RejectedRunObserves(c, ts, Init(more));
      var before := After(c, ts).value;
      var middle := After(c, ts + Init(more)).value;
      if more == [Last(more)] {
        assert ts + Init(more) == ts;
      } else {
        ObservedSameLevel(c, before, middle, Last(more));
      }
    }
  }

  /** Erasing a rejected call changes no later decision and no later retry advice. */
  lemma {:induction false} RejectionIsFree(c: Config, ts: seq<int>, rejected: int, more: seq<int>)
    requires c.burst >= 1.0 && more != []
    requires Verdict(c, ts + [rejected]) != Admit
    ensures Verdict(c, ts + [rejected] + more) == Verdict(c, ts + more)
    ensures After(c, ts + [rejected] + more) == After(c, ts + more)
  {
    var with, without := ts + [rejected] + more, ts + more;
    assert Init(ts + [rejected]) == ts;
    assert Init(with) == ts + [rejected] + Init(more) && Init(without) == ts + Init(more);
    if |more| == 1 {
      assert Init(with) == ts + [rejected] && Init(without) == ts;
      ObservedSameLevel(c, After(c, ts).value, After(c, ts + [rejected]).value, Last(more));
    } else {
      RejectionIsFree(c, ts, rejected, Init(more));
    }
  }

  // ----- The retry advice -----------------------------------------------------------------

  lemma AccruedOverTime(c: Config, wait: int, tokens: real)
    requires c.rate > 0.0
    ensures Accrued(c, wait) >= tokens <==> wait as real >= TimeFor(c.rate, tokens)
  {
    var perNano := c.rate / SECOND as real;
    assert Accrued(c, wait) == wait as real * perNano;
    assert tokens == TimeFor(c.rate, tokens) * perNano;
  }

  /** How long, in nanoseconds, until the bucket holds a whole token again. */
  function TrueWait(c: Config, ts: seq<int>): real
    requires c.rate > 0.0 && ts != []
  {
    TimeFor(c.rate, 1.0 - After(c, ts).value.tokens)
  }

  /** A rejected client that waits gets in exactly when the missing fraction has accrued by then. */
  lemma AdmittedAfterWait(c: Config, ts: seq<int>, more: seq<int>, at: int)
    requires c.burst >= 1.0 && c.rate > 0.0 && ts != [] && Verdict(c, ts) != Admit
    requires forall n :: 0 < n <= |more| ==> Verdict(c, ts + more[..n]) != Admit
    ensures Verdict(c, ts + more + [at]) == Admit <==> (at - Last(ts)) as real >= TrueWait(c, ts)
  {
    var b := After(c, ts).value;
    RejectedRunObserves(c, ts, more);
    assert Init(ts + more + [at]) == ts + more;
    if more == [] {
      assert ts + more == ts;
    } else {
      ObservedSameLevel(c, b, After(c, ts + more).value, at);
    }
    AccruedOverTime(c, at - Last(ts), 1.0 - b.tokens);
  }

  /** The advice carried by the rejection of the last call of `ts`, in nanoseconds. */
  function Advice(c: Config, ts: seq<int>): int
    requires ts != [] && Verdict(c, ts).Reject?
  {
    Verdict(c, ts).retryAfter
  }

  lemma TimeForPositive(rate: real, tokens: real)
    requires rate > 0.0 && tokens > 0.0
    ensures TimeFor(rate, tokens) > 0.0
  {
    assert tokens / rate > 0.0;
  }

  lemma AdviceRoundsTrueWait(c: Config, ts: seq<int>)
    requires c.rate > 0.0 && ts != [] && Verdict(c, ts).Reject?
    ensures Advice(c, ts) == AdviceFor(TrueWait(c, ts))
    ensures TrueWait(c, ts) > 0.0
  {
    TimeForPositive(c.rate, 1.0 - After(c, ts).value.tokens);
  }

  lemma AdviceWithinASecond(need: real)
    requires need > 0.0
    ensures (AdviceFor(need) + SECOND) as real >= need
  {
  }

  /**
   The advice is a whole number of seconds and at least one. It is one second or at most half a
   second too long, and it is too short by less than half a second and a nanosecond.
   */
  lemma AdviceNearTrueWait(c: Config, ts: seq<int>)
    requires c.rate > 0.0 && ts != [] && Verdict(c, ts).Reject?
    ensures var advice := Verdict(c, ts).retryAfter;
      && advice % 1_000_000_000 == 0 && advice >= 1_000_000_000
      && (advice == 1_000_000_000 || advice as real <= TrueWait(c, ts) + 500_000_000.0)
      && advice as real < TrueWait(c, ts) + 1_000_000_000.0
      && TrueWait(c, ts) < advice as real + 500_000_001.0
  {
    AdviceRoundsTrueWait(c, ts);
    AdviceForNear(TrueWait(c, ts));
  }

  lemma AdviceForNear(need: real)
    requires need > 0.0
    ensures var advice := AdviceFor(need);
      && advice % SECOND == 0 && advice >= SECOND
      && (advice == SECOND || advice as real <= need + 500_000_000.0)
      && advice as real < need + SECOND as real
      && need < advice as real + 500_000_001.0
  {
    var d := Truncate(need);
    if d >= SECOND {
      var r := RoundToSecond(d);
      assert 2 * (d - r) < SECOND && 2 * (r - d) <= SECOND;
      assert r >= SECOND;
    }
  }

  /** A bucket that never refills is advised to wait a minute. */
  lemma AdviceWithoutRate(c: Config, ts: seq<int>)
    requires c.rate <= 0.0 && ts != [] && Verdict(c, ts).Reject?
    ensures Verdict(c, ts).retryAfter == 60 * 1_000_000_000
  {
  }

  /** Waiting out the advice plus one second always admits, if nothing was admitted meanwhile. */
  lemma AdvicePlusASecondAdmits(c: Config, ts: seq<int>, more: seq<int>, at: int)
    requires c.burst >= 1.0 && c.rate > 0.0 && ts != [] && Verdict(c, ts).Reject?
    requires forall n :: 0 < n <= |more| ==> Verdict(c, ts + more[..n]) != Admit
    requires at >= Last(ts) + Advice(c, ts) + SECOND
    ensures Verdict(c, ts + more + [at]) == Admit
  {
    AdviceRoundsTrueWait(c, ts);
    AdviceWithinASecond(TrueWait(c, ts));
    AdmittedAfterWait(c, ts, more, at);
  }

  /** True waits for which the rounded advice is long enough. */
  predicate AdviceCovers(need: real) {
    || need < SECOND as real
    || need == (need.Floor / SECOND * SECOND) as real
    || 2 * (need.Floor % SECOND) >= SECOND
  }

  lemma AdviceReaches(need: real)
    requires need > 0.0
    ensures AdviceFor(need) as real >= need <==> AdviceCovers(need)
  {
    var d := need.Floor;
    assert Truncate(need) == d;
    assert d == d / SECOND * SECOND + d % SECOND;
  }

  lemma AdmittedAtAdvice(c: Config, ts: seq<int>, advice: int)
    requires c.burst >= 1.0 && c.rate > 0.0 && ts != [] && Verdict(c, ts) != Admit
    ensures Verdict(c, ts + [Last(ts) + advice]) == Admit <==> advice as real >= TrueWait(c, ts)
  {
    AdmittedAfterWait(c, ts, [], Last(ts) + advice);
    assert ts + [] + [Last(ts) + advice] == ts + [Last(ts) + advice];
  }

  /**
   The advice alone is enough exactly when the true wait is under a second, or a whole
   number of seconds, or has (once cut to nanoseconds) at least half a second over.
   */
  lemma AdviceAloneAdmits(c: Config, ts: seq<int>)
    requires c.burst >= 1.0 && c.rate > 0.0 && ts != [] && Verdict(c, ts).Reject?
    ensures Verdict(c, ts + [Last(ts) + Advice(c, ts)]) == Admit <==> AdviceCovers(TrueWait(c, ts))
  {
    AdviceRoundsTrueWait(c, ts);
    AdviceReaches(TrueWait(c, ts));
    AdmittedAtAdvice(c, ts, Advice(c, ts));
  }

  /** At 0.8 tokens per second an emptied bucket needs 1.25 s, but the advice is 1 s: following it is refused again. */
  lemma AdviceFallsShort()
    ensures var c := NewConfig(0.8, 1.0); var ts := [0, 0];
      Verdict(c, ts) == Reject(SECOND) && Verdict(c, ts + [Last(ts) + SECOND]) != Admit
  {
    var c, ts := NewConfig(0.8, 1.0), [0, 0];
    assert Init(ts) == [0] && Init([0]) == [];
    assert After(c, [0]) == Some(Bucket(0.0, 0));
    assert After(c, ts) == Some(Bucket(0.0, 0));
    QuarterOver();
    AdmittedAtAdvice(c, ts, SECOND);
  }

  lemma QuarterOver()
    ensures TimeFor(0.8, 1.0) == 1_250_000_000.0 && AdviceFor(1_250_000_000.0) == SECOND
  {
    assert Truncate(1_250_000_000.0) == 1_250_000_000;
  }
}
