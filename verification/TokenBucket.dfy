/** The shared bucket in front of the public sign-in endpoints (app/auth/admission.py). Time
    and tokens are exact; each statement reads the clock once. */
module TokenBucket {
  import opened Common

  datatype Bucket = Bucket(tokens: real, updatedAt: real)

  /** The refill the statement computes before it decides. */
  function Level(b: Bucket, burst: real, rate: real, now: real): real {
    MinReal(burst, b.tokens + MaxReal(0.0, now - b.updatedAt) * rate)
  }

  /** The single row of `auth_rate_bucket`. */
  class AuthRateBucket {
    var row: Option<Bucket>
    const burst: real
    const rate: real

    constructor (burst: real, rate: real)
      ensures row == None && this.burst == burst && this.rate == rate
    {
      row := None;
      this.burst := burst;
      this.rate := rate;
    }

    /** The upsert: a first request makes the row; a later one is let through, and the row
        rewritten, only if a whole token is there. */
    method Attempt(now: real) returns (allowed: bool)
      modifies this
      ensures allowed == Allows(old(row), burst, rate, now)
      ensures row == AfterAttempt(old(row), burst, rate, now)
    {
      match row {
        case None =>
          row := Some(Bucket(burst - 1.0, now));
          allowed := true;
        case Some(b) =>
          var level := Level(b, burst, rate, now);
          allowed := level >= 1.0;
          if allowed {
            row := Some(Bucket(level - 1.0, now));
          }
      }
    }
  }

  predicate Allows(row: Option<Bucket>, burst: real, rate: real, now: real) {
    row.None? || Level(row.value, burst, rate, now) >= 1.0
  }

  function AfterAttempt(row: Option<Bucket>, burst: real, rate: real, now: real): Option<Bucket> {
    if row.None? then Some(Bucket(burst - 1.0, now))
    else if Allows(row, burst, rate, now) then Some(Bucket(Level(row.value, burst, rate, now) - 1.0, now))
    else row
  }

  // ---------------------------------------------------------------- request sequences

  /** The configuration's own bounds (`auth_burst` at least 1, at least one request a minute). */
  datatype Setting = Setting(burst: real, rate: real) {
    predicate Valid() { burst >= 1.0 && rate >= 0.0 }
  }

  ghost predicate Nondecreasing(times: seq<real>) {
    forall i, j | 0 <= i <= j < |times| :: times[i] <= times[j]
  }

  /** The row after the first n requests. */
  function RowAfter(setting: Setting, times: seq<real>, n: nat): Option<Bucket>
    requires n <= |times|
  {
    if n == 0 then None else AfterAttempt(RowAfter(setting, times, n - 1), setting.burst, setting.rate, times[n - 1])
  }

  predicate Admitted(setting: Setting, times: seq<real>, i: nat)
    requires i < |times|
  {
    Allows(RowAfter(setting, times, i), setting.burst, setting.rate, times[i])
  }

  /** How many of the requests i, ..., j - 1 were let through. */
  function Count(setting: Setting, times: seq<real>, i: nat, j: nat): nat
    requires i <= j <= |times|
  {
    if i == j then 0 else Count(setting, times, i, j - 1) + if Admitted(setting, times, j - 1) then 1 else 0
  }

  /** What flows in from one moment to a later one. */
  function Refill(rate: real, from: real, to: real): real { rate * (to - from) }

  lemma RefillAdds(rate: real, a: real, b: real, c: real)
    ensures Refill(rate, a, c) == Refill(rate, a, b) + Refill(rate, b, c)
    ensures Refill(rate, a, a) == 0.0
    ensures rate >= 0.0 && a <= b ==> Refill(rate, a, b) >= 0.0
  {
  }

  lemma LevelForward(b: Bucket, burst: real, rate: real, now: real)
    requires b.updatedAt <= now
    ensures Level(b, burst, rate, now) == MinReal(burst, b.tokens + Refill(rate, b.updatedAt, now))
  {
  }

  /** What is in the bucket at some moment, after n requests. */
  function LevelAfter(setting: Setting, times: seq<real>, n: nat, now: real): real
    requires n <= |times|
  {
    match RowAfter(setting, times, n)
    case None => setting.burst
    case Some(b) => Level(b, setting.burst, setting.rate, now)
  }

  /** What the window that starts with request k still leaves at some moment. */
  function Slack(setting: Setting, times: seq<real>, k: nat, n: nat, now: real): real
    requires k < n <= |times|
  {
    setting.burst + Refill(setting.rate, times[k], now) - Count(setting, times, k, n) as real
  }

  /** The row's time is never later than the last request. */
  lemma {:induction false} UpdatedInThePast(setting: Setting, times: seq<real>, n: nat)
    requires Nondecreasing(times) && n <= |times|
    ensures RowAfter(setting, times, n).None? <==> n == 0
    ensures n > 0 ==> RowAfter(setting, times, n).value.updatedAt <= times[n - 1]
  {
    if n > 0 { UpdatedInThePast(setting, times, n - 1); }
  }

  /** One request seen from a later moment. */
  lemma LevelStep(setting: Setting, times: seq<real>, n: nat, now: real)
    requires setting.Valid() && Nondecreasing(times) && n < |times| && times[n] <= now
    ensures LevelAfter(setting, times, n + 1, now) ==
            if Admitted(setting, times, n)
            then MinReal(setting.burst,
                         LevelAfter(setting, times, n, times[n]) - 1.0 + Refill(setting.rate, times[n], now))
            else LevelAfter(setting, times, n, now)
    ensures Admitted(setting, times, n) <==> LevelAfter(setting, times, n, times[n]) >= 1.0
  {
    hide Level, Refill;
    UpdatedInThePast(setting, times, n);
    var row := RowAfter(setting, times, n + 1).value;
    if Admitted(setting, times, n) { LevelForward(row, setting.burst, setting.rate, now); }
  }

  /** Waiting refills the bucket linearly, up to its size. */
  lemma LevelLater(setting: Setting, times: seq<real>, n: nat, a: real, b: real)
    requires setting.Valid() && Nondecreasing(times) && n <= |times| && (n > 0 ==> times[n - 1] <= a) && a <= b
    ensures LevelAfter(setting, times, n, b)
            == MinReal(setting.burst, LevelAfter(setting, times, n, a) + Refill(setting.rate, a, b))
  {
    hide Level, Refill, RowAfter;
    UpdatedInThePast(setting, times, n);
    RefillAdds(setting.rate, a, b, b);
    if n > 0 {
      var row := RowAfter(setting, times, n).value;
      LevelForward(row, setting.burst, setting.rate, a);
      LevelForward(row, setting.burst, setting.rate, b);
      RefillAdds(setting.rate, row.updatedAt, a, b);
    }
  }

  /** The bucket holds exactly what the tightest window leaves: no window leaves less, and
      some window (or the bucket's size) leaves just that. */
  lemma {:induction false} LevelIsTightestWindow(setting: Setting, times: seq<real>, n: nat, now: real)
    requires setting.Valid() && Nondecreasing(times) && n <= |times| && (n > 0 ==> times[n - 1] <= now)
    ensures LevelAfter(setting, times, n, now) <= setting.burst
    ensures forall k | 0 <= k < n :: LevelAfter(setting, times, n, now) <= Slack(setting, times, k, n, now)
    ensures LevelAfter(setting, times, n, now) == setting.burst
            || exists k | 0 <= k < n :: LevelAfter(setting, times, n, now) == Slack(setting, times, k, n, now)
  {
    hide Refill, Admitted, LevelAfter, Slack;
    EmptyBucketIsFull(setting, times, now);
    if n > 0 {
      var m := n - 1;
      var t := times[m];
      LevelIsTightestWindow(setting, times, m, t);
      LevelIsTightestWindow(setting, times, m, now);
      LevelStep(setting, times, m, now);
      RefillAdds(setting.rate, t, now, now);
      var level := LevelAfter(setting, times, n, now);
      forall k | 0 <= k < n
        ensures level <= Slack(setting, times, k, n, now)
      {
        SlackStep(setting, times, k, m, now);
      }
      if Admitted(setting, times, m) && level != setting.burst {
        if LevelAfter(setting, times, m, t) == setting.burst {
          SlackStep(setting, times, m, m, now);
          assert level == Slack(setting, times, m, n, now);
        } else {
          var k :| 0 <= k < m && LevelAfter(setting, times, m, t) == Slack(setting, times, k, m, t);
          SlackStep(setting, times, k, m, now);
          assert level == Slack(setting, times, k, n, now);
        }
      } else if level != setting.burst {
        var k :| 0 <= k < m && LevelAfter(setting, times, m, now) == Slack(setting, times, k, m, now);
        SlackStep(setting, times, k, m, now);
        assert level == Slack(setting, times, k, n, now);
      }
    }
  }

  lemma EmptyBucketIsFull(setting: Setting, times: seq<real>, now: real)
    ensures LevelAfter(setting, times, 0, now) == setting.burst
  {
  }

  lemma SlackStep(setting: Setting, times: seq<real>, k: nat, m: nat, now: real)
    requires k <= m < |times|
    ensures k < m ==>
              Slack(setting, times, k, m + 1, now) ==
              Slack(setting, times, k, m, times[m]) + Refill(setting.rate, times[m], now)
              - (if Admitted(setting, times, m) then 1.0 else 0.0)
    ensures k < m && !Admitted(setting, times, m) ==>
              Slack(setting, times, k, m + 1, now) == Slack(setting, times, k, m, now)
    ensures k == m ==>
              Slack(setting, times, k, m + 1, now) ==
              setting.burst + Refill(setting.rate, times[m], now) - (if Admitted(setting, times, m) then 1.0 else 0.0)
  {
    hide Refill, Admitted;
    RefillAdds(setting.rate, times[k], times[m], now);
    assert Count(setting, times, m, m) == 0;
  }

  /** In any window the bucket admits at most burst + rate * length. */
  lemma WindowBound(setting: Setting, times: seq<real>, i: nat, j: nat)
    requires setting.Valid() && Nondecreasing(times) && i < j <= |times|
    ensures Count(setting, times, i, j) as real <= setting.burst + Refill(setting.rate, times[i], times[j - 1])
  {
    hide Refill, LevelAfter, Count;
    LevelIsTightestWindow(setting, times, j, times[j - 1]);
    LevelNonnegative(setting, times, j, times[j - 1]);
    assert LevelAfter(setting, times, j, times[j - 1]) <= Slack(setting, times, i, j, times[j - 1]);
  }

  lemma {:induction false} LevelNonnegative(setting: Setting, times: seq<real>, n: nat, now: real)
    requires setting.Valid() && Nondecreasing(times) && n <= |times| && (n > 0 ==> times[n - 1] <= now)
    ensures LevelAfter(setting, times, n, now) >= 0.0
  {
    hide Refill, LevelAfter, Admitted;
    EmptyBucketIsFull(setting, times, now);
    if n > 0 {
      LevelStep(setting, times, n - 1, now);
      RefillAdds(setting.rate, times[n - 1], now, now);
      LevelNonnegative(setting, times, n - 1, times[n - 1]);
      LevelNonnegative(setting, times, n - 1, now);
    }
  }

  /** The window that starts with request k and would end with request n has room for it. */
  predicate WindowHasRoom(setting: Setting, times: seq<real>, k: nat, n: nat)
    requires k <= n < |times|
  {
    Count(setting, times, k, n) as real + 1.0 <= setting.burst + Refill(setting.rate, times[k], times[n])
  }

  /** The reference: a request may pass exactly when every window that would end with it stays
      within burst + rate * length. The bucket implements it, with one row and no history. */
  lemma AdmitsExactlyTheConforming(setting: Setting, times: seq<real>, n: nat)
    requires setting.Valid() && Nondecreasing(times) && n < |times|
    ensures Admitted(setting, times, n) <==> forall k | 0 <= k <= n :: WindowHasRoom(setting, times, k, n)
  {
    hide Refill, LevelAfter, Admitted;
    var t := times[n];
    LevelIsTightestWindow(setting, times, n, t);
    LevelStep(setting, times, n, t);
    RefillAdds(setting.rate, t, t, t);
    var level := LevelAfter(setting, times, n, t);
    if level < 1.0 {
      var k :| 0 <= k < n && level == Slack(setting, times, k, n, t);
      assert !WindowHasRoom(setting, times, k, n);
    } else {
      forall k | 0 <= k <= n
        ensures WindowHasRoom(setting, times, k, n)
      {
        if k < n { assert level <= Slack(setting, times, k, n, t); }
      }
    }
  }

  // ---------------------------------------------------------------- clocks that jump

  /** How far the clock has moved forward over the first n requests; its moves back do not count. */
  function Forward(times: seq<real>, n: nat): (r: real)
    requires n <= |times|
    ensures r >= 0.0
  {
    if n <= 1 then 0.0 else Forward(times, n - 1) + MaxReal(0.0, times[n - 1] - times[n - 2])
  }

  /** What flows in by a later reading of any clock. */
  function Inflow(rate: real, from: real, to: real): real { rate * MaxReal(0.0, to - from) }

  lemma InflowBounds(rate: real, a: real, b: real, c: real)
    requires rate >= 0.0
    ensures 0.0 <= Inflow(rate, a, b) && Inflow(rate, a, c) <= Inflow(rate, a, b) + Inflow(rate, b, c)
  {
    ScaledLess(MaxReal(0.0, c - a), MaxReal(0.0, b - a) + MaxReal(0.0, c - b), rate);
    ScaledLess(0.0, MaxReal(0.0, b - a), rate);
  }

  lemma ScaledLess(x: real, y: real, f: real)
    requires x <= y && f >= 0.0
    ensures f * x <= f * y
  {
    assert f * y - f * x == f * (y - x);
  }

  lemma LevelInflow(b: Bucket, burst: real, rate: real, now: real)
    ensures Level(b, burst, rate, now) == MinReal(burst, b.tokens + Inflow(rate, b.updatedAt, now))
  {
  }

  /** Whatever the clock does, it takes nothing out of the bucket. */
  lemma {:induction false} ClockDrainsNothing(setting: Setting, times: seq<real>, n: nat, now: real)
    requires setting.Valid() && n <= |times|
    ensures LevelAfter(setting, times, n, now) >= 0.0
    ensures n > 0 ==> RowAfter(setting, times, n).Some? && RowAfter(setting, times, n).value.tokens >= 0.0
  {
    if n > 0 {
      ClockDrainsNothing(setting, times, n - 1, times[n - 1]);
      hide Level;
      var row := RowAfter(setting, times, n).value;
      LevelInflow(row, setting.burst, setting.rate, now);
      InflowBounds(setting.rate, row.updatedAt, now, now);
      hide Inflow;
    }
  }

  lemma InflowSoFar(setting: Setting, times: seq<real>, n: nat)
    requires 0 < n < |times|
    ensures setting.rate * Forward(times, n + 1)
            == setting.rate * Forward(times, n) + Inflow(setting.rate, times[n - 1], times[n])
  {
  }

  /** With replicas whose clocks disagree, or one that is set back, the admissions still stay within
      burst plus rate times all the forward movement there has been. */
  lemma {:induction false} AnyClockBound(setting: Setting, times: seq<real>, n: nat, now: real)
    requires setting.Valid() && 0 < n <= |times|
    ensures Count(setting, times, 0, n) as real + LevelAfter(setting, times, n, now)
            <= setting.burst + setting.rate * Forward(times, n) + Inflow(setting.rate, times[n - 1], now)
  {
    hide LevelAfter, Inflow, Forward, Admitted;
    var m := n - 1;
    LevelAtMost(setting, times, m, now);
    if m == 0 {
      FirstRequest(setting, times);
    } else {
      InflowSoFar(setting, times, m);
      InflowBounds(setting.rate, times[m - 1], times[m], now);
      AnyClockBound(setting, times, m, times[m]);
      AnyClockBound(setting, times, m, now);
    }
  }

  lemma FirstRequest(setting: Setting, times: seq<real>)
    requires times != []
    ensures Admitted(setting, times, 0) && LevelAfter(setting, times, 0, times[0]) == setting.burst
    ensures Count(setting, times, 0, 1) == 1 && Count(setting, times, 0, 0) == 0 && Forward(times, 1) == 0.0
  {
  }

  /** One request, whatever the clocks say. */
  lemma LevelAtMost(setting: Setting, times: seq<real>, m: nat, now: real)
    requires setting.Valid() && m < |times|
    ensures LevelAfter(setting, times, m + 1, now)
            <= if Admitted(setting, times, m)
               then LevelAfter(setting, times, m, times[m]) - 1.0 + Inflow(setting.rate, times[m], now)
               else LevelAfter(setting, times, m, now)
  {
    hide Level, Inflow;
    ClockDrainsNothing(setting, times, m + 1, now);
    LevelInflow(RowAfter(setting, times, m + 1).value, setting.burst, setting.rate, now);
  }

  // ---------------------------------------------------------------- lazy and eager refill

  /** A bucket that refills, and records it, at every request, admitted or not. */
  function EagerAfter(setting: Setting, times: seq<real>, n: nat): Option<Bucket>
    requires n <= |times|
  {
    if n == 0 then None
    else
      var now := times[n - 1];
      match EagerAfter(setting, times, n - 1)
      case None => Some(Bucket(setting.burst - 1.0, now))
      case Some(b) =>
        var level := Level(b, setting.burst, setting.rate, now);
        Some(Bucket(if level >= 1.0 then level - 1.0 else level, now))
  }

  predicate EagerlyAdmitted(setting: Setting, times: seq<real>, i: nat)
    requires i < |times|
  {
    Allows(EagerAfter(setting, times, i), setting.burst, setting.rate, times[i])
  }

  /** Writing nothing on a rejected attempt loses nothing: both buckets hold the same at every
      later moment, so they make the same decisions. */
  lemma {:induction false} LazyIsEager(setting: Setting, times: seq<real>, n: nat, now: real)
    requires setting.Valid() && Nondecreasing(times) && n <= |times| && (n > 0 ==> times[n - 1] <= now)
    ensures n > 0 ==> EagerAfter(setting, times, n).Some?
                      && EagerAfter(setting, times, n).value.updatedAt == times[n - 1]
    ensures n > 0 ==> Level(EagerAfter(setting, times, n).value, setting.burst, setting.rate, now)
                      == LevelAfter(setting, times, n, now)
    ensures n < |times| && now == times[n] ==> EagerlyAdmitted(setting, times, n) == Admitted(setting, times, n)
  {
    hide Level, Refill;
    UpdatedInThePast(setting, times, n);
    if n > 0 {
      var t := times[n - 1];
      LazyIsEager(setting, times, n - 1, t);
      LevelStep(setting, times, n - 1, now);
      LevelLater(setting, times, n - 1, t, now);
      UpdatedInThePast(setting, times, n - 1);
      LevelForward(EagerAfter(setting, times, n).value, setting.burst, setting.rate, now);
    }
  }
}
