/**
 * The rate limiter in exact arithmetic.  The bucket keeps a log of its calls; the first entry
 * stands for its creation.  Its tokens turn out to be the least slack over all windows that
 * end now, which makes every refusal necessary and every admission safe.
 */
module TokenBucket {

  datatype Call = Call(at: real, admitted: bool)

  datatype Limit = Limit(rate: real, burst: real)

  /** What the bound allows in a window of this length. */
  function Allowance(limit: Limit, length: real): real {
    limit.burst + limit.rate * length
  }

  /** Admissions among `log[i..j]`. */
  function Admitted(log: seq<Call>, i: nat, j: nat): nat
    requires i <= j <= |log|
    decreases j
  {
    if i == j then 0 else Admitted(log, i, j - 1) + if log[j - 1].admitted then 1 else 0
  }

  predicate Sorted(log: seq<Call>) {
    forall i, j :: 0 <= i < j < |log| ==> log[i].at <= log[j].at
  }

  /** What the bound still allows at time `t` in the window that starts with call `i`. */
  function Slack(log: seq<Call>, i: nat, t: real, limit: Limit): real
    requires i < |log|
  {
    Allowance(limit, t - log[i].at) - Admitted(log, i, |log|) as real
  }

  /** `tokens` is the least slack over the windows that start at creation or at a call. */
  ghost predicate LeastSlack(log: seq<Call>, tokens: real, t: real, limit: Limit) {
    && (forall i :: 0 <= i < |log| ==> tokens <= Slack(log, i, t, limit))
    && (exists i :: 0 <= i < |log| && tokens == Slack(log, i, t, limit))
  }

  /** No window from a call to a call admits more than the burst plus the rate over its length. */
  ghost predicate WindowsRespected(log: seq<Call>, limit: Limit) {
    forall i, j :: 0 <= i <= j < |log| ==>
      Admitted(log, i, j + 1) as real <= Allowance(limit, log[j].at - log[i].at)
  }

  /** Admitting a call at `t` would break the bound for some window ending now. */
  ghost predicate WouldBreak(log: seq<Call>, t: real, limit: Limit) {
    || 1.0 > limit.burst
    || exists i :: 0 <= i < |log| && Admitted(log, i, |log|) as real + 1.0 > Allowance(limit, t - log[i].at)
  }

  function Refilled(tokens: real, elapsed: real, limit: Limit): real {
    var more := tokens + elapsed * limit.rate;
    if more < limit.burst then more else limit.burst
  }

  lemma {:induction false} AdmittedExtend(log: seq<Call>, c: Call, i: nat, j: nat)
    requires i <= j <= |log|
    ensures Admitted(log + [c], i, j) == Admitted(log, i, j)
    decreases j
  {
    if i < j {
      AdmittedExtend(log, c, i, j - 1);
    }
  }

  lemma {:induction false} LaterAllowance(limit: Limit, a: real, b: real, c: real)
    ensures Allowance(limit, c - a) == Allowance(limit, b - a) + (c - b) * limit.rate
  {
  }

  lemma {:induction false} AllowanceNow(limit: Limit)
    ensures Allowance(limit, 0.0) == limit.burst
  {
  }

  lemma {:induction false} AllowanceGrows(limit: Limit, x: real, y: real)
    requires limit.rate >= 0.0 && x <= y
    ensures Allowance(limit, x) <= Allowance(limit, y)
  {
  }

  /** Waiting moves every slack by the same amount; the refill adds the window that starts now. */
  lemma {:induction false} RefillIsLeast(log: seq<Call>, tokens: real, last: real, t: real, limit: Limit)
    requires LeastSlack(log, tokens, last, limit)
    ensures var r := Refilled(tokens, t - last, limit);
            && r <= limit.burst
            && (forall i :: 0 <= i < |log| ==> r <= Slack(log, i, t, limit))
            && (r == limit.burst || exists i :: 0 <= i < |log| && r == Slack(log, i, t, limit))
  {
    hide Admitted, Allowance;
    forall i | 0 <= i < |log| ensures Slack(log, i, t, limit) == Slack(log, i, last, limit) + (t - last) * limit.rate {
      LaterAllowance(limit, log[i].at, last, t);
    }
  }

  /** Refusing below one token is refusing exactly when admission would break some window. */
  lemma {:induction false} RefusalExact(log: seq<Call>, tokens: real, last: real, t: real, limit: Limit)
    requires LeastSlack(log, tokens, last, limit)
    ensures Refilled(tokens, t - last, limit) < 1.0 <==> WouldBreak(log, t, limit)
  {
    hide Admitted, Refilled, Allowance;
    RefillIsLeast(log, tokens, last, t, limit);
    var r := Refilled(tokens, t - last, limit);
    if WouldBreak(log, t, limit) && 1.0 <= limit.burst {
      var i :| 0 <= i < |log| && Admitted(log, i, |log|) as real + 1.0 > Allowance(limit, t - log[i].at);
      assert Slack(log, i, t, limit) < 1.0;
    }
    if r < 1.0 && r != limit.burst {
      var i :| 0 <= i < |log| && r == Slack(log, i, t, limit);
    }
  }

  /** After the call is logged, what is left in the bucket is again the least slack. */
  lemma {:induction false} StepLeast(log: seq<Call>, tokens: real, last: real, t: real, limit: Limit, admit: bool)
    requires LeastSlack(log, tokens, last, limit)
    ensures LeastSlack(log + [Call(t, admit)],
                       Refilled(tokens, t - last, limit) - if admit then 1.0 else 0.0, t, limit)
  {
    hide Admitted, Refilled, Allowance;
    RefillIsLeast(log, tokens, last, t, limit);
    var r, cost := Refilled(tokens, t - last, limit), if admit then 1.0 else 0.0;
    var longer := log + [Call(t, admit)];
    forall i | 0 <= i < |log| ensures Slack(longer, i, t, limit) == Slack(log, i, t, limit) - cost {
      LastCounts(log, t, admit, i);
    }
    LastCounts(log, t, admit, |log|);
    NothingAdmitted(log, |log|);
    AllowanceNow(limit);
    assert Slack(longer, |log|, t, limit) == limit.burst - cost;
    if r != limit.burst {
      var i :| 0 <= i < |log| && r == Slack(log, i, t, limit);
      assert r - cost == Slack(longer, i, t, limit);
    }
  }

  lemma {:induction false} LastCounts(log: seq<Call>, t: real, admit: bool, i: nat)
    requires i <= |log|
    ensures Admitted(log + [Call(t, admit)], i, |log| + 1) == Admitted(log, i, |log|) + if admit then 1 else 0
  {
    AdmittedExtend(log, Call(t, admit), i, |log|);
  }

  lemma {:induction false} NothingAdmitted(log: seq<Call>, i: nat)
    requires i <= |log|
    ensures Admitted(log, i, i) == 0
  {
  }

  /** The windows that end with the new call are within the bound because no token count is negative. */
  lemma {:induction false} StepRespects(log: seq<Call>, t: real, limit: Limit, admit: bool, left: real)
    requires WindowsRespected(log, limit) && left >= 0.0
    requires LeastSlack(log + [Call(t, admit)], left, t, limit)
    ensures WindowsRespected(log + [Call(t, admit)], limit)
  {
    hide Admitted, Allowance;
    var longer := log + [Call(t, admit)];
    forall i, j | 0 <= i <= j < |longer|
      ensures Admitted(longer, i, j + 1) as real <= Allowance(limit, longer[j].at - longer[i].at)
    {
      if j < |log| {
        AdmittedExtend(log, Call(t, admit), i, j + 1);
        assert longer[i] == log[i] && longer[j] == log[j];
      } else {
        assert left <= Slack(longer, i, t, limit);
      }
    }
  }

  class Bucket {
    var tokens: real
    var lastRefill: real
    const limit: Limit
    ghost var log: seq<Call>

    ghost predicate Valid()
      reads this
    {
      && log != [] && Sorted(log) && log[|log| - 1].at == lastRefill
      && LeastSlack(log, tokens, lastRefill, limit)
      && (limit.rate >= 0.0 && limit.burst >= 0.0 ==> 0.0 <= tokens && WindowsRespected(log, limit))
    }

    constructor (rate: real, burst: real, now: real)
      ensures Valid() && limit == Limit(rate, burst) && log == [Call(now, false)]
    {
      tokens := burst;
      lastRefill := now;
      limit := Limit(rate, burst);
      log := [Call(now, false)];
      new;
      AllowanceNow(limit);
      assert Admitted(log, 0, 1) == Admitted(log, 0, 0);
      assert Slack(log, 0, now, limit) == burst;
    }

    /** `try_consume` at a clock reading that never goes back. */
    method TryConsume(now: real) returns (allowed: bool)
      requires Valid() && now >= lastRefill
      modifies this
      ensures Valid() && lastRefill == now
      ensures log == old(log) + [Call(now, allowed)]
      ensures !allowed <==> WouldBreak(old(log), now, limit)
    {
      hide LeastSlack, WindowsRespected, WouldBreak, Slack, Admitted, Allowance;
      RefusalExact(log, tokens, lastRefill, now, limit);
      var elapsed := now - lastRefill;
      if tokens >= 0.0 && limit.rate >= 0.0 && limit.burst >= 0.0 {
        NonNegative(tokens, elapsed, limit);
      }
      ghost var before := tokens;
      tokens := Refilled(tokens, elapsed, limit);
      allowed := tokens >= 1.0;
      StepLeast(log, before, lastRefill, now, limit, allowed);
      lastRefill := now;
      if allowed {
        tokens := tokens - 1.0;
      }
      if limit.rate >= 0.0 && limit.burst >= 0.0 {
        StepRespects(log, now, limit, allowed, tokens);
      }
      log := log + [Call(now, allowed)];
    }

    /** In every run every time window admits at most the burst plus the rate over its length. */
    lemma {:induction false} EveryWindow(a: real, b: real)
      requires Valid() && a <= b && limit.rate >= 0.0 && limit.burst >= 0.0
      ensures CountIn(log, a, b) as real <= Allowance(limit, b - a)
    {
      hide LeastSlack, WindowsRespected, Allowance, CountIn;
      WindowBound(log, limit, a, b);
    }
  }

  lemma {:induction false} NonNegative(tokens: real, elapsed: real, limit: Limit)
    requires tokens >= 0.0 && elapsed >= 0.0 && limit.rate >= 0.0 && limit.burst >= 0.0
    ensures Refilled(tokens, elapsed, limit) >= 0.0
  {
  }

  // ---- Windows of time -------------------------------------------------------------------------

  /** Admissions at times between `a` and `b`. */
  function CountIn(log: seq<Call>, a: real, b: real): nat {
    if log == [] then 0
    else
      var c := log[|log| - 1];
      CountIn(log[..|log| - 1], a, b) + if c.admitted && a <= c.at <= b then 1 else 0
  }

  lemma {:induction false} AdmittedPrefix(log: seq<Call>, n: nat, i: nat, j: nat)
    requires i <= j <= n <= |log|
    ensures Admitted(log[..n], i, j) == Admitted(log, i, j)
    decreases j
  {
    if i < j {
      AdmittedPrefix(log, n, i, j - 1);
    }
  }

  /** The calls of a window are consecutive: `i` of them precede it and it ends before call `j`. */
  ghost predicate Covers(log: seq<Call>, a: real, b: real, i: nat, j: nat) {
    && i <= j <= |log|
    && (forall k :: 0 <= k < |log| ==> (i <= k < j <==> a <= log[k].at <= b))
    && (forall k :: 0 <= k < |log| ==> (k < i <==> log[k].at < a))
  }

  /** One more call: before the window, in it or behind it. */
  lemma {:induction false} CoversNext(front: seq<Call>, c: Call, a: real, b: real, i: nat, j: nat)
    requires Covers(front, a, b, i, j) && Sorted(front + [c]) && a <= b
    ensures c.at < a ==> i == j == |front| && Covers(front + [c], a, b, |front| + 1, |front| + 1)
    ensures a <= c.at <= b ==> j == |front| && Covers(front + [c], a, b, i, |front| + 1)
    ensures b < c.at ==> Covers(front + [c], a, b, i, j)
  {
    var log := front + [c];
    forall k | 0 <= k < |front| ensures front[k].at <= c.at {
      assert log[k] == front[k] && log[|front|] == c;
    }
    assert i < |front| ==> !(front[i].at < a);
    assert j < |front| ==> !(a <= front[j].at <= b) && !(front[j].at < a);
  }

  lemma {:induction false} WindowIsSlice(log: seq<Call>, a: real, b: real) returns (i: nat, j: nat)
    requires Sorted(log) && a <= b
    ensures Covers(log, a, b, i, j) && CountIn(log, a, b) == Admitted(log, i, j)
    decreases |log|
  {
    if log == [] {
      i, j := 0, 0;
    } else {
      hide CountIn, Admitted, Covers;
      var n := |log| - 1;
      var front, c := log[..n], log[n];
      assert log == front + [c];
      SortedFront(front, c);
      i, j := WindowIsSlice(front, a, b);
      CoversNext(front, c, a, b, i, j);
      CoversRange(front, a, b, i, j);
      AdmittedPrefix(log, n, i, j);
      CountLast(log, a, b);
      if c.at < a {
        NothingAdmitted(log, n);
        NothingAdmitted(log, n + 1);
        i, j := n + 1, n + 1;
      } else if c.at <= b {
        AdmittedLast(log, i, n);
        j := n + 1;
      }
    }
  }

  lemma {:induction false} CoversRange(log: seq<Call>, a: real, b: real, i: nat, j: nat)
    requires Covers(log, a, b, i, j)
    ensures i <= j <= |log|
  {
  }

  lemma {:induction false} SortedFront(front: seq<Call>, c: Call)
    requires Sorted(front + [c])
    ensures Sorted(front)
  {
    var log := front + [c];
    forall i, j | 0 <= i < j < |front| ensures front[i].at <= front[j].at {
      assert log[i] == front[i] && log[j] == front[j];
    }
  }

  lemma {:induction false} CountLast(log: seq<Call>, a: real, b: real)
    requires log != []
    ensures var c := log[|log| - 1];
            CountIn(log, a, b) == CountIn(log[..|log| - 1], a, b) + if c.admitted && a <= c.at <= b then 1 else 0
  {
  }

  lemma {:induction false} AdmittedLast(log: seq<Call>, i: nat, j: nat)
    requires i <= j < |log|
    ensures Admitted(log, i, j + 1) == Admitted(log, i, j) + if log[j].admitted then 1 else 0
  {
  }

  lemma {:induction false} WindowBound(log: seq<Call>, limit: Limit, a: real, b: real)
    requires Sorted(log) && WindowsRespected(log, limit) && limit.rate >= 0.0 && limit.burst >= 0.0 && a <= b
    ensures CountIn(log, a, b) as real <= Allowance(limit, b - a)
  {
    hide CountIn, Allowance, Admitted;
    var i, j := WindowIsSlice(log, a, b);
    if i < j {
      assert Admitted(log, i, j - 1 + 1) as real <= Allowance(limit, log[j - 1].at - log[i].at);
      AllowanceGrows(limit, log[j - 1].at - log[i].at, b - a);
    } else {
      NothingAdmitted(log, i);
      AllowanceNow(limit);
      AllowanceGrows(limit, 0.0, b - a);
    }
  }
}
