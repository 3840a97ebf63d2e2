/** The retry schedule of one meek round trip without response padding (psiphon/meekConn.go):
    always one retry, then retries with growing delays while the next delay ends before the
    deadline. Times are counted from the start of the round trip; attempts take any time and timers
    may fire late. */
module MeekRetry {

  datatype Parameters = Parameters(deadline: nat, minDelay: nat, maxDelay: nat, multiplier: real)

  predicate ValidParameters(p: Parameters) {
    0 < p.minDelay <= p.maxDelay && p.multiplier >= 1.0
  }

  /** One attempt: how long it takes, whether it succeeds, how late the delay timer fires, and
      whether the connection is closed during the delay. */
  datatype Attempt = Attempt(duration: nat, ok: bool, late: nat, cancelled: bool)

  /** When an attempt failed or succeeded, and the delay that was due at that time. */
  datatype Try = Try(at: nat, delay: nat)

  /** The delay after this one. */
  function NextDelay(p: Parameters, delay: nat): (d: nat)
    requires ValidParameters(p)
    ensures d <= p.maxDelay && (delay <= p.maxDelay ==> delay <= d)
  {
    assert delay as real * p.multiplier >= delay as real;
    var next := (delay as real * p.multiplier).Floor;
    if next >= p.maxDelay then p.maxDelay else next
  }

  /** The time left until the deadline is longer than the delay. */
  predicate DelayFits(p: Parameters, t: Try) {
    t.at <= p.deadline && p.deadline - t.at > t.delay
  }

  /** The tries follow each other as the schedule says. */
  ghost predicate Follows(p: Parameters, net: nat -> Attempt, tries: seq<Try>)
    requires ValidParameters(p)
  {
    && (forall i :: 0 <= i < |tries| - 1 ==>
          && !net(i).ok && !net(i).cancelled
          && (i == 0 || DelayFits(p, tries[i]))
          && tries[i + 1].delay == NextDelay(p, tries[i].delay)
          && tries[i + 1].at == tries[i].at + tries[i].delay + net(i).late + net(i + 1).duration)
    && (tries != [] ==> tries[0] == Try(net(0).duration, p.minDelay))
  }

  /** Delays never decrease nor exceed the maximum, and every try comes at least the minimum delay
      after the one before. */
  lemma {:induction false} DelaysGrow(p: Parameters, net: nat -> Attempt, tries: seq<Try>, i: nat, j: nat)
    requires ValidParameters(p) && Follows(p, net, tries) && i <= j < |tries|
    ensures p.minDelay <= tries[i].delay <= tries[j].delay <= p.maxDelay
    ensures tries[j].at >= tries[i].at + (j - i) * p.minDelay
    decreases j
  {
    if j > i {
      DelaysGrow(p, net, tries, i, j - 1);
      assert tries[j - 1 + 1].delay == NextDelay(p, tries[j - 1].delay);
      assert (j - i) * p.minDelay == (j - 1 - i) * p.minDelay + p.minDelay;
    } else if j > 0 {
      DelaysGrow(p, net, tries, i - 1, j - 1);
      assert tries[j - 1 + 1].delay == NextDelay(p, tries[j - 1].delay);
    }
  }

  /** A schedule of more than two tries has less than a deadline's worth of minimum delays. */
  lemma AttemptBound(p: Parameters, net: nat -> Attempt, tries: seq<Try>)
    requires ValidParameters(p) && Follows(p, net, tries)
    ensures |tries| > 2 ==> (|tries| - 1) * p.minDelay < p.deadline
    ensures |tries| <= 2 + p.deadline / p.minDelay
  {
    if |tries| > 2 {
      var k := |tries| - 2;
      DelaysGrow(p, net, tries, 0, k);
      assert DelayFits(p, tries[k]);
      assert (k + 1) * p.minDelay == k * p.minDelay + p.minDelay;
      Quotient(k + 1, p.minDelay, p.deadline);
    }
  }

  lemma Quotient(n: nat, d: nat, m: nat)
    requires d > 0 && n * d <= m
    ensures n <= m / d
  {
    var k := n - m / d - 1;
    assert n * d == k * d + (m / d + 1) * d;
    assert (m / d + 1) * d == m / d * d + d && m < m / d * d + d;
    assert k >= 0 ==> k * d >= 0;
  }

  /** The loop of relayRoundTrip: it ends after a bounded number of attempts, with success exactly
      if the last one succeeds; it gives up only after a second failure for lack of time, or when
      the connection is closed. */
  method RelayRoundTrip(p: Parameters, net: nat -> Attempt) returns (ok: bool, tries: seq<Try>)
    requires ValidParameters(p)
    ensures tries != [] && Follows(p, net, tries)
    ensures |tries| <= 2 + p.deadline / p.minDelay
    ensures ok == net(|tries| - 1).ok
    ensures !ok ==> net(|tries| - 1).cancelled || (|tries| > 1 && !DelayFits(p, tries[|tries| - 1]))
    ensures forall i, j :: 0 <= i <= j < |tries| ==> p.minDelay <= tries[i].delay <= tries[j].delay <= p.maxDelay
  {
    var now, delay, retries := 0, p.minDelay, 0;
    tries := [];
    ok := false;
    var done := false;
    while !done
      invariant retries <= |tries| <= retries + 1 && (done <==> |tries| == retries + 1)
      invariant Follows(p, net, tries)
      invariant !done ==> delay == (if tries == [] then p.minDelay else NextDelay(p, tries[|tries| - 1].delay))
      invariant !done ==> now == if tries == [] then 0 else
                  tries[|tries| - 1].at + tries[|tries| - 1].delay + net(|tries| - 1).late
      invariant !done && tries != [] ==>
                  && !net(|tries| - 1).ok && !net(|tries| - 1).cancelled
                  && (|tries| == 1 || DelayFits(p, tries[|tries| - 1]))
      invariant done ==> ok == net(|tries| - 1).ok
      invariant done && !ok ==> net(|tries| - 1).cancelled || (|tries| > 1 && !DelayFits(p, tries[|tries| - 1]))
      decreases 2 + p.deadline / p.minDelay - |tries|, !done
    {
      ghost var before := tries;
      now := now + net(retries).duration;
      tries := tries + [Try(now, delay)];
      ok := net(retries).ok;
      assert Follows(p, net, tries) by {
        forall i | 0 <= i < |tries| - 1
          ensures && !net(i).ok && !net(i).cancelled
                  && (i == 0 || DelayFits(p, tries[i]))
                  && tries[i + 1].delay == NextDelay(p, tries[i].delay)
                  && tries[i + 1].at == tries[i].at + tries[i].delay + net(i).late + net(i + 1).duration
        {
          if i < |before| - 1 {
            assert before[i] == tries[i] && before[i + 1] == tries[i + 1];
          }
        }
      }
      AttemptBound(p, net, tries);
      if ok || (retries >= 1 && (now > p.deadline || p.deadline - now <= delay)) || net(retries).cancelled {
        done := true;
      } else {
        now := now + delay + net(retries).late;
        delay := NextDelay(p, delay);
        retries := retries + 1;
      }
    }
    forall i, j | 0 <= i <= j < |tries|
      ensures p.minDelay <= tries[i].delay <= tries[j].delay <= p.maxDelay
    {
      DelaysGrow(p, net, tries, i, j);
    }
    AttemptBound(p, net, tries);
  }
}
