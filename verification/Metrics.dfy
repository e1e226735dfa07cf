/** The latency ring of the operations panel and the 95th percentile over it. */
module Metrics {
  import opened Sorting

  // Nanoseconds.
  type Duration = int

  const LATENCY_BUFFER_CAP := 1024

  function Last(history: seq<Duration>, n: nat): seq<Duration> {
    if |history| <= n then history else history[|history| - n..]
  }

  function CountAtMost(s: seq<Duration>, v: Duration): nat {
    if s == [] then 0 else (if s[0] <= v then 1 else 0) + CountAtMost(s[1..], v)
  }

  function CountAtLeast(s: seq<Duration>, v: Duration): nat {
    if s == [] then 0 else (if s[0] >= v then 1 else 0) + CountAtLeast(s[1..], v)
  }

  // ceil(95n / 100)
  function Ceil95(n: nat): nat {
    (95 * n + 99) / 100
  }

  // v is a sample; at least 95 in a hundred are at or below it, and fewer than that strictly below it.
  ghost predicate IsP95(samples: seq<Duration>, v: Duration) {
    && v in samples
    && 100 * CountAtMost(samples, v) >= 95 * |samples|
    && 100 * (|samples| - CountAtLeast(samples, v)) < 95 * |samples|
  }

  function Leq(x: Duration, y: Duration): bool {
    x <= y
  }

  lemma {:induction false} InsertCounts(x: Duration, s: seq<Duration>, v: Duration)
    ensures CountAtMost(Insert(x, s, Leq), v) == (if x <= v then 1 else 0) + CountAtMost(s, v)
    ensures CountAtLeast(Insert(x, s, Leq), v) == (if x >= v then 1 else 0) + CountAtLeast(s, v)
  {
    if s == [] || Leq(x, s[0]) {
      assert ([x] + s)[1..] == s;
    } else {
      InsertCounts(x, s[1..], v);
      assert ([s[0]] + Insert(x, s[1..], Leq))[1..] == Insert(x, s[1..], Leq);
    }
  }

  lemma {:induction false} SortCounts(s: seq<Duration>, v: Duration)
    ensures CountAtMost(Sort(s, Leq), v) == CountAtMost(s, v)
    ensures CountAtLeast(Sort(s, Leq), v) == CountAtLeast(s, v)
  {
    if s != [] {
      SortCounts(s[1..], v);
      InsertCounts(s[0], Sort(s[1..], Leq), v);
    }
  }

  // Rank i of a sorted sequence: i+1 elements at or below it, the rest at or above.
  lemma {:induction false} RankCounts(t: seq<Duration>, i: nat)
    requires Sorted(t, Leq) && i < |t|
    ensures CountAtMost(t, t[i]) >= i + 1
    ensures CountAtLeast(t, t[i]) >= |t| - i
  {
    if i == 0 {
      assert forall j | 0 < j < |t| :: Leq(t[0], t[j]);
      AllAtLeast(t, t[0]);
      assert CountAtMost(t, t[0]) == 1 + CountAtMost(t[1..], t[0]);
    } else {
      assert Leq(t[0], t[i]);
      RankCounts(t[1..], i - 1);
    }
  }

  lemma {:induction false} AllAtLeast(t: seq<Duration>, v: Duration)
    requires forall i | 0 <= i < |t| :: v <= t[i]
    ensures CountAtLeast(t, v) == |t|
  {
    if t != [] {
      AllAtLeast(t[1..], v);
    }
  }

  lemma RankIsP95(samples: seq<Duration>)
    requires samples != []
    ensures 0 <= Ceil95(|samples|) - 1 < |samples| == |Sort(samples, Leq)|
    ensures var v := Sort(samples, Leq)[Ceil95(|samples|) - 1];
            && IsP95(samples, v)
            && CountAtMost(samples, v) >= Ceil95(|samples|)
            && CountAtLeast(samples, v) >= |samples| - Ceil95(|samples|) + 1
  {
    var t, i := Sort(samples, Leq), Ceil95(|samples|) - 1;
    SortSorts(samples, Leq);
    RankCounts(t, i);
    SortCounts(samples, t[i]);
    assert t[i] in multiset(t);
  }

  lemma {:induction false} CountsConcat(xs: seq<Duration>, ys: seq<Duration>, v: Duration)
    ensures CountAtMost(xs + ys, v) == CountAtMost(xs, v) + CountAtMost(ys, v)
    ensures CountAtLeast(xs + ys, v) == CountAtLeast(xs, v) + CountAtLeast(ys, v)
  {
    if xs == [] {
      assert xs + ys == ys;
    } else {
      assert (xs + ys)[1..] == xs[1..] + ys;
      CountsConcat(xs[1..], ys, v);
    }
  }

  // The slots, read from the oldest sample on, are the tail of the history.
  ghost predicate RingHolds(ring: seq<Duration>, idx: nat, count: nat, history: seq<Duration>) {
    && |ring| == LATENCY_BUFFER_CAP && idx < LATENCY_BUFFER_CAP
    && if count < LATENCY_BUFFER_CAP then idx == count == |history| && ring[..count] == history
       else count == LATENCY_BUFFER_CAP <= |history| && ring[idx..] + ring[..idx] == Last(history, LATENCY_BUFFER_CAP)
  }

  // While the ring fills, slots are the history itself.
  lemma RingFills(ring: seq<Duration>, history: seq<Duration>, d: Duration)
    requires |history| < |ring| && ring[..|history|] == history
    ensures ring[|history| := d][..|history| + 1] == history + [d]
  {
  }

  // In a full ring, overwriting the oldest slot drops exactly the oldest retained sample.
  lemma RingTurns(ring: seq<Duration>, idx: nat, tail: seq<Duration>, d: Duration)
    requires idx < |ring| == |tail| && ring[idx..] + ring[..idx] == tail
    ensures var after := ring[idx := d];
            var next := if idx + 1 == |ring| then 0 else idx + 1;
            after[next..] + after[..next] == tail[1..] + [d]
  {
    var after := ring[idx := d];
    assert tail[1..] == ring[idx + 1..] + ring[..idx];
    assert after[..idx + 1] == ring[..idx] + [d];
    assert after[idx + 1..] == ring[idx + 1..];
    if idx + 1 == |ring| {
      assert after[0..] + after[..0] == after == after[..idx + 1];
    }
  }

  lemma RingStep(ring: seq<Duration>, idx: nat, count: nat, history: seq<Duration>, d: Duration)
    requires RingHolds(ring, idx, count, history)
    ensures RingHolds(ring[idx := d], (idx + 1) % LATENCY_BUFFER_CAP,
                      if count < LATENCY_BUFFER_CAP then count + 1 else count, history + [d])
  {
    var after := ring[idx := d];
    if count < LATENCY_BUFFER_CAP {
      RingFills(ring, history, d);
      if count + 1 == LATENCY_BUFFER_CAP {
        assert after[0..] + after[..0] == after == after[..count + 1];
      }
    } else {
      var tail := Last(history, LATENCY_BUFFER_CAP);
      RingTurns(ring, idx, tail, d);
      assert Last(history + [d], LATENCY_BUFFER_CAP) == tail[1..] + [d];
    }
  }

  /** The first `count` slots are the last min(k, 1024) of k observations, as a multiset. */
  lemma RingIsTail(ring: seq<Duration>, idx: nat, count: nat, history: seq<Duration>)
    requires RingHolds(ring, idx, count, history)
    ensures count <= |ring|
    ensures count == if |history| < LATENCY_BUFFER_CAP then |history| else LATENCY_BUFFER_CAP
    ensures multiset(ring[..count]) == multiset(history[if |history| <= 1024 then 0 else |history| - 1024..])
  {
    if count == LATENCY_BUFFER_CAP {
      assert ring[..count] == ring == ring[..idx] + ring[idx..];
    }
  }

  // Where in the ring a sample lies does not matter to the percentile.
  lemma RingP95(ring: seq<Duration>, idx: nat, count: nat, history: seq<Duration>, v: Duration)
    requires RingHolds(ring, idx, count, history) && IsP95(ring[..count], v)
    ensures IsP95(history[if |history| <= 1024 then 0 else |history| - 1024..], v)
  {
    assert Last(history, LATENCY_BUFFER_CAP) == history[if |history| <= 1024 then 0 else |history| - 1024..];
    if count == LATENCY_BUFFER_CAP {
      CountsConcat(ring[..idx], ring[idx..], v);
      CountsConcat(ring[idx..], ring[..idx], v);
      assert ring[..count] == ring == ring[..idx] + ring[idx..];
    }
  }

  class Collector {
    const latencies: array<Duration>
    var ringIdx: nat
    var ringCount: nat
    ghost var history: seq<Duration>

    ghost predicate Valid()
      reads this, latencies
    {
      RingHolds(latencies[..], ringIdx, ringCount, history)
    }

    constructor ()
      ensures Valid() && history == [] && fresh(latencies)
    {
      latencies := new Duration[LATENCY_BUFFER_CAP](_ => 0);
      ringIdx, ringCount := 0, 0;
      history := [];
    }

    method ObserveLatency(d: Duration)
      requires Valid()
      modifies this`ringIdx, this`ringCount, this`history, latencies
      ensures Valid() && history == old(history) + [d]
    {
      RingStep(latencies[..], ringIdx, ringCount, history, d);
      ghost var before := latencies[..];
      latencies[ringIdx] := d;
      assert latencies[..] == before[ringIdx := d];
      ringIdx := (ringIdx + 1) % LATENCY_BUFFER_CAP;
      if ringCount < LATENCY_BUFFER_CAP {
        ringCount := ringCount + 1;
      }
      history := history + [d];
    }

    /** The 95th percentile of exactly the last 1024 observations, or of all while there are fewer, and
        zero when there are none. */
    method P95() returns (p: Duration)
      requires Valid()
      ensures history == [] ==> p == 0
      ensures history != [] ==>
                var tail := history[if |history| <= 1024 then 0 else |history| - 1024..];
                && p in tail
                && 100 * CountAtMost(tail, p) >= 95 * |tail|
                && 100 * (|tail| - CountAtLeast(tail, p)) < 95 * |tail|
    {
      RingIsTail(latencies[..], ringIdx, ringCount, history);
      var n: int := ringCount;
      var samples := latencies[..n];
      if n == 0 {
        return 0;
      }
      var sorted := Sort(samples, Leq);
      RankIsP95(samples);
      assert samples == latencies[..][..n];
      var idx: int := Ceil95(n) - 1;
      p := sorted[if idx < 0 then 0 else if idx >= n then n - 1 else idx];
      RingP95(latencies[..], ringIdx, ringCount, history, p);
    }
  }
}
