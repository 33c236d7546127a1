/**
  The sliding-window rate limiter. It forgets admissions outside the window and whole idle buckets; the
  limiter is proved to decide as if it had never forgotten anything.
 */
module RateLimiter {

  /** Times are nanoseconds of a clock that never goes back. */
  const MINUTE := 60_000_000_000
  const GC_INTERVAL := 5 * MINUTE

  /** The times in `ts` that are not before `from`, in order. */
  function Since(ts: seq<int>, from: int): seq<int> {
    if ts == [] then []
    else
      var n := |ts| - 1;
      if ts[n] < from then Since(ts[..n], from) else Since(ts[..n], from) + [ts[n]]
  }

  function Lookup(m: map<string, seq<int>>, key: string): seq<int> {
    if key in m then m[key] else []
  }

  /** The rule with a full history: fewer than `maxRpm` admissions in the last minute. */
  predicate Admits(history: seq<int>, now: int, maxRpm: int) {
    |Since(history, now - MINUTE)| < maxRpm
  }

  /** A history each of whose admissions the rule allowed at its time. */
  ghost predicate Legal(history: seq<int>, maxRpm: int) {
    && Ascending(history)
    && forall i | 0 <= i < |history| :: Admits(history[..i], history[i], maxRpm)
  }

  ghost predicate Ascending(ts: seq<int>) {
    forall i, j | 0 <= i < j < |ts| :: ts[i] <= ts[j]
  }

  function Within(ts: seq<int>, lo: int, hi: int): nat {
    if ts == [] then 0
    else Within(ts[..|ts| - 1], lo, hi) + if lo <= ts[|ts| - 1] <= hi then 1 else 0
  }

  // ---- Facts about windows ----

  lemma SinceSnoc(ts: seq<int>, t: int, from: int)
    ensures Since(ts + [t], from) == if t < from then Since(ts, from) else Since(ts, from) + [t]
  {
    assert (ts + [t])[..|ts|] == ts;
  }

  lemma {:induction false} SinceSince(ts: seq<int>, a: int, b: int)
    requires a <= b
    ensures Since(Since(ts, a), b) == Since(ts, b)
  {
    if ts == [] {
    } else {
      var n := |ts| - 1;
      SinceSince(ts[..n], a, b);
      SinceSnoc(Since(ts[..n], a), ts[n], b);
    }
  }

  lemma {:induction false} SinceOfOld(ts: seq<int>, from: int)
    requires forall i | 0 <= i < |ts| :: ts[i] < from
    ensures Since(ts, from) == []
  {
    if ts == [] {
    } else {
      SinceOfOld(ts[..|ts| - 1], from);
    }
  }

  lemma {:induction false} SinceIsAscending(ts: seq<int>, from: int)
    requires Ascending(ts)
    ensures Ascending(Since(ts, from))
    ensures Since(ts, from) != [] ==> Since(ts, from)[|Since(ts, from)| - 1] <= ts[|ts| - 1]
  {
    if ts == [] {
    } else {
      SinceIsAscending(ts[..|ts| - 1], from);
    }
  }

  lemma {:induction false} WindowIsSince(ts: seq<int>, lo: int, hi: int)
    requires forall i | 0 <= i < |ts| :: ts[i] <= hi
    ensures Within(ts, lo, hi) == |Since(ts, lo)|
  {
    if ts == [] {
    } else {
      WindowIsSince(ts[..|ts| - 1], lo, hi);
    }
  }

  lemma {:induction false} SinceShrinks(ts: seq<int>, a: int, b: int)
    requires a <= b
    ensures |Since(ts, b)| <= |Since(ts, a)|
  {
    if ts == [] {
    } else {
      SinceShrinks(ts[..|ts| - 1], a, b);
    }
  }

  /** No key is ever admitted more than `maxRpm` times in any closed 60-second interval. */
  lemma {:induction false} AtMostMaxPerMinute(history: seq<int>, maxRpm: int, from: int)
    requires Legal(history, maxRpm)
    ensures Within(history, from, from + 60_000_000_000) <= if maxRpm > 0 then maxRpm else 0
  {
    if history == [] {
    } else {
      var n := |history| - 1;
      var before, t := history[..n], history[n];
      assert Legal(before, maxRpm) by {
        assert forall i | 0 <= i < n :: before[..i] == history[..i];
      }
      if from <= t <= from + MINUTE {
        assert Admits(history[..n], history[n], maxRpm);
        WindowIsSince(before, from, from + MINUTE);
        SinceShrinks(before, t - MINUTE, from);
      } else {
        AtMostMaxPerMinute(before, maxRpm, from);
      }
    }
  }

  /** A request is admitted exactly when fewer than `maxRpm` were admitted in the 60 seconds up to it. */
  lemma AdmitsByTheMinute(history: seq<int>, now: int, maxRpm: int)
    requires forall i | 0 <= i < |history| :: history[i] <= now
    ensures Admits(history, now, maxRpm) <==> Within(history, now - 60_000_000_000, now) < maxRpm
  {
    WindowIsSince(history, now - 60_000_000_000, now);
  }

  /** One more decision changes pruned and full history alike. */
  lemma SinceAfter(bucket: seq<int>, full: seq<int>, now: int, ok: bool, from: int)
    requires Since(bucket, from) == Since(full, from) && from >= now - MINUTE
    ensures var more := if ok then [now] else [];
            Since(Since(bucket, now - MINUTE) + more, from) == Since(full + more, from)
  {
    var kept := Since(bucket, now - MINUTE);
    SinceSince(bucket, now - MINUTE, from);
    if ok {
      SinceSnoc(kept, now, from);
      SinceSnoc(full, now, from);
    } else {
      assert kept + [] == kept && full + [] == full;
    }
  }

  lemma PrunedBounds(bucket: seq<int>, now: int, ok: bool)
    requires Ascending(bucket) && forall i | 0 <= i < |bucket| :: bucket[i] <= now
    ensures var after := Since(bucket, now - MINUTE) + if ok then [now] else [];
            Ascending(after) && forall i | 0 <= i < |after| :: after[i] <= now
  {
    SinceIsAscending(bucket, now - MINUTE);
  }

  lemma LegalSnoc(full: seq<int>, now: int, maxRpm: int)
    requires Legal(full, maxRpm) && Admits(full, now, maxRpm)
    requires forall i | 0 <= i < |full| :: full[i] <= now
    ensures Legal(full + [now], maxRpm)
  {
    var after := full + [now];
    forall i | 0 <= i < |after|
      ensures Admits(after[..i], after[i], maxRpm)
    {
      assert after[..i] == full[..i];
      assert full[..|full|] == full;
    }
  }

  // ---- The limiter ----

  class RateLimiter {
    const maxRpm: int
    var requests: map<string, seq<int>>
    var lastGc: int

    /** Every admission ever, per key, and the last time the clock was read. */
    ghost var history: map<string, seq<int>>
    ghost var clock: int

    /** The buckets and the full history look the same through every window that can still be asked about. */
    ghost predicate Valid()
      reads this
    {
      && (forall key: string :: Agrees(key))
      && lastGc <= clock
    }

    ghost predicate Agrees(key: string)
      reads `requests, `history, `clock
    {
      var bucket, full := Lookup(requests, key), Lookup(history, key);
      && Ascending(bucket) && (forall i | 0 <= i < |bucket| :: bucket[i] <= clock)
      && Legal(full, maxRpm) && (forall i | 0 <= i < |full| :: full[i] <= clock)
      && forall from | from >= clock - MINUTE :: Since(bucket, from) == Since(full, from)
    }

    constructor (maxRequestsPerMinute: int, now: int)
      ensures Valid() && maxRpm == maxRequestsPerMinute && history == map[] && clock == now
    {
      maxRpm, requests, lastGc := maxRequestsPerMinute, map[], now;
      history, clock := map[], now;
    }

    /** `allow`: the decision is the one the rule makes on the full history, and exactly an admission is remembered. */
    method Allow(key: string, now: int) returns (ok: bool)
      requires Valid() && clock <= now
      modifies this
      ensures Valid() && clock == now
      ensures ok <==> Admits(Lookup(old(history), key), now, maxRpm)
      ensures ok <==> Within(Lookup(old(history), key), now - 60_000_000_000, now) < maxRpm
      ensures history == if ok then old(history)[key := Lookup(old(history), key) + [now]] else old(history)
    {
      hide Since, Legal, Ascending;
      var window := now - MINUTE;
      ghost var full := Lookup(history, key);
      assert Agrees(key);
      AdmitsByTheMinute(full, now, maxRpm);
      var timestamps := Since(Lookup(requests, key), window);
      ok := |timestamps| < maxRpm;
      if ok {
        timestamps := timestamps + [now];
        history := history[key := full + [now]];
      }
      requests := requests[key := timestamps];
      clock := now;

      AgreesAfterAllow(key, old(Lookup(requests, key)), full, now, ok);
      forall k: string
        ensures Agrees(k)
      {
        if k != key {
          assert old(Agrees(k));
        }
      }
      if now - lastGc > GC_INTERVAL {
        CollectGarbage(now - GC_INTERVAL);
        lastGc := now;
      }
    }

    lemma AgreesAfterAllow(key: string, bucket: seq<int>, full: seq<int>, now: int, ok: bool)
      requires Ascending(bucket) && (forall i | 0 <= i < |bucket| :: bucket[i] <= now)
      requires Legal(full, maxRpm) && (forall i | 0 <= i < |full| :: full[i] <= now)
      requires forall from | from >= now - MINUTE :: Since(bucket, from) == Since(full, from)
      requires clock == now && ok == Admits(full, now, maxRpm)
      requires Lookup(requests, key) == Since(bucket, now - MINUTE) + if ok then [now] else []
      requires Lookup(history, key) == full + if ok then [now] else []
      ensures Agrees(key)
    {
      hide Since, Legal;
      PrunedBounds(bucket, now, ok);
      forall from | from >= now - MINUTE
        ensures Since(Lookup(requests, key), from) == Since(Lookup(history, key), from)
      {
        SinceAfter(bucket, full, now, ok, from);
      }
      if ok {
        LegalSnoc(full, now, maxRpm);
      } else {
        assert full + [] == full;
      }
    }

    /** The periodic collection: buckets that are empty or whose newest entry is older than `stale` go. */
    method CollectGarbage(stale: int)
      requires Valid() && stale == clock - GC_INTERVAL
      modifies this`requests
      ensures Valid()
    {
      hide Since, Legal;
      var rest := requests.Keys;
      while rest != {}
        invariant rest <= requests.Keys && Valid()
        decreases rest
      {
        var k :| k in rest;
        rest := rest - {k};
        assert Agrees(k);
        var bucket := requests[k];
        if bucket == [] || bucket[|bucket| - 1] < stale {
          label before:
          requests := requests - {k};
          StaleIsEmpty(bucket, clock - MINUTE);
          forall other: string
            ensures Agrees(other)
          {
            assert old@before(Agrees(other));
          }
        }
      }
    }
  }

  /** A bucket whose newest entry is outside the window looks empty through every later window. */
  lemma StaleIsEmpty(bucket: seq<int>, window: int)
    requires Ascending(bucket) && (bucket != [] ==> bucket[|bucket| - 1] < window)
    ensures forall from | from >= window :: Since(bucket, from) == Since([], from)
  {
    forall from | from >= window
      ensures Since(bucket, from) == Since([], from)
    {
      SinceOfOld(bucket, from);
    }
  }
}
