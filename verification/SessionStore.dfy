/**
  The session store. It drops idle sessions when it meets them and in a periodic collection; its answers
  are proved to be those a trace of everything that ever happened determines.
 */
module SessionStore {
  import opened Wrappers

  const GC_INTERVAL := 5 * 60 * 1000

  // ---- Comparing bearer hashes ----

  lemma AccumulatedDifference(acc: bv8, x: bv8, y: bv8)
    ensures acc | (x ^ y) == 0 <==> acc == 0 && x == y
  {
  }

  /** `constant_time_equal`: it looks at every byte, and is equality. */
  method ConstantTimeEqual(a: seq<bv8>, b: seq<bv8>) returns (equal: bool)
    ensures equal <==> a == b
  {
    if |a| != |b| {
      return false;
    }
    var result: bv8 := 0;
    for i := 0 to |a|
      invariant result == 0 <==> a[..i] == b[..i]
    {
      AccumulatedDifference(result, a[i], b[i]);
      assert a[..i + 1] == a[..i] + [a[i]] && b[..i + 1] == b[..i] + [b[i]];
      result := result | (a[i] ^ b[i]);
    }
    assert a[..|a|] == a && b[..|b|] == b;
    return result == 0;
  }

  // ---- The trace ----

  type Bearer = seq<bv8>

  datatype Session = Session(id: string, bearer: Bearer, userId: string, createdAt: int, lastSeen: int)

  datatype Event =
    | Issued(id: string, bearer: Bearer, at: int)
    | Validated(id: string, bearer: Bearer, at: int, ok: bool)
    | Invalidated(id: string)

  /** An event that restarts the idle clock of `id`. */
  predicate Touches(e: Event, id: string) {
    e.id == id && (e.Issued? || (e.Validated? && e.ok))
  }

  /** The bearer `id` is bound to and when it was last touched, if it was issued and not invalidated since. */
  function Bound(trace: seq<Event>, id: string): Option<(Bearer, int)> {
    if trace == [] then None
    else
      var e, before := trace[|trace| - 1], Bound(trace[..|trace| - 1], id);
      if e.id != id then before
      else if e.Issued? then Some((e.bearer, e.at))
      else if e.Invalidated? then None
      else if e.ok && before.Some? then Some((before.value.0, e.at))
      else before
  }

  predicate Accepts(trace: seq<Event>, ttl: int, id: string, bearer: Bearer, now: int) {
    var b := Bound(trace, id);
    b.Some? && b.value.0 == bearer && now - b.value.1 <= ttl
  }

  /** No id is ever issued twice. */
  ghost predicate FreshIds(trace: seq<Event>) {
    forall i, j | 0 <= i < j < |trace| && trace[i].Issued? && trace[j].Issued? :: trace[i].id != trace[j].id
  }

  /** Event `i` issued `id` with this bearer and nothing has invalidated it since. */
  ghost predicate StandsSince(trace: seq<Event>, id: string, bearer: Bearer, i: int) {
    && 0 <= i < |trace| && trace[i].Issued? && trace[i].id == id && trace[i].bearer == bearer
    && forall j | i < j < |trace| :: trace[j] != Invalidated(id)
  }

  ghost predicate LastTouch(trace: seq<Event>, id: string, i: int) {
    0 <= i < |trace| && Touches(trace[i], id) && forall j | i < j < |trace| :: !Touches(trace[j], id)
  }

  /** `id` was issued with this bearer and not invalidated since, and the gap since its issue or its last
      successful validation is at most `ttl`. */
  ghost predicate Deserves(trace: seq<Event>, ttl: int, id: string, bearer: Bearer, now: int) {
    && (exists i :: StandsSince(trace, id, bearer, i))
    && (exists i :: LastTouch(trace, id, i) && now - trace[i].at <= ttl)
  }

  /** The running summary says just that. */
  lemma AcceptsIffDeserves(trace: seq<Event>, ttl: int, id: string, bearer: Bearer, now: int)
    requires FreshIds(trace)
    ensures Accepts(trace, ttl, id, bearer, now) <==> Deserves(trace, ttl, id, bearer, now)
  {
    var issue, touch := BoundMeaning(trace, id);
    if Deserves(trace, ttl, id, bearer, now) {
      var i :| StandsSince(trace, id, bearer, i);
      var t :| LastTouch(trace, id, t) && now - trace[t].at <= ttl;
      assert i == issue && t == touch;
    }
  }

  lemma {:induction false} BoundMeaning(trace: seq<Event>, id: string) returns (issue: int, touch: int)
    ensures var b := Bound(trace, id);
            if b.Some? then
              && StandsSince(trace, id, b.value.0, issue)
              && LastTouch(trace, id, touch) && trace[touch].at == b.value.1
            else
              forall i: int, bearer: Bearer :: !StandsSince(trace, id, bearer, i)
  {
    issue, touch := -1, -1;
    if trace == [] {
    } else {
      var n := |trace| - 1;
      issue, touch := BoundMeaning(trace[..n], id);
      if Touches(trace[n], id) {
        touch := n;
      }
      if trace[n].Issued? && trace[n].id == id {
        issue := n;
      }
      forall i: int, bearer: Bearer
        ensures StandsSince(trace, id, bearer, i) && i < n ==> StandsSince(trace[..n], id, bearer, i)
      {
      }
    }
  }

  /** Attempts that failed, with the wrong bearer or too late, change no later answer about any session. */
  lemma {:induction false} FailuresChangeNothing(trace: seq<Event>, more: seq<Event>, ttl: int,
                                                 id: string, bearer: Bearer, now: int)
    requires forall i | 0 <= i < |more| :: more[i].Validated? && !more[i].ok
    ensures Accepts(trace + more, ttl, id, bearer, now) == Accepts(trace, ttl, id, bearer, now)
  {
    if more == [] {
      assert trace + more == trace;
    } else {
      var n := |more| - 1;
      FailuresChangeNothing(trace, more[..n], ttl, id, bearer, now);
      assert (trace + more)[..|trace + more| - 1] == trace + more[..n];
    }
  }

  // ---- The store ----

  class SessionStore {
    const idleTtl: int
    var sessions: map<string, Session>
    var lastGc: int

    /** Everything that ever happened, and the last time the clock was read. */
    ghost var trace: seq<Event>
    ghost var clock: int

    /** A stored session is under its own id and bound as the trace says; a bound session
        that is not stored has idled out for good. */
    ghost predicate Reflects(id: string)
      reads `sessions, `trace, `clock
    {
      var b := Bound(trace, id);
      if id in sessions then sessions[id].id == id && b == Some((sessions[id].bearer, sessions[id].lastSeen))
      else b.Some? ==> clock - b.value.1 > idleTtl
    }

    ghost predicate Valid()
      reads this
    {
      forall id: string :: Reflects(id)
    }

    /** The session is idle for longer than allowed. */
    predicate Idle(s: Session, now: int) {
      now - s.lastSeen > idleTtl
    }

    constructor (ttl: int, now: int)
      ensures Valid() && idleTtl == ttl && sessions == map[] && trace == [] && clock == now
    {
      idleTtl, sessions, lastGc := ttl, map[], now;
      trace, clock := [], now;
    }

    ghost method Record(e: Event, now: int)
      modifies `trace, `clock
      ensures trace == old(trace) + [e] && clock == now
      ensures forall id :: Bound(trace[..|trace| - 1], id) == Bound(old(trace), id)
      ensures trace[|trace| - 1] == e
    {
      trace, clock := trace + [e], now;
      assert trace[..|trace| - 1] == old(trace);
    }

    /** `issue`, with the id the generator returned. */
    method Issue(newId: string, bearer: Bearer, userId: string, now: int) returns (s: Session)
      requires Valid() && clock <= now
      modifies this
      ensures Valid() && clock == now
      ensures s == Session(newId, bearer, userId, now, now)
      ensures newId in sessions && sessions[newId] == s
      ensures forall id | id in sessions && id != newId :: id in old(sessions) && sessions[id] == old(sessions)[id]
      ensures forall id | id in old(sessions) && id !in sessions :: Idle(old(sessions)[id], now)
      ensures trace == old(trace) + [Issued(newId, bearer, now)]
    {
      s := Session(newId, bearer, userId, now, now);
      CollectGarbage(now);
      label collected:
      sessions := sessions[newId := s];
      Record(Issued(newId, bearer, now), now);
      forall other: string
        ensures Reflects(other)
      {
        assert old@collected(Reflects(other));
      }
    }

    /** `validate`: it answers exactly as the trace determines, and on success the stored session moves on. */
    method Validate(id: string, bearer: Bearer, now: int) returns (r: Option<Session>)
      requires Valid() && clock <= now
      modifies this
      ensures Valid() && clock == now
      ensures r.Some? <==> Accepts(old(trace), idleTtl, id, bearer, now)
      ensures r.Some? ==>
                && id in old(sessions) && r.value == old(sessions)[id].(lastSeen := now)
                && r.value.id == id && r.value.bearer == bearer
                && sessions == old(sessions)[id := r.value]
      ensures r.None? ==>
                sessions == if id in old(sessions) && Idle(old(sessions)[id], now) then old(sessions) - {id}
                            else old(sessions)
      ensures trace == old(trace) + [Validated(id, bearer, now, r.Some?)]
    {
      assert Reflects(id);
      r := None;
      if id in sessions {
        var s := sessions[id];
        if Idle(s, now) {
          sessions := sessions - {id};
        } else {
          var same := ConstantTimeEqual(s.bearer, bearer);
          if same {
            sessions := sessions[id := s.(lastSeen := now)];
            r := Some(sessions[id]);
          }
        }
      }
      Record(Validated(id, bearer, now, r.Some?), now);
      forall other: string
        ensures Reflects(other)
      {
        assert old(Reflects(other));
      }
    }

    method Invalidate(id: string)
      requires Valid()
      modifies this
      ensures Valid() && clock == old(clock)
      ensures sessions == old(sessions) - {id}
      ensures trace == old(trace) + [Invalidated(id)]
    {
      sessions := sessions - {id};
      Record(Invalidated(id), clock);
      forall other: string
        ensures Reflects(other)
      {
        assert old(Reflects(other));
      }
    }

    /** `gc_locked`: at most once in the interval, all idle sessions go; it changes no answer. */
    method CollectGarbage(now: int)
      requires Valid() && clock <= now
      modifies `sessions, `lastGc, `clock
      ensures Valid() && clock == now
      ensures now - old(lastGc) < GC_INTERVAL ==> sessions == old(sessions) && lastGc == old(lastGc)
      ensures now - old(lastGc) >= GC_INTERVAL ==>
                && sessions == (map id | id in old(sessions) && !Idle(old(sessions)[id], now) :: old(sessions)[id])
                && lastGc == now
    {
      clock := now;
      forall other: string
        ensures Reflects(other)
      {
        assert old(Reflects(other));
      }
      if now - lastGc < GC_INTERVAL {
        return;
      }
      var rest := sessions.Keys;
      while rest != {}
        invariant rest <= sessions.Keys && Valid() && clock == now
        invariant sessions == map id | id in old(sessions) && (id in rest || !Idle(old(sessions)[id], now))
                                :: old(sessions)[id]
        decreases rest
      {
        var id :| id in rest;
        rest := rest - {id};
        assert Reflects(id);
        label before:
        if Idle(sessions[id], now) {
          sessions := sessions - {id};
        }
        forall other: string
          ensures Reflects(other)
        {
          assert old@before(Reflects(other));
        }
      }
      lastGc := now;
    }
  }
}
