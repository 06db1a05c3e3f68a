/**
  The in-memory fixed-window limiter (internal/ratelimit/ratelimit.go).

  Times are integers on one clock that never goes back. A call reads the clock
  twice: `now` for the decision, and `later` when a denial reports how long the
  window still lasts.
 */
module RateLimit {
  import opened Common

  datatype Entry = Entry(count: int, expiresAt: int)

  datatype Answer = Decided(allowed: bool, retryAfter: int) | Done

  datatype Op =
    | Allow(key: string, limit: int, window: int, now: int, later: int)
    | Peek(key: string, limit: int, window: int, now: int, later: int)
    | Reset(key: string, now: int)
    | Cleanup(now: int)

  /** What one call does to the entry of its own key. */
  function KeyStep(e: Option<Entry>, op: Op): (Option<Entry>, Answer) {
    match op
    case Allow(_, limit, window, now, later) =>
      if e.None? || now > e.value.expiresAt then (Some(Entry(1, now + window)), Decided(true, 0))
      else if e.value.count >= limit then (e, Decided(false, e.value.expiresAt - later))
      else (Some(Entry(e.value.count + 1, e.value.expiresAt)), Decided(true, 0))
    case Peek(_, limit, window, now, later) =>
      if e.None? || now > e.value.expiresAt then (e, Decided(true, 0))
      else if e.value.count >= limit then (e, Decided(false, e.value.expiresAt - later))
      else (e, Decided(true, 0))
    case Reset(_, _) => (None, Done)
    case Cleanup(_) => (e, Done)
  }

  function Unexpired(entries: map<string, Entry>, now: int): map<string, Entry> {
    map k | k in entries && now <= entries[k].expiresAt :: entries[k]
  }

  function Put(entries: map<string, Entry>, k: string, e: Option<Entry>): map<string, Entry> {
    if e.Some? then entries[k := e.value] else entries - {k}
  }

  /** What one operation does to the whole map, cleanup included. */
  function TableStep(entries: map<string, Entry>, op: Op): (map<string, Entry>, Answer) {
    if op.Cleanup? then (Unexpired(entries, op.now), Done)
    else
      var (e, a) := KeyStep(Lookup(entries, op.key), op);
      (Put(entries, op.key, e), a)
  }

  class MemoryLimiter {
    var entries: map<string, Entry>

    constructor ()
      ensures entries == map[]
    {
      entries := map[];
    }

    method Allow(key: string, limit: int, window: int, now: int, later: int)
      returns (allowed: bool, retryAfter: int)
      modifies this
      ensures (entries, Decided(allowed, retryAfter))
           == TableStep(old(entries), Op.Allow(key, limit, window, now, later))
      ensures forall k :: k != key ==>
        (k in entries <==> k in old(entries)) && (k in entries ==> entries[k] == old(entries)[k])
      ensures allowed <==>
        key !in old(entries) || now > old(entries)[key].expiresAt || old(entries)[key].count < limit
      ensures key in entries && entries[key] ==
        if key !in old(entries) || now > old(entries)[key].expiresAt then Entry(1, now + window)
        else if allowed then Entry(old(entries)[key].count + 1, old(entries)[key].expiresAt)
        else old(entries)[key]
      ensures retryAfter == if allowed then 0 else old(entries)[key].expiresAt - later
    {
      if key !in entries || now > entries[key].expiresAt {
        entries := entries[key := Entry(1, now + window)];
        return true, 0;
      }
      var e := entries[key];
      if e.count >= limit {
        assert entries[key := e] == entries;
        return false, e.expiresAt - later;
      }
      entries := entries[key := Entry(e.count + 1, e.expiresAt)];
      return true, 0;
    }

    method Peek(key: string, limit: int, window: int, now: int, later: int)
      returns (allowed: bool, retryAfter: int)
      ensures (entries, Decided(allowed, retryAfter)) == TableStep(entries, Op.Peek(key, limit, window, now, later))
      ensures allowed <==> key !in entries || now > entries[key].expiresAt || entries[key].count < limit
      ensures retryAfter == if allowed then 0 else entries[key].expiresAt - later
    {
      assert key in entries ==> entries[key := entries[key]] == entries;
      assert key !in entries ==> entries - {key} == entries;
      if key !in entries || now > entries[key].expiresAt {
        return true, 0;
      }
      if entries[key].count >= limit {
        return false, entries[key].expiresAt - later;
      }
      return true, 0;
    }

    method Reset(key: string, now: int)
      modifies this
      ensures (entries, Done) == TableStep(old(entries), Op.Reset(key, now))
      ensures forall k :: k in entries <==> k in old(entries) && k != key
      ensures forall k :: k in entries ==> entries[k] == old(entries)[k]
    {
      entries := entries - {key};
    }

    /** One tick of the cleanup loop: visit every key, delete the expired ones. */
    method Cleanup(now: int)
      modifies this
      ensures (entries, Done) == TableStep(old(entries), Op.Cleanup(now))
      ensures forall k :: k in entries <==> k in old(entries) && now <= old(entries)[k].expiresAt
      ensures forall k :: k in entries ==> entries[k] == old(entries)[k]
    {
      var todo := entries.Keys;
      while todo != {}
        invariant todo <= entries.Keys <= old(entries.Keys)
        invariant forall k :: k in entries ==> entries[k] == old(entries)[k]
        invariant forall k :: k in old(entries) ==>
          (k in entries <==> k in todo || now <= old(entries)[k].expiresAt)
        decreases todo
      {
        var k :| k in todo;
        if now > entries[k].expiresAt {
          entries := entries - {k};
        }
        todo := todo - {k};
      }
      assert entries == Unexpired(old(entries), now);
    }
  }

  // ---------------------------------------------------------------------
  // Refinement: lazy expiry, cleanup and the other keys are unobservable.
  // ---------------------------------------------------------------------

  ghost predicate Monotone(ops: seq<Op>) {
    forall i, j :: 0 <= i < j < |ops| ==> ops[i].now <= ops[j].now
  }

  /** The calls addressed to one key, in order; cleanups address none. */
  function CallsOn(ops: seq<Op>, k: string): (calls: seq<Op>) {
    if ops == [] then []
    else (if !ops[0].Cleanup? && ops[0].key == k then [ops[0]] else []) + CallsOn(ops[1..], k)
  }

  /** What the limiter answers to the calls on `k` while it serves all of `ops`. */
  function TableAnswers(entries: map<string, Entry>, ops: seq<Op>, k: string): seq<Answer>
    decreases |ops|
  {
    if ops == [] then []
    else
      var (entries', a) := TableStep(entries, ops[0]);
      (if !ops[0].Cleanup? && ops[0].key == k then [a] else []) + TableAnswers(entries', ops[1..], k)
  }

  /** The specification: one key alone, whose entry is never deleted on expiry. */
  function KeyAnswers(e: Option<Entry>, calls: seq<Op>): seq<Answer>
    decreases |calls|
  {
    if calls == [] then []
    else
      var (e', a) := KeyStep(e, calls[0]);
      [a] + KeyAnswers(e', calls[1..])
  }

  /** The map may have dropped an entry that can no longer matter at `now`. */
  ghost predicate Simulates(impl: Option<Entry>, spec: Option<Entry>, now: int) {
    impl == spec || (impl.None? && spec.Some? && spec.value.expiresAt < now)
  }

  lemma StepSimulates(entries: map<string, Entry>, spec: Option<Entry>, op: Op, k: string)
    requires Simulates(Lookup(entries, k), spec, op.now)
    ensures var (entries', a) := TableStep(entries, op);
            if !op.Cleanup? && op.key == k
            then Simulates(Lookup(entries', k), KeyStep(spec, op).0, op.now) && a == KeyStep(spec, op).1
            else Simulates(Lookup(entries', k), spec, op.now)
  {
  }

  lemma {:induction false} SimulationRun(entries: map<string, Entry>, spec: Option<Entry>, ops: seq<Op>, k: string)
    requires Monotone(ops)
    requires ops != [] ==> Simulates(Lookup(entries, k), spec, ops[0].now)
    ensures TableAnswers(entries, ops, k) == KeyAnswers(spec, CallsOn(ops, k))
    decreases |ops|
  {
    if ops == [] {
    } else {
      var op, rest := ops[0], ops[1..];
      StepSimulates(entries, spec, op, k);
      var entries' := TableStep(entries, op).0;
      if !op.Cleanup? && op.key == k {
        var calls := CallsOn(ops, k);
        assert calls[0] == op && calls[1..] == CallsOn(rest, k);
        SimulationRun(entries', KeyStep(spec, op).0, rest, k);
      } else {
        assert CallsOn(ops, k) == CallsOn(rest, k);
        SimulationRun(entries', spec, rest, k);
      }
    }
  }

  /** The limiter answers each key as if cleanup and all other keys did not exist. */
  lemma LimiterRefinesKeySpec(ops: seq<Op>, k: string)
    requires Monotone(ops)
    ensures TableAnswers(map[], ops, k) == KeyAnswers(None, CallsOn(ops, k))
  {
    SimulationRun(map[], None, ops, k);
  }

  /** `Peek` foretells `Allow` at the same instant and leaves the map alone. */
  lemma PeekForetellsAllow(entries: map<string, Entry>, k: string, limit: int, window: int, now: int, later: int)
    ensures var peek := TableStep(entries, Peek(k, limit, window, now, later));
            peek.0 == entries && peek.1 == TableStep(entries, Allow(k, limit, window, now, later)).1
  {
    assert k in entries ==> entries[k := entries[k]] == entries;
    assert k !in entries ==> entries - {k} == entries;
  }

  /**
    What a denial's `retryAfter` means: with the key left alone until then, the
    same call succeeds exactly after that much time has gone by.
   */
  lemma RetryAfterIsExact(e: Option<Entry>, k: string, limit: int, window: int, now: int, later: int, next: int)
    requires limit >= 1 && now <= later && now <= next
    requires KeyStep(e, Allow(k, limit, window, now, later)).1.allowed == false
    ensures var (e', denial) := KeyStep(e, Allow(k, limit, window, now, later));
            KeyStep(e', Allow(k, limit, window, next, next)).1.allowed <==> next > later + denial.retryAfter
  {
  }

  // ---------------------------------------------------------------------
  // The sliding bound.
  // ---------------------------------------------------------------------

  /** Successful `Allow` calls with lo <= now <= hi, given the calls and their answers. */
  function SuccessesIn(calls: seq<Op>, answers: seq<Answer>, lo: int, hi: int): nat
    requires |calls| == |answers|
  {
    if calls == [] then 0
    else
      (if calls[0].Allow? && lo <= calls[0].now <= hi && answers[0] == Decided(true, 0) then 1 else 0)
      + SuccessesIn(calls[1..], answers[1..], lo, hi)
  }

  /** Every call on the key is a `Peek`, or an `Allow` with the same limit and window. */
  ghost predicate ConstantUse(calls: seq<Op>, limit: int, window: int) {
    forall i :: 0 <= i < |calls| ==>
      calls[i].Peek? || (calls[i].Allow? && calls[i].limit == limit && calls[i].window == window)
  }

  lemma {:induction false} AnswerEachCall(e: Option<Entry>, calls: seq<Op>)
    ensures |KeyAnswers(e, calls)| == |calls|
    decreases |calls|
  {
    if calls == [] {
    } else {
      AnswerEachCall(KeyStep(e, calls[0]).0, calls[1..]);
    }
  }

  function KeySuccesses(e: Option<Entry>, calls: seq<Op>, lo: int, hi: int): nat {
    AnswerEachCall(e, calls);
    SuccessesIn(calls, KeyAnswers(e, calls), lo, hi)
  }

  lemma SuccessesStep(e: Option<Entry>, calls: seq<Op>, lo: int, hi: int)
    requires calls != []
    ensures var (e', a) := KeyStep(e, calls[0]);
            KeySuccesses(e, calls, lo, hi)
            == (if calls[0].Allow? && lo <= calls[0].now <= hi && a == Decided(true, 0) then 1 else 0)
               + KeySuccesses(e', calls[1..], lo, hi)
  {
    var (e', a) := KeyStep(e, calls[0]);
    AnswerEachCall(e, calls);
    AnswerEachCall(e', calls[1..]);
    assert KeyAnswers(e, calls)[1..] == KeyAnswers(e', calls[1..]);
  }

  lemma {:induction false} NoneAfterInterval(e: Option<Entry>, calls: seq<Op>, lo: int, hi: int)
    requires forall i :: 0 <= i < |calls| ==> hi < calls[i].now
    ensures KeySuccesses(e, calls, lo, hi) == 0
    decreases |calls|
  {
    if calls == [] {
    } else {
      SuccessesStep(e, calls, lo, hi);
      NoneAfterInterval(KeyStep(e, calls[0]).0, calls[1..], lo, hi);
    }
  }

  /** What is left of the current window, plus one more window if it ends before `hi`. */
  function Remaining(e: Entry, limit: int, hi: int): int {
    (if e.count < limit then limit - e.count else 0) + (if e.expiresAt >= hi then 0 else limit)
  }

  /** From inside the interval on, at most `Remaining` more calls succeed. */
  lemma {:induction false} BoundInside(e: Entry, calls: seq<Op>, limit: int, window: int, lo: int)
    requires limit >= 1 && e.count >= 1
    requires ConstantUse(calls, limit, window) && Monotone(calls)
    requires forall i :: 0 <= i < |calls| ==> lo <= calls[i].now
    ensures KeySuccesses(Some(e), calls, lo, lo + window) <= Remaining(e, limit, lo + window)
    decreases |calls|
  {
    if calls == [] {
    } else {
      var hi := lo + window;
      var call, rest := calls[0], calls[1..];
      SuccessesStep(Some(e), calls, lo, hi);
      var e' := KeyStep(Some(e), call).0;
      if call.now > hi {
        NoneAfterInterval(Some(e), calls, lo, hi);
      } else {
        BoundInside(e'.value, rest, limit, window, lo);
      }
    }
  }

  lemma {:induction false} BoundAnywhere(e: Option<Entry>, calls: seq<Op>, limit: int, window: int, lo: int)
    requires limit >= 1 && (e.Some? ==> e.value.count >= 1)
    requires ConstantUse(calls, limit, window) && Monotone(calls)
    ensures KeySuccesses(e, calls, lo, lo + window) <= 2 * limit - 1
    decreases |calls|
  {
    if calls == [] {
    } else {
      var call, rest := calls[0], calls[1..];
      var e' := KeyStep(e, call).0;
      SuccessesStep(e, calls, lo, lo + window);
      if call.now >= lo && e.Some? {
        BoundInside(e.value, calls, limit, window, lo);
      } else if call.now >= lo && e'.Some? {
        BoundInside(e'.value, rest, limit, window, lo);
      } else {
        BoundAnywhere(e', rest, limit, window, lo);
      }
    }
  }

  /** Successful calls on `k` in a closed interval while the limiter serves all of `ops`. */
  function AllowedIn(ops: seq<Op>, k: string, lo: int, hi: int): nat
    requires Monotone(ops)
  {
    LimiterRefinesKeySpec(ops, k);
    AnswerEachCall(None, CallsOn(ops, k));
    SuccessesIn(CallsOn(ops, k), TableAnswers(map[], ops, k), lo, hi)
  }

  lemma {:induction false} CallsAreOps(ops: seq<Op>, k: string)
    requires Monotone(ops)
    ensures Monotone(CallsOn(ops, k))
    ensures forall c :: c in CallsOn(ops, k) ==> c in ops
    decreases |ops|
  {
    if ops == [] {
    } else {
      CallsAreOps(ops[1..], k);
      forall c | c in CallsOn(ops[1..], k) ensures ops[0].now <= c.now {
        assert c in ops[1..];
      }
    }
  }

  /** At most 2L-1 calls succeed in any closed interval as long as the window. */
  lemma SlidingBound(ops: seq<Op>, k: string, limit: int, window: int, lo: int)
    requires Monotone(ops)
    requires limit >= 1 && ConstantUse(CallsOn(ops, k), limit, window)
    ensures AllowedIn(ops, k, lo, lo + window) <= 2 * limit - 1
  {
    LimiterRefinesKeySpec(ops, k);
    CallsAreOps(ops, k);
    BoundAnywhere(None, CallsOn(ops, k), limit, window, lo);
  }

  // ---------------------------------------------------------------------
  // The bound is reached.
  // ---------------------------------------------------------------------

  function Burst(k: string, limit: int, window: int, t: int, n: nat): seq<Op> {
    seq(n, _ => Allow(k, limit, window, t, t))
  }

  /** One call opens a window; the rest of it is used up at its last instant. */
  function TightRun(k: string, limit: nat, window: int): seq<Op>
    requires limit >= 1
  {
    [Allow(k, limit, window, 0, 0)]
    + (Burst(k, limit, window, window, limit - 1) + Burst(k, limit, window, window + 1, limit))
  }

  /** A burst inside an open window succeeds call by call until the limit. */
  lemma {:induction false} BurstSucceeds(e: Entry, k: string, limit: int, window: int, t: int, n: nat, rest: seq<Op>,
                                         lo: int, hi: int)
    requires e.count + n <= limit && t <= e.expiresAt && lo <= t <= hi
    ensures KeySuccesses(Some(e), Burst(k, limit, window, t, n) + rest, lo, hi)
            == n + KeySuccesses(Some(Entry(e.count + n, e.expiresAt)), rest, lo, hi)
    decreases n
  {
    var calls := Burst(k, limit, window, t, n) + rest;
    if n == 0 {
      assert calls == rest;
    } else {
      SuccessesStep(Some(e), calls, lo, hi);
      assert calls[1..] == Burst(k, limit, window, t, n - 1) + rest;
      BurstSucceeds(Entry(e.count + 1, e.expiresAt), k, limit, window, t, n - 1, rest, lo, hi);
    }
  }

  lemma {:induction false} AllOnKey(ops: seq<Op>, k: string)
    requires forall i :: 0 <= i < |ops| ==> !ops[i].Cleanup? && ops[i].key == k
    ensures CallsOn(ops, k) == ops
    decreases |ops|
  {
    if ops != [] {
      AllOnKey(ops[1..], k);
    }
  }

  lemma TightRunCounts(k: string, limit: nat, window: int)
    requires limit >= 1 && window >= 1
    ensures KeySuccesses(None, TightRun(k, limit, window), 1, 1 + window) == 2 * limit - 1
  {
    var ops := TightRun(k, limit, window);
    var second := Burst(k, limit, window, window + 1, limit);
    SuccessesStep(None, ops, 1, 1 + window);
    assert ops[1..] == Burst(k, limit, window, window, limit - 1) + second;
    BurstSucceeds(Entry(1, window), k, limit, window, window, limit - 1, second, 1, 1 + window);
    SuccessesStep(Some(Entry(limit, window)), second, 1, 1 + window);
    assert second[1..] == Burst(k, limit, window, window + 1, limit - 1) + [];
    BurstSucceeds(Entry(1, 2 * window + 1), k, limit, window, window + 1, limit - 1, [], 1, 1 + window);
  }

  /** For every limit and every window of at least one tick, some run reaches 2L-1. */
  lemma SlidingBoundReached(k: string, limit: nat, window: int)
    requires limit >= 1 && window >= 1
    ensures var ops := TightRun(k, limit, window);
            Monotone(ops) && ConstantUse(CallsOn(ops, k), limit, window)
            && AllowedIn(ops, k, 1, 1 + window) == 2 * limit - 1
  {
    var ops := TightRun(k, limit, window);
    AllOnKey(ops, k);
    LimiterRefinesKeySpec(ops, k);
    TightRunCounts(k, limit, window);
  }
}
