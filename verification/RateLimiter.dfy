/** The per-tenant in-flight counter, and the uploads and retries that share it. */
module RateLimiter {
  import opened Wrappers

  type Tenant = string

  function Inflight(counts: map<Tenant, nat>, tid: Tenant): nat {
    if tid in counts then counts[tid] else 0
  }

  function Released(counts: map<Tenant, nat>, tid: Tenant): map<Tenant, nat> {
    if Inflight(counts, tid) <= 1 then counts - {tid} else counts[tid := Inflight(counts, tid) - 1]
  }

  class TenantRateLimiter {
    var inflight: map<Tenant, nat>

    constructor ()
      ensures inflight == map[]
    {
      inflight := map[];
    }

    method Acquire(tid: Tenant, limit: int) returns (accepted: bool)
      modifies this
      ensures accepted <==> Inflight(old(inflight), tid) < limit
      ensures inflight == if accepted then old(inflight)[tid := Inflight(old(inflight), tid) + 1] else old(inflight)
    {
      var current := Inflight(inflight, tid);
      accepted := current < limit;
      if accepted {
        inflight := inflight[tid := current + 1];
      }
    }

    method Release(tid: Tenant)
      modifies this
      ensures inflight == Released(old(inflight), tid)
    {
      var current := Inflight(inflight, tid);
      if current <= 1 {
        inflight := inflight - {tid};
      } else {
        inflight := inflight[tid := current - 1];
      }
    }
  }

  datatype Reply = TooManyRequests | Unprocessable | Enqueued

  /** The upload endpoint: a slot is taken first, given back if storing raises, and kept
      for the run otherwise. */
  method Extract(limiter: TenantRateLimiter, tid: Tenant, limit: int, stores: bool) returns (reply: Reply)
    modifies limiter
    ensures reply == if Inflight(old(limiter.inflight), tid) >= limit then TooManyRequests
                     else if stores then Enqueued else Unprocessable
    ensures forall u :: Inflight(limiter.inflight, u) ==
                        Inflight(old(limiter.inflight), u) + if u == tid && reply == Enqueued then 1 else 0
  {
    var accepted := limiter.Acquire(tid, limit);
    if !accepted {
      return TooManyRequests;
    }
    if !stores {
      limiter.Release(tid);
      return Unprocessable;
    }
    return Enqueued;
  }

  // ---- Uploads and retries ----------------------------------------------------------------

  type Id = nat

  datatype Upload = Storing(tenant: Tenant) | Running(tenant: Tenant)

  /** `uploads` hold a slot: accepted and still being stored, or in the pipeline.
      `retries` are dead-letter runs, which took none. `finished` counts, for each
      tenant, the retry runs that have ended. */
  datatype Load = Load(
    counts: map<Tenant, nat>,
    uploads: map<Id, Upload>,
    retries: map<Id, Tenant>,
    finished: map<Tenant, nat>)

  datatype Move =
    | Upload(id: Id, tenant: Tenant, limit: int)
    | StoreFails(id: Id)
    | Enqueue(id: Id)
    | UploadEnds(id: Id)
    | Retry(id: Id, tenant: Tenant)
    | RetryEnds(id: Id)

  const Idle := Load(map[], map[], map[], map[])

  /** A request that is refused, or a move that is not possible, changes nothing. */
  function Step(l: Load, m: Move): Load {
    match m
    case Upload(id, t, limit) =>
      if id in l.uploads || Inflight(l.counts, t) >= limit then l
      else l.(counts := l.counts[t := Inflight(l.counts, t) + 1], uploads := l.uploads[id := Storing(t)])
    case StoreFails(id) =>
      if id !in l.uploads || !l.uploads[id].Storing? then l
      else l.(counts := Released(l.counts, l.uploads[id].tenant), uploads := l.uploads - {id})
    case Enqueue(id) =>
      if id !in l.uploads || !l.uploads[id].Storing? then l
      else l.(uploads := l.uploads[id := Running(l.uploads[id].tenant)])
    case UploadEnds(id) =>
      if id !in l.uploads || !l.uploads[id].Running? then l
      else l.(counts := Released(l.counts, l.uploads[id].tenant), uploads := l.uploads - {id})
    case Retry(id, t) =>
      if id in l.retries then l else l.(retries := l.retries[id := t])
    case RetryEnds(id) =>
      if id !in l.retries then l
      else
        var t := l.retries[id];
        l.(counts := Released(l.counts, t), retries := l.retries - {id},
           finished := l.finished[t := Inflight(l.finished, t) + 1])
  }

  function After(l: Load, moves: seq<Move>): Load {
    if moves == [] then l else Step(After(l, moves[..|moves| - 1]), moves[|moves| - 1])
  }

  function Slots(l: Load, t: Tenant): set<Id> {
    set id | id in l.uploads && l.uploads[id].tenant == t
  }

  /** The counter never exceeds the uploads that hold a slot, and falls short of them by
      at most the retry runs that have ended. */
  predicate Counts(l: Load, t: Tenant) {
    Inflight(l.counts, t) <= |Slots(l, t)| <= Inflight(l.counts, t) + Inflight(l.finished, t)
  }

  lemma SlotGained(l: Load, m: Move, t: Tenant)
    requires m.Upload? && m.id !in l.uploads && Inflight(l.counts, m.tenant) < m.limit
    ensures |Slots(Step(l, m), t)| == |Slots(l, t)| + if m.tenant == t then 1 else 0
  {
    assert Slots(Step(l, m), t) == if m.tenant == t then Slots(l, t) + {m.id} else Slots(l, t);
  }

  lemma SlotLost(l: Load, m: Move, t: Tenant)
    requires m.StoreFails? || m.UploadEnds?
    requires m.id in l.uploads && Step(l, m) != l
    ensures |Slots(Step(l, m), t)| == |Slots(l, t)| - if l.uploads[m.id].tenant == t then 1 else 0
  {
    assert Step(l, m).uploads == l.uploads - {m.id};
    assert Slots(Step(l, m), t) == if l.uploads[m.id].tenant == t then Slots(l, t) - {m.id} else Slots(l, t);
  }

  lemma SlotKept(l: Load, m: Move, t: Tenant)
    requires m.Enqueue? || m.Retry? || m.RetryEnds?
    ensures Slots(Step(l, m), t) == Slots(l, t)
  {
  }

  lemma StepKeepsCounts(l: Load, m: Move, t: Tenant)
    requires Counts(l, t)
    ensures Counts(Step(l, m), t)
  {
    if m.Enqueue? || m.Retry? || m.RetryEnds? {
      SlotKept(l, m, t);
    } else if Step(l, m) != l {
      if m.Upload? {
        SlotGained(l, m, t);
      } else {
        SlotLost(l, m, t);
      }
    }
  }

  /** Over every run of accepted, refused, failed and finished uploads mixed with retries. */
  lemma {:induction false} CounterTracksUploads(moves: seq<Move>, t: Tenant)
    ensures Counts(After(Idle, moves), t)
  {
    if moves == [] {
      assert Slots(Idle, t) == {};
    } else {
      var before := moves[..|moves| - 1];
      CounterTracksUploads(before, t);
      StepKeepsCounts(After(Idle, before), moves[|moves| - 1], t);
    }
  }

  /** Without a finished retry the counter is exact. */
  lemma ExactWithoutRetries(moves: seq<Move>, t: Tenant)
    requires Inflight(After(Idle, moves).finished, t) == 0
    ensures Inflight(After(Idle, moves).counts, t) == |Slots(After(Idle, moves), t)|
  {
    CounterTracksUploads(moves, t);
  }

  predicate FixedLimit(moves: seq<Move>, t: Tenant, limit: nat) {
    forall m | m in moves && m.Upload? && m.tenant == t :: m.limit == limit
  }

  lemma {:induction false} CounterWithinLimit(moves: seq<Move>, t: Tenant, limit: nat)
    requires FixedLimit(moves, t, limit)
    ensures Inflight(After(Idle, moves).counts, t) <= limit
  {
    if moves != [] {
      assert moves[|moves| - 1] in moves;
      assert forall m | m in moves[..|moves| - 1] :: m in moves;
      CounterWithinLimit(moves[..|moves| - 1], t, limit);
    }
  }

  /** With a fixed limit, a tenant never holds more slots than the limit plus the retry
      runs that have ended. */
  lemma SlotsWithinLimit(moves: seq<Move>, t: Tenant, limit: nat)
    requires FixedLimit(moves, t, limit)
    ensures |Slots(After(Idle, moves), t)| <= limit + Inflight(After(Idle, moves).finished, t)
  {
    CounterTracksUploads(moves, t);
    CounterWithinLimit(moves, t, limit);
  }

  /** The excess is real: for any number of retries there is a run in which the tenant holds
      that many slots more than its limit allows. */
  function Leak(n: nat): seq<Move> {
    if n == 0 then [Upload(0, "t", 1)]
    else Leak(n - 1) + [Retry(n, "t"), RetryEnds(n), Upload(n, "t", 1)]
  }

  lemma AfterOne(moves: seq<Move>, m: Move)
    ensures After(Idle, moves + [m]) == Step(After(Idle, moves), m)
  {
    assert (moves + [m])[..|moves|] == moves;
  }

  /** n retries have ended, and the counter of 1 stands for n + 1 uploads. */
  predicate Leaked(l: Load, n: nat) {
    && |Slots(l, "t")| == n + 1 && Inflight(l.finished, "t") == n
    && l.counts == map["t" := 1] && l.retries == map[] && forall id | id in l.uploads :: id <= n
  }

  lemma LeakOnce(l: Load, n: nat)
    requires n > 0 && Leaked(l, n - 1)
    ensures Leaked(Step(Step(Step(l, Retry(n, "t")), RetryEnds(n)), Upload(n, "t", 1)), n)
  {
    var retried := Step(l, Retry(n, "t"));
    var freed := Step(retried, RetryEnds(n));
    SlotKept(l, Retry(n, "t"), "t");
    SlotKept(retried, RetryEnds(n), "t");
    assert freed.counts == map[] && freed.retries == map[] && freed.uploads == l.uploads;
    SlotGained(freed, Upload(n, "t", 1), "t");
  }

  lemma AfterThree(moves: seq<Move>, a: Move, b: Move, c: Move)
    ensures After(Idle, moves + [a, b, c]) == Step(Step(Step(After(Idle, moves), a), b), c)
  {
    assert moves + [a, b, c] == moves + [a] + [b] + [c];
    AfterOne(moves, a);
    AfterOne(moves + [a], b);
    AfterOne(moves + [a] + [b], c);
  }

  lemma {:induction false} LeakHasFixedLimit(n: nat)
    ensures FixedLimit(Leak(n), "t", 1)
  {
    if n > 0 {
      LeakHasFixedLimit(n - 1);
    }
  }

  lemma LeakStarts()
    ensures Leaked(After(Idle, Leak(0)), 0)
  {
    var m := Upload(0, "t", 1);
    assert Leak(0) == [] + [m];
    AfterOne([], m);
    SlotGained(Idle, m, "t");
    assert Slots(Idle, "t") == {};
  }

  /** So the bound of SlotsWithinLimit is met exactly, for every number of retries. */
  lemma {:induction false} BoundIsTight(n: nat)
    ensures FixedLimit(Leak(n), "t", 1)
    ensures Leaked(After(Idle, Leak(n)), n)
  {
    LeakHasFixedLimit(n);
    if n == 0 {
      LeakStarts();
    } else {
      BoundIsTight(n - 1);
      AfterThree(Leak(n - 1), Retry(n, "t"), RetryEnds(n), Upload(n, "t", 1));
      LeakOnce(After(Idle, Leak(n - 1)), n);
    }
  }
}
