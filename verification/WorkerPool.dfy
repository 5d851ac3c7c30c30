/** Per-tenant concurrency: semaphores, and what replacing one allows. */
module WorkerPool {
  import opened Wrappers

  type Tenant = string
  type JobId = nat

  // ---- The pool as the worker keeps it ----------------------------------------------------

  class Semaphore {
    const limit: nat
    var value: int

    constructor (limit: nat)
      ensures this.limit == limit && value == limit
    {
      this.limit := limit;
      value := limit;
    }
  }

  class Pool {
    const defaultLimit: nat
    var semaphores: map<Tenant, Semaphore>
    var limits: map<Tenant, nat>

    constructor (defaultLimit: nat)
      ensures this.defaultLimit == defaultLimit && semaphores == map[] && limits == map[]
    {
      this.defaultLimit := defaultLimit;
      semaphores, limits := map[], map[];
    }

    /** The tenant's semaphore, created on first use at the limit then in force. */
    method SemaphoreFor(tid: Tenant) returns (sem: Semaphore)
      modifies `semaphores
      ensures semaphores == old(semaphores)[tid := sem]
      ensures tid in old(semaphores) ==> sem == old(semaphores)[tid]
      ensures tid !in old(semaphores) ==>
                fresh(sem) && sem.value == sem.limit == if tid in limits then limits[tid] else defaultLimit
    {
      if tid in semaphores {
        sem := semaphores[tid];
        return;
      }
      var limit := if tid in limits then limits[tid] else defaultLimit;
      sem := new Semaphore(limit);
      semaphores := semaphores[tid := sem];
    }

    /** The old semaphore is only forgotten: jobs that hold or await it keep it. */
    method SetTenantLimit(tid: Tenant, limit: int) returns (ok: bool)
      modifies `semaphores, `limits
      ensures ok <==> limit >= 1
      ensures limits == if ok then old(limits)[tid := limit] else old(limits)
      ensures semaphores == if ok then old(semaphores) - {tid} else old(semaphores)
    {
      if limit < 1 {
        return false;
      }
      limits := limits[tid := limit];
      semaphores := semaphores - {tid};
      return true;
    }
  }

  // ---- Every semaphore ever created, and the jobs on them -----------------------------------

  datatype Sem = Sem(tenant: Tenant, limit: nat, value: int)

  datatype Job = Waiting(sem: nat) | Running(sem: nat)

  datatype State = State(limits: map<Tenant, nat>, current: map<Tenant, nat>, sems: seq<Sem>, jobs: map<JobId, Job>)

  datatype Move = SetLimit(tenant: Tenant, limit: int) | Submit(job: JobId, tenant: Tenant) | Enter(job: JobId)
      | Leave(job: JobId)

  const Idle := State(map[], map[], [], map[])

  predicate WellFormed(s: State) {
    && (forall t | t in s.current :: s.current[t] < |s.sems| && s.sems[s.current[t]].tenant == t)
    && (forall j | j in s.jobs :: s.jobs[j].sem < |s.sems|)
  }

  /** A move that is not possible changes nothing; a job leaves alike when it fails. */
  function Step(defaultLimit: nat, s: State, m: Move): (s': State)
    requires WellFormed(s)
    ensures WellFormed(s')
  {
    match m
    case SetLimit(t, limit) =>
      if limit < 1 then s else s.(limits := s.limits[t := limit], current := s.current - {t})
    case Submit(j, t) =>
      if j in s.jobs then s
      else if t in s.current then s.(jobs := s.jobs[j := Waiting(s.current[t])])
      else
        var limit := if t in s.limits then s.limits[t] else defaultLimit;
        s.(sems := s.sems + [Sem(t, limit, limit)], current := s.current[t := |s.sems|],
            jobs := s.jobs[j := Waiting(|s.sems|)])
    case Enter(j) =>
      if j !in s.jobs || !s.jobs[j].Waiting? || s.sems[s.jobs[j].sem].value <= 0 then s
      else
        var i := s.jobs[j].sem;
        s.(sems := s.sems[i := s.sems[i].(value := s.sems[i].value - 1)], jobs := s.jobs[j := Running(i)])
    case Leave(j) =>
      if j !in s.jobs || !s.jobs[j].Running? then s
      else
        var i := s.jobs[j].sem;
        s.(sems := s.sems[i := s.sems[i].(value := s.sems[i].value + 1)], jobs := s.jobs - {j})
  }

  function After(defaultLimit: nat, moves: seq<Move>): (s: State)
    ensures WellFormed(s)
  {
    if moves == [] then Idle else Step(defaultLimit, After(defaultLimit, moves[..|moves| - 1]), moves[|moves| - 1])
  }

  /** The jobs running on semaphore i. */
  function Holders(s: State, i: nat): set<JobId> {
    set j | j in s.jobs && s.jobs[j] == Running(i)
  }

  predicate Inv(s: State) {
    forall i | 0 <= i < |s.sems| :: s.sems[i].value >= 0 && s.sems[i].value + |Holders(s, i)| == s.sems[i].limit
  }

  lemma EnterTakesOne(s: State, j: JobId, i: nat)
    requires WellFormed(s) && i < |s.sems| && j in s.jobs && s.jobs[j] == Waiting(i)
    ensures var s' := s.(jobs := s.jobs[j := Running(i)]);
            && |Holders(s', i)| == |Holders(s, i)| + 1
            && forall k: nat | k != i :: Holders(s', k) == Holders(s, k)
  {
    var s' := s.(jobs := s.jobs[j := Running(i)]);
    assert Holders(s', i) == Holders(s, i) + {j};
    forall k: nat | k != i ensures Holders(s', k) == Holders(s, k) {
    }
  }

  lemma LeaveGivesOneBack(s: State, j: JobId, i: nat)
    requires WellFormed(s) && i < |s.sems| && j in s.jobs && s.jobs[j] == Running(i)
    ensures var s' := s.(jobs := s.jobs - {j});
            && |Holders(s', i)| == |Holders(s, i)| - 1
            && forall k: nat | k != i :: Holders(s', k) == Holders(s, k)
  {
    var s' := s.(jobs := s.jobs - {j});
    assert Holders(s', i) == Holders(s, i) - {j};
    forall k: nat | k != i ensures Holders(s', k) == Holders(s, k) {
    }
  }

  lemma SubmitHoldsNothing(defaultLimit: nat, s: State, m: Move)
    requires WellFormed(s) && m.Submit?
    ensures forall k: nat :: Holders(Step(defaultLimit, s, m), k) == Holders(s, k)
    ensures Holders(s, |s.sems|) == {}
  {
    forall k: nat ensures Holders(Step(defaultLimit, s, m), k) == Holders(s, k) {
    }
  }

  lemma StepKeeps(defaultLimit: nat, s: State, m: Move)
    requires WellFormed(s) && Inv(s)
    ensures Inv(Step(defaultLimit, s, m))
  {
    var s' := Step(defaultLimit, s, m);
    if s' != s {
      match m {
        case SetLimit(_, _) =>
          assert forall k: nat :: Holders(s', k) == Holders(s, k);
        case Submit(_, _) =>
          SubmitHoldsNothing(defaultLimit, s, m);
        case Enter(j) =>
          EnterTakesOne(s, j, s.jobs[j].sem);
          assert forall k: nat :: Holders(s', k) == Holders(s.(jobs := s'.jobs), k);
        case Leave(j) =>
          LeaveGivesOneBack(s, j, s.jobs[j].sem);
          assert forall k: nat :: Holders(s', k) == Holders(s.(jobs := s'.jobs), k);
      }
    }
  }

  /** In every interleaving of submissions, finishes, failures and limit changes, each
      semaphore ever created has at most its own limit of jobs running. */
  lemma {:induction false} EachSemaphoreHolds(defaultLimit: nat, moves: seq<Move>)
    ensures Inv(After(defaultLimit, moves))
  {
    if moves != [] {
      EachSemaphoreHolds(defaultLimit, moves[..|moves| - 1]);
      StepKeeps(defaultLimit, After(defaultLimit, moves[..|moves| - 1]), moves[|moves| - 1]);
    }
  }

  // ---- A tenant's jobs over all its semaphores -------------------------------------------------

  function RunningOf(s: State, t: Tenant): set<JobId>
    requires WellFormed(s)
  {
    set j | j in s.jobs && s.jobs[j].Running? && s.sems[s.jobs[j].sem].tenant == t
  }

  /** The limits of the tenant's semaphores among the first n that some job holds. */
  function HeldLimits(s: State, t: Tenant, n: nat): nat
    requires n <= |s.sems|
  {
    if n == 0 then 0
    else HeldLimits(s, t, n - 1) + HeldLimit(s, t, n - 1)
  }

  function RunningOn(s: State, t: Tenant, n: nat): set<JobId>
    requires WellFormed(s)
  {
    set j | j in RunningOf(s, t) && s.jobs[j].sem < n
  }

  lemma RunningOnOneMore(s: State, t: Tenant, n: nat)
    requires WellFormed(s) && n < |s.sems|
    ensures RunningOn(s, t, n + 1)
            == if s.sems[n].tenant == t then RunningOn(s, t, n) + Holders(s, n) else RunningOn(s, t, n)
  {
    forall j ensures j in RunningOn(s, t, n + 1)
        <==> j in RunningOn(s, t, n) || (s.sems[n].tenant == t && j in Holders(s, n)) {
    }
  }

  lemma UnionIsSmaller(a: set<JobId>, b: set<JobId>)
    ensures |a + b| <= |a| + |b|
  {
    assert a + b == a + (b - a);
    SubsetIsSmaller(b - a, b);
  }

  /** What semaphore n adds to the tenant's bound. */
  function HeldLimit(s: State, t: Tenant, n: nat): nat
    requires n < |s.sems|
  {
    if s.sems[n].tenant == t && Holders(s, n) != {} then s.sems[n].limit else 0
  }

  lemma RunningOnGrows(s: State, t: Tenant, n: nat)
    requires WellFormed(s) && Inv(s) && n < |s.sems|
    ensures |RunningOn(s, t, n + 1)| <= |RunningOn(s, t, n)| + HeldLimit(s, t, n)
  {
    RunningOnOneMore(s, t, n);
    UnionIsSmaller(RunningOn(s, t, n), Holders(s, n));
    if Holders(s, n) == {} {
      assert |Holders(s, n)| == 0;
    }
  }

  lemma {:induction false} HeldLimitsBound(s: State, t: Tenant, n: nat)
    requires WellFormed(s) && Inv(s) && n <= |s.sems|
    ensures |RunningOn(s, t, n)| <= HeldLimits(s, t, n)
  {
    if n == 0 {
      NoneBelowZero(s, t);
    } else {
      HeldLimitsBound(s, t, n - 1);
      RunningOnGrows(s, t, n - 1);
    }
  }

  lemma NoneBelowZero(s: State, t: Tenant)
    requires WellFormed(s)
    ensures RunningOn(s, t, 0) == {}
  {
  }

  /** A tenant's running jobs are bounded by the limits of its semaphores with holders. */
  lemma TenantIsBounded(defaultLimit: nat, moves: seq<Move>, t: Tenant)
    ensures var s := After(defaultLimit, moves); |RunningOf(s, t)| <= HeldLimits(s, t, |s.sems|)
  {
    EachSemaphoreHolds(defaultLimit, moves);
    var s := After(defaultLimit, moves);
    HeldLimitsBound(s, t, |s.sems|);
    assert RunningOn(s, t, |s.sems|) == RunningOf(s, t);
  }

  // ---- A limit that is never changed -------------------------------------------------------------

  /** The tenant has at most one semaphore, at the default limit, and it is the current one. */
  predicate OneSemaphore(s: State, t: Tenant, defaultLimit: nat)
    requires WellFormed(s)
  {
    && t !in s.limits
    && forall i | 0 <= i < |s.sems| && s.sems[i].tenant == t ::
         t in s.current && s.current[t] == i && s.sems[i].limit == defaultLimit
  }

  lemma StepKeepsOneSemaphore(s: State, m: Move, t: Tenant, defaultLimit: nat)
    requires WellFormed(s) && OneSemaphore(s, t, defaultLimit) && !(m.SetLimit? && m.tenant == t)
    ensures OneSemaphore(Step(defaultLimit, s, m), t, defaultLimit)
  {
  }

  lemma {:induction false} NeverChanged(defaultLimit: nat, moves: seq<Move>, t: Tenant)
    requires forall m | m in moves :: !(m.SetLimit? && m.tenant == t)
    ensures OneSemaphore(After(defaultLimit, moves), t, defaultLimit)
  {
    if moves != [] {
      var init, last := moves[..|moves| - 1], moves[|moves| - 1];
      assert last in moves;
      assert forall m | m in init :: m in moves;
      NeverChanged(defaultLimit, init, t);
      StepKeepsOneSemaphore(After(defaultLimit, init), last, t, defaultLimit);
    }
  }

  /** If the tenant's limit was never changed, its running jobs keep within the one limit. */
  lemma FixedLimitHolds(defaultLimit: nat, moves: seq<Move>, t: Tenant)
    requires forall m | m in moves :: !(m.SetLimit? && m.tenant == t)
    ensures |RunningOf(After(defaultLimit, moves), t)| <= defaultLimit
  {
    NeverChanged(defaultLimit, moves, t);
    EachSemaphoreHolds(defaultLimit, moves);
    var s := After(defaultLimit, moves);
    if t in s.current {
      assert RunningOf(s, t) <= Holders(s, s.current[t]);
      assert Holders(s, s.current[t]) == RunningOf(s, t) + (Holders(s, s.current[t]) - RunningOf(s, t));
    } else {
      assert RunningOf(s, t) == {};
    }
  }

  // ---- Which limit a new job meets -----------------------------------------------------------

  /** The limit last set for the tenant, or else the default. */
  function LastLimit(defaultLimit: nat, moves: seq<Move>, t: Tenant): nat {
    if moves == [] then defaultLimit
    else
      match moves[|moves| - 1]
      case SetLimit(u, limit) =>
        if u == t && limit >= 1 then limit else LastLimit(defaultLimit, moves[..|moves| - 1], t)
      case _ => LastLimit(defaultLimit, moves[..|moves| - 1], t)
  }

  /** The semaphore that a new job of the tenant is given, if it has one, and the one that
      would be created for it, have this limit. */
  predicate HasLimit(s: State, t: Tenant, defaultLimit: nat, limit: nat)
    requires WellFormed(s)
  {
    && (t in s.current ==> s.sems[s.current[t]].limit == limit)
    && (if t in s.limits then s.limits[t] else defaultLimit) == limit
  }

  lemma StepMovesLimit(defaultLimit: nat, s: State, m: Move, t: Tenant, limit: nat)
    requires WellFormed(s) && HasLimit(s, t, defaultLimit, limit)
    ensures HasLimit(Step(defaultLimit, s, m), t, defaultLimit,
                     if m.SetLimit? && m.tenant == t && m.limit >= 1 then m.limit else limit)
  {
  }

  lemma {:induction false} CurrentHasLastLimit(defaultLimit: nat, moves: seq<Move>, t: Tenant)
    ensures HasLimit(After(defaultLimit, moves), t, defaultLimit, LastLimit(defaultLimit, moves, t))
  {
    if moves != [] {
      var init, last := moves[..|moves| - 1], moves[|moves| - 1];
      CurrentHasLastLimit(defaultLimit, init, t);
      StepMovesLimit(defaultLimit, After(defaultLimit, init), last, t, LastLimit(defaultLimit, init, t));
    }
  }

  /** So after a submission the tenant's current semaphore has the limit last set, and the
      job waits for it. */
  lemma SubmittedMeetsLastLimit(defaultLimit: nat, moves: seq<Move>, j: JobId, t: Tenant)
    requires j !in After(defaultLimit, moves).jobs
    ensures var s := After(defaultLimit, moves + [Submit(j, t)]);
            && t in s.current && s.sems[s.current[t]].limit == LastLimit(defaultLimit, moves, t)
            && j in s.jobs && s.jobs[j] == Waiting(s.current[t])
  {
    AfterOne(defaultLimit, moves, Submit(j, t));
    CurrentHasLastLimit(defaultLimit, moves + [Submit(j, t)], t);
    assert (moves + [Submit(j, t)])[..|moves|] == moves;
  }

  lemma AfterOne(defaultLimit: nat, moves: seq<Move>, m: Move)
    ensures After(defaultLimit, moves + [m]) == Step(defaultLimit, After(defaultLimit, moves), m)
  {
    assert (moves + [m])[..|moves|] == moves;
  }

  const Busy := State(map[], map["t" := 0], [Sem("t", 1, 0)], map[0 := Running(0)])

  lemma OneJobRuns()
    ensures After(1, [] + [Submit(0, "t")] + [Enter(0)]) == Busy
  {
    AfterOne(1, [], Submit(0, "t"));
    AfterOne(1, [] + [Submit(0, "t")], Enter(0));
    assert Step(1, Idle, Submit(0, "t")) == State(map[], map["t" := 0], [Sem("t", 1, 1)], map[0 := Waiting(0)]);
  }

  lemma AnotherIsLetIn()
    ensures var s := Step(1, Step(1, Step(1, Busy, SetLimit("t", 1)), Submit(1, "t")), Enter(1));
            s.sems == [Sem("t", 1, 0), Sem("t", 1, 0)] && s.jobs == map[0 := Running(0), 1 := Running(1)]
  {
    var s1 := Step(1, Busy, SetLimit("t", 1));
    assert s1 == State(map["t" := 1], map[], [Sem("t", 1, 0)], map[0 := Running(0)]);
    var s2 := Step(1, s1, Submit(1, "t"));
    assert s2.sems == [Sem("t", 1, 0), Sem("t", 1, 1)] && s2.jobs == map[0 := Running(0), 1 := Waiting(1)];
  }

  const OneChange := [] + [Submit(0, "t")] + [Enter(0)] + [SetLimit("t", 1)] + [Submit(1, "t")] + [Enter(1)]

  /** The sum is needed: a limit of 1 that is set again to 1 while a job runs lets two run. */
  lemma ChangeAddsUp()
    ensures var s := After(1, OneChange);
            0 in RunningOf(s, "t") && 1 in RunningOf(s, "t") && HeldLimits(s, "t", |s.sems|) == 2
  {
    OneJobRuns();
    AnotherIsLetIn();
    var first := [] + [Submit(0, "t")] + [Enter(0)];
    AfterOne(1, first, SetLimit("t", 1));
    AfterOne(1, first + [SetLimit("t", 1)], Submit(1, "t"));
    AfterOne(1, first + [SetLimit("t", 1)] + [Submit(1, "t")], Enter(1));
    var s := After(1, OneChange);
    assert 0 in Holders(s, 0) && 1 in Holders(s, 1);
    assert HeldLimits(s, "t", 1) == 1;
  }
}
