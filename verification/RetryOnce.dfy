/** Any number of requests to retry the same dead letter: what the rows count once, and
    how many runs are scheduled. */
module RetryOnce {
  import opened Wrappers
  import opened Documents
  import opened Protocol

  predicate Retrier(pc: Pc, i: nat) {
    pc.Done? || (pc.RetryRead? && pc.i == i) || (pc.RetryReadDoc? && pc.i == i) || (pc.RetryCommit? && pc.i == i)
  }

  /** A document with a dead letter that may be retried. */
  predicate Retryable(c: Cell, i: nat) {
    c.row.Some? && i < |c.dlq| && c.dlq[i].status == DlqPending
  }

  /** One request with the document to itself, from request to response. */
  function Retried(c: Cell, i: nat): Cell {
    Interleave(Local(c, [RetryRead(i)]), [0, 0, 0]).c
  }

  lemma RetriedAtOnce(c: Cell, i: nat)
    requires Retryable(c, i)
    ensures Retried(c, i) == c.(row := if c.row.value.status == Pending then c.row
                                       else Some(c.row.value.(status := Pending, version := c.row.value.version + 1)),
                                dlq := c.dlq[i := c.dlq[i].(status := DlqRetrying,
                                    retryCount := c.dlq[i].retryCount + 1)])
  {
    var l := Local(c, [RetryRead(i)]);
    assert Interleave(l, [0, 0, 0]) == Turn(Turn(Turn(l, 0), 0), 0) by {
      assert [0, 0, 0][1..] == [0, 0] && [0, 0][1..] == [0] && [0][1..] == [];
    }
  }

  // ---- The rows -------------------------------------------------------------------------

  /** Where requests stand while the first of them has not committed, and afterwards. */
  predicate ReaderOk(first: Cell, now: Cell, pc: Pc, i: nat)
    requires i < |first.dlq|
  {
    match pc
    case RetryReadDoc(_, entry) => entry == first.dlq[i]
    case RetryCommit(_, entry, doc) => entry == first.dlq[i] && doc in {first.row, now.row}
    case _ => true
  }

  predicate RetriersInv(first: Cell, l: Local, i: nat) {
    && Retryable(first, i)
    && l.c in {first, Retried(first, i)}
    && forall pc | pc in l.pcs :: Retrier(pc, i) && ReaderOk(first, l.c, pc, i)
  }

  predicate Commits(l: Local, a: nat) {
    a < |l.pcs| && l.pcs[a].RetryCommit? && CommitRetry(l.c, l.pcs[a].i, l.pcs[a].entry, l.pcs[a].doc).Some?
  }

  /** Before the first commit every commit succeeds; after it, exactly those that read
      the document as the first commit left it. */
  lemma SecondCommitsExactlyWhenLate(first: Cell, l: Local, a: nat, i: nat)
    requires RetriersInv(first, l, i) && a < |l.pcs| && l.pcs[a].RetryCommit?
    ensures Commits(l, a) <==> l.c == first || l.pcs[a].doc == Retried(first, i).row
    ensures Turn(l, a).c == if Commits(l, a) then Retried(first, i) else l.c
  {
    RetriedAtOnce(first, i);
    assert l.pcs[a] in l.pcs;
    assert Retried(first, i).dlq[i := first.dlq[i].(status := DlqRetrying, retryCount := first.dlq[i].retryCount + 1)]
           == Retried(first, i).dlq;
  }

  lemma TurnKeeps(first: Cell, l: Local, a: nat, i: nat)
    requires RetriersInv(first, l, i)
    ensures RetriersInv(first, Turn(l, a), i)
  {
    RetriedAtOnce(first, i);
    if a < |l.pcs| {
      var l' := Turn(l, a);
      assert l.pcs[a] in l.pcs;
      if l.pcs[a].RetryCommit? {
        SecondCommitsExactlyWhenLate(first, l, a, i);
      }
      forall pc | pc in l'.pcs ensures Retrier(pc, i) && ReaderOk(first, l'.c, pc, i) {
        assert pc == Advance(l.c, l.pcs[a]).1 || pc in l.pcs;
      }
    }
  }

  /** However requests to retry one dead letter interleave, the rows end as they were or
      as a single request leaves them: the retry is counted once. */
  lemma {:induction false} RetriesCountOnce(first: Cell, l: Local, turns: seq<nat>, i: nat)
    requires RetriersInv(first, l, i)
    ensures RetriersInv(first, Interleave(l, turns), i)
    ensures Interleave(l, turns).c in {first, Retried(first, i)}
    decreases |turns|
  {
    if turns != [] {
      TurnKeeps(first, l, turns[0], i);
      RetriesCountOnce(first, Turn(l, turns[0]), turns[1..], i);
    }
  }

  // ---- The runs ----------------------------------------------------------------------------

  /** A request finds the entry pending and goes on. */
  predicate PassesCheck(l: Local, a: nat) {
    a < |l.pcs| && l.pcs[a].RetryRead? && Turn(l, a).pcs[a].RetryReadDoc?
  }

  /** A request that has read its document sets its fields and schedules its run without
      another await; whether its transaction then commits is not looked at. */
  predicate Schedules(l: Local, a: nat) {
    a < |l.pcs| && l.pcs[a].RetryReadDoc?
  }

  function ChecksPassed(l: Local, turns: seq<nat>): nat
    decreases |turns|
  {
    if turns == [] then 0
    else (if PassesCheck(l, turns[0]) then 1 else 0) + ChecksPassed(Turn(l, turns[0]), turns[1..])
  }

  function RunsScheduled(l: Local, turns: seq<nat>): nat
    decreases |turns|
  {
    if turns == [] then 0
    else (if Schedules(l, turns[0]) then 1 else 0) + RunsScheduled(Turn(l, turns[0]), turns[1..])
  }

  /** Requests between their check and their document. */
  function Waiting(pcs: seq<Pc>): nat {
    if pcs == [] then 0 else Waiting(pcs[..|pcs| - 1]) + if pcs[|pcs| - 1].RetryReadDoc? then 1 else 0
  }

  lemma {:induction false} WaitingAfter(pcs: seq<Pc>, a: nat, pc: Pc)
    requires a < |pcs|
    ensures Waiting(pcs[a := pc]) + (if pcs[a].RetryReadDoc? then 1 else 0)
            == Waiting(pcs) + if pc.RetryReadDoc? then 1 else 0
  {
    var n := |pcs| - 1;
    if a == n {
      assert pcs[a := pc][..n] == pcs[..n];
    } else {
      assert pcs[a := pc][..n] == pcs[..n][a := pc];
      WaitingAfter(pcs[..n], a, pc);
    }
  }

  /** Every request that passes the check schedules a run as soon as it has its document,
      whatever else the actors of the interleaving do: none is lost, none is refused. */
  lemma {:induction false} EveryCheckPassedIsARun(l: Local, turns: seq<nat>)
    ensures RunsScheduled(l, turns) + Waiting(Interleave(l, turns).pcs) == Waiting(l.pcs) + ChecksPassed(l, turns)
    decreases |turns|
  {
    if turns != [] {
      var a := turns[0];
      if a < |l.pcs| {
        WaitingAfter(l.pcs, a, Advance(l.c, l.pcs[a]).1);
      }
      EveryCheckPassedIsARun(Turn(l, a), turns[1..]);
    }
  }

  /** The check lets requests through until the first of them commits, and none after. */
  lemma ChecksPassUntilFirstCommit(first: Cell, l: Local, a: nat, i: nat)
    requires RetriersInv(first, l, i) && a < |l.pcs| && l.pcs[a].RetryRead?
    ensures PassesCheck(l, a) <==> l.c == first
  {
    RetriedAtOnce(first, i);
    assert l.pcs[a] in l.pcs;
  }

  /** The requests that read the entry before any request has committed. */
  function EarlyReads(first: Cell, l: Local, turns: seq<nat>): nat
    decreases |turns|
  {
    if turns == [] then 0
    else
      (if turns[0] < |l.pcs| && l.pcs[turns[0]].RetryRead? && l.c == first then 1 else 0)
      + EarlyReads(first, Turn(l, turns[0]), turns[1..])
  }

  lemma {:induction false} ChecksPassedAreEarlyReads(first: Cell, l: Local, turns: seq<nat>, i: nat)
    requires RetriersInv(first, l, i)
    ensures ChecksPassed(l, turns) == EarlyReads(first, l, turns)
    decreases |turns|
  {
    if turns != [] {
      var a := turns[0];
      if a < |l.pcs| && l.pcs[a].RetryRead? {
        ChecksPassUntilFirstCommit(first, l, a, i);
      }
      TurnKeeps(first, l, a, i);
      ChecksPassedAreEarlyReads(first, Turn(l, a), turns[1..], i);
    }
  }

  /** Fresh requests for one entry, run until none waits for its document: they schedule
      exactly as many runs as of them read the entry before the first one committed. So
      at most one run if and only if at most one such request. */
  lemma RunsAreEarlyReads(first: Cell, requests: nat, turns: seq<nat>, i: nat)
    requires Retryable(first, i)
    requires Waiting(Interleave(Local(first, seq(requests, _ => RetryRead(i))), turns).pcs) == 0
    ensures var l := Local(first, seq(requests, _ => RetryRead(i)));
            RunsScheduled(l, turns) == EarlyReads(first, l, turns)
  {
    var l := Local(first, seq(requests, _ => RetryRead(i)));
    EveryCheckPassedIsARun(l, turns);
    ChecksPassedAreEarlyReads(first, l, turns, i);
    NoneWaits(requests, i);
  }

  lemma {:induction false} NoneWaits(requests: nat, i: nat)
    ensures Waiting(seq(requests, _ => RetryRead(i))) == 0
  {
    if requests > 0 {
      var pcs := seq(requests, _ => RetryRead(i));
      assert pcs[..requests - 1] == seq(requests - 1, _ => RetryRead(i));
      NoneWaits(requests - 1, i);
    }
  }

  // ---- The commits -------------------------------------------------------------------------

  /** How many requests commit. */
  function Committed(l: Local, turns: seq<nat>): nat
    decreases |turns|
  {
    if turns == [] then 0 else (if Commits(l, turns[0]) then 1 else 0) + Committed(Turn(l, turns[0]), turns[1..])
  }

  /** A request whose entry was read while it could be retried, reading its document
      after another request has committed. */
  predicate ReadsLate(l: Local, a: nat) {
    && a < |l.pcs| && l.pcs[a].RetryReadDoc?
    && l.pcs[a].i < |l.c.dlq| && l.c.dlq[l.pcs[a].i].status != DlqPending
  }

  predicate NoLateRead(l: Local, turns: seq<nat>)
    decreases |turns|
  {
    turns != [] ==> !ReadsLate(l, turns[0]) && NoLateRead(Turn(l, turns[0]), turns[1..])
  }

  /** No request has read the document late. */
  predicate Punctual(first: Cell, l: Local, i: nat)
    requires Retryable(first, i)
  {
    forall pc | pc in l.pcs && pc.RetryCommit? :: pc.doc == first.row
  }

  lemma TurnKeepsPunctual(first: Cell, l: Local, a: nat, i: nat)
    requires RetriersInv(first, l, i) && Punctual(first, l, i) && !ReadsLate(l, a)
    ensures Punctual(first, Turn(l, a), i)
  {
    RetriedAtOnce(first, i);
    if a < |l.pcs| {
      assert l.pcs[a] in l.pcs;
      forall pc | pc in Turn(l, a).pcs && pc.RetryCommit? ensures pc.doc == first.row {
        assert pc == Advance(l.c, l.pcs[a]).1 || pc in l.pcs;
      }
    }
  }

  /** If no request reads late, and the document was not pending to begin with, at most
      one request commits; the others are refused, though their runs are scheduled. */
  lemma {:induction false} OneCommitWithoutLateReads(first: Cell, l: Local, turns: seq<nat>, i: nat)
    requires RetriersInv(first, l, i) && first.row.value.status != Pending
    requires Punctual(first, l, i) && NoLateRead(l, turns)
    ensures Committed(l, turns) <= if l.c == first then 1 else 0
    decreases |turns|
  {
    if turns != [] {
      var a := turns[0];
      RetriedAtOnce(first, i);
      TurnKeeps(first, l, a, i);
      TurnKeepsPunctual(first, l, a, i);
      if a < |l.pcs| && l.pcs[a].RetryCommit? {
        assert l.pcs[a] in l.pcs;
        SecondCommitsExactlyWhenLate(first, l, a, i);
      }
      assert Turn(l, a).c == first ==> l.c == first && !Commits(l, a);
      OneCommitWithoutLateReads(first, Turn(l, a), turns[1..], i);
    }
  }

  /** A commit after the first one, by a request that read the document as that one left it. */
  predicate CommitsLate(first: Cell, l: Local, a: nat, i: nat) {
    a < |l.pcs| && l.pcs[a].RetryCommit? && l.c != first && l.pcs[a].doc == Retried(first, i).row
  }

  predicate NoLateCommit(first: Cell, l: Local, turns: seq<nat>, i: nat)
    decreases |turns|
  {
    turns != [] ==> !CommitsLate(first, l, turns[0], i) && NoLateCommit(first, Turn(l, turns[0]), turns[1..], i)
  }

  /** At most one request commits, if and only if none of them commits late. */
  lemma {:induction false} OneCommitExactlyWhen(first: Cell, l: Local, turns: seq<nat>, i: nat)
    requires RetriersInv(first, l, i)
    ensures Committed(l, turns) <= (if l.c == first then 1 else 0) <==> NoLateCommit(first, l, turns, i)
    decreases |turns|
  {
    if turns != [] {
      var a := turns[0];
      RetriedAtOnce(first, i);
      TurnKeeps(first, l, a, i);
      OneCommitExactlyWhen(first, Turn(l, a), turns[1..], i);
      if a < |l.pcs| && l.pcs[a].RetryCommit? {
        SecondCommitsExactlyWhenLate(first, l, a, i);
      } else {
        OnlyCommitsChange(l, a, i);
      }
    }
  }

  lemma OnlyCommitsChange(l: Local, a: nat, i: nat)
    requires (a < |l.pcs| ==> Retrier(l.pcs[a], i) && !l.pcs[a].RetryCommit?)
    ensures Turn(l, a).c == l.c
  {
  }

  // ---- Two requests that overlap --------------------------------------------------------------

  /** Both requests have read the entry and then the document. */
  function BothRead(first: Cell, i: nat): Local
    requires Retryable(first, i)
  {
    Local(first, [RetryCommit(i, first.dlq[i], first.row), RetryCommit(i, first.dlq[i], first.row)])
  }

  lemma BothReach(first: Cell, i: nat)
    requires Retryable(first, i)
    ensures var l := Local(first, [RetryRead(i), RetryRead(i)]);
            Interleave(l, [0, 1, 0, 1]) == BothRead(first, i) && RunsScheduled(l, [0, 1, 0, 1]) == 2
  {
    var l := Local(first, [RetryRead(i), RetryRead(i)]);
    var entry := first.dlq[i];
    var l1, l2 := Local(first, [RetryReadDoc(i, entry), RetryRead(i)]),
        Local(first, [RetryReadDoc(i, entry), RetryReadDoc(i, entry)]);
    var l3 := Local(first, [RetryCommit(i, entry, first.row), RetryReadDoc(i, entry)]);
    assert Turn(l, 0) == l1 && Turn(l1, 1) == l2 && Turn(l2, 0) == l3 && Turn(l3, 1) == BothRead(first, i);
    assert [0, 1, 0, 1][1..] == [1, 0, 1] && [1, 0, 1][1..] == [0, 1] && [0, 1][1..] == [1] && [1][1..] == [];
    assert Interleave(l3, [1]) == BothRead(first, i) && RunsScheduled(l3, [1]) == 1;
    assert Interleave(l2, [0, 1]) == BothRead(first, i) && RunsScheduled(l2, [0, 1]) == 2;
    assert Interleave(l1, [1, 0, 1]) == BothRead(first, i) && RunsScheduled(l1, [1, 0, 1]) == 2;
  }

  /** Two requests for one entry of a document that is not pending, in step: both
      schedule a run, one commits, and the other is refused. */
  lemma RefusedRetryStillRuns(first: Cell, i: nat)
    requires Retryable(first, i) && first.row.value.status != Pending
    ensures RunsScheduled(Local(first, [RetryRead(i), RetryRead(i)]), [0, 1, 0, 1]) == 2
    ensures Committed(BothRead(first, i), [0, 1]) == 1
  {
    BothReach(first, i);
    OneOfBothCommits(first, i);
  }

  lemma OneOfBothCommits(first: Cell, i: nat)
    requires Retryable(first, i) && first.row.value.status != Pending
    ensures Committed(BothRead(first, i), [0, 1]) == 1
  {
    var l := BothRead(first, i);
    var l1 := Turn(l, 0);
    SecondCommitsExactlyWhenLate(first, l, 0, i);
    assert l1 == Local(Retried(first, i), [Done, RetryCommit(i, first.dlq[i], first.row)]);
    SecondIsRefused(first, l1, i);
    assert [0, 1][1..] == [1] && [1][1..] == [];
    assert Committed(l1, [1]) == 0;
  }

  lemma SecondIsRefused(first: Cell, l: Local, i: nat)
    requires Retryable(first, i) && first.row.value.status != Pending
    requires l == Local(Retried(first, i), [Done, RetryCommit(i, first.dlq[i], first.row)])
    ensures !Commits(l, 1)
  {
    RetriedAtOnce(first, i);
  }

  /** The second request has read the entry; the first has committed. */
  function HalfWay(first: Cell, i: nat): Local
    requires Retryable(first, i)
  {
    Local(Retried(first, i), [RetryReadDoc(i, first.dlq[i]), Done])
  }

  /** A request that reads its document after another has committed commits as well. */
  lemma LateReadCommitsAgain(first: Cell, i: nat)
    requires Retryable(first, i)
    ensures Committed(HalfWay(first, i), [0, 0]) == 1
  {
    RetriedAtOnce(first, i);
    var l := Turn(HalfWay(first, i), 0);
    assert l.pcs == [RetryCommit(i, first.dlq[i], Retried(first, i).row), Done];
    SecondCommitsExactlyWhenLate(first, l, 0, i);
    assert [0, 0][1..] == [0] && [0][1..] == [];
    assert Committed(l, [0]) == 1;
  }

  // ---- A failure that is retried twice at once -------------------------------------------------

  const Failing := Outcome(Rejected, Some(LOW), None, [], None, Some("LOW_CONFIDENCE"))

  const FailedOnce := EmptyCell.(
    born := true, blob := true,
    row := Some(DocRow(3, Rejected, Some(LOW), None, Some("k"))),
    dlq := [DeadLetter("LOW_CONFIDENCE", DlqPending, 0)],
    audit := [PipelineFinished(Rejected)])

  lemma FailureIsReached()
    ensures exists steps :: CellOf(Execute(Init, steps), 0) == FailedOnce
  {
    var cast := [IngestSave("k")] + [RunLoad(Failing)];
    var turns := [0, 0] + [1, 1, 1, 1];
    Uploads([RunLoad(Failing)]);
    FailingRun();
    InterleaveConcat(Local(EmptyCell, cast), [0, 0], [1, 1, 1, 1]);
    InterleavingsAreRuns(cast, turns);
    assert CellOf(Execute(Init, Spawns(cast) + Moves(turns)), 0) == FailedOnce;
  }

  lemma FailingRun()
    ensures Interleave(Local(UploadedCell, [Done] + [RunLoad(Failing)]), [1, 1, 1, 1]).c == FailedOnce
  {
  }

  /** A document that a run of the system reaches, and two requests in step to retry it: two
      runs are scheduled, and one of the requests is refused. */
  lemma ReachedFailureRunsTwice()
    ensures exists steps :: CellOf(Execute(Init, steps), 0) == FailedOnce
    ensures RunsScheduled(Local(FailedOnce, [RetryRead(0), RetryRead(0)]), [0, 1, 0, 1]) == 2
    ensures Interleave(Local(FailedOnce, [RetryRead(0), RetryRead(0)]), [0, 1, 0, 1]) == BothRead(FailedOnce, 0)
    ensures Committed(BothRead(FailedOnce, 0), [0, 1]) == 1
  {
    FailureIsReached();
    BothReach(FailedOnce, 0);
    RefusedRetryStillRuns(FailedOnce, 0);
  }
}
