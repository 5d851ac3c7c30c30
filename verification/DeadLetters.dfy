/** What any number of actors of any kind leave of a document's dead letters. */
module DeadLetters {
  import opened Wrappers
  import opened Documents
  import opened Protocol
  import opened Invariant

  /** A dead letter never retried, or retried once. */
  predicate CountedOnce(e: DeadLetter) {
    (e.status == DlqPending && e.retryCount == 0) || (e.status == DlqRetrying && e.retryCount == 1)
  }

  /** An entry that a request read while it could be retried. */
  predicate Held(c: Cell, i: nat, e: DeadLetter) {
    && e.status == DlqPending && e.retryCount == 0
    && (c.row.Some? ==> i < |c.dlq| && c.dlq[i].reason == e.reason)
  }

  predicate CellCounted(c: Cell) {
    forall e | e in c.dlq :: CountedOnce(e)
  }

  predicate PcCounted(c: Cell, pc: Pc) {
    match pc
    case RetryReadDoc(i, e) => Held(c, i, e)
    case RetryCommit(i, e, _) => Held(c, i, e)
    case _ => true
  }

  /** Entries keep their places and reasons, and a retried one stays as it is, while the
      document is there. */
  predicate EntriesStay(c: Cell, c': Cell) {
    c'.row.Some? ==>
      && |c.dlq| <= |c'.dlq|
      && forall i | 0 <= i < |c.dlq| ::
           c'.dlq[i].reason == c.dlq[i].reason && (c.dlq[i].status == DlqRetrying ==> c'.dlq[i] == c.dlq[i])
  }

  lemma RetryCommitCounts(c: Cell, pc: Pc)
    requires CellCounted(c) && PcCounted(c, pc) && pc.RetryCommit?
    ensures CellCounted(Advance(c, pc).0) && EntriesStay(c, Advance(c, pc).0)
  {
    var r := CommitRetry(c, pc.i, pc.entry, pc.doc);
    if r.Some? {
      forall e | e in r.value.dlq ensures CountedOnce(e) {
        assert e in c.dlq || e == r.value.dlq[pc.i];
      }
      assert pc.i < |c.dlq| && c.dlq[pc.i] in c.dlq;
    }
  }

  lemma AdvanceCounts(c: Cell, pc: Pc)
    requires CellInv(c) && ActorInv(c, pc) && CellCounted(c) && PcCounted(c, pc)
    ensures var (c', pc') := Advance(c, pc); CellCounted(c') && PcCounted(c', pc') && EntriesStay(c, c')
  {
    if pc.RetryCommit? {
      RetryCommitCounts(c, pc);
    } else if pc.RetryRead? && pc.i < |c.dlq| {
      assert c.dlq[pc.i] in c.dlq;
    }
  }

  lemma HeldStays(c: Cell, c': Cell, pc: Pc)
    requires Evolves(c, c') && ActorInv(c, pc) && PcCounted(c, pc) && EntriesStay(c, c')
    ensures PcCounted(c', pc)
  {
  }

  ghost predicate CountInv(s: System) {
    && Inv(s)
    && (forall d | d in s.cells :: CellCounted(s.cells[d]))
    && (forall a | a in s.actors :: PcCounted(CellOf(s, s.actors[a].doc), s.actors[a].pc))
  }

  lemma MoveKeepsCounts(s: System, m: ActorId)
    requires CountInv(s) && m in s.actors
    ensures CountInv(Apply(s, Move(m)))
    ensures EntriesStay(CellOf(s, s.actors[m].doc), CellOf(Apply(s, Move(m)), s.actors[m].doc))
  {
    MoveKeeps(s, m);
    var d := s.actors[m].doc;
    var c, s' := CellOf(s, d), Apply(s, Move(m));
    assert CellInv(c) && ActorInv(c, s.actors[m].pc) && CellCounted(c) && PcCounted(c, s.actors[m].pc);
    AdvanceCounts(c, s.actors[m].pc);
    forall b | b in s'.actors
      ensures PcCounted(CellOf(s', s'.actors[b].doc), s'.actors[b].pc)
    {
      if b != m && s.actors[b].doc == d {
        HeldStays(c, CellOf(s', d), s.actors[b].pc);
      }
    }
  }

  lemma SpawnKeepsCounts(s: System, a: ActorId, d: DocId, pc: Pc)
    requires CountInv(s)
    ensures CountInv(Apply(s, Spawn(a, d, pc)))
  {
    SpawnKeeps(s, a, d, pc);
    var s' := Apply(s, Spawn(a, d, pc));
    forall e | e in s'.cells ensures CellCounted(s'.cells[e]) {
      assert CellOf(s', e) == CellOf(s, e);
    }
    forall b | b in s'.actors ensures PcCounted(CellOf(s', s'.actors[b].doc), s'.actors[b].pc) {
      assert b in s.actors ==> s'.actors[b] == s.actors[b];
    }
  }

  lemma ApplyKeepsCounts(s: System, step: Step)
    requires CountInv(s)
    ensures CountInv(Apply(s, step))
    ensures forall d :: EntriesStay(CellOf(s, d), CellOf(Apply(s, step), d))
  {
    match step
    case Spawn(a, d, pc) =>
      SpawnKeepsCounts(s, a, d, pc);
      SpawnKeeps(s, a, d, pc);
    case Restart => RestartKeeps(s);
    case Move(a) =>
      if a in s.actors {
        MoveKeepsCounts(s, a);
      }
  }

  lemma EntriesStayOnward(c0: Cell, c1: Cell, c2: Cell)
    requires CellInv(c0) && Evolves(c0, c1) && Evolves(c1, c2) && EntriesStay(c0, c1) && EntriesStay(c1, c2)
    ensures EntriesStay(c0, c2)
  {
  }

  lemma {:induction false} ExecuteKeepsCounts(s: System, steps: seq<Step>, d: DocId)
    requires CountInv(s)
    ensures CountInv(Execute(s, steps))
    ensures EntriesStay(CellOf(s, d), CellOf(Execute(s, steps), d))
    decreases |steps|
  {
    if steps != [] {
      var s1 := Apply(s, steps[0]);
      ApplyKeepsCounts(s, steps[0]);
      ApplyKeeps(s, steps[0]);
      ExecuteKeepsCounts(s1, steps[1..], d);
      ExecuteKeeps(s1, steps[1..]);
      EntriesStayOnward(CellOf(s, d), CellOf(s1, d), CellOf(Execute(s, steps), d));
    }
  }

  /** In every state that a run of the whole system reaches, each dead letter has never been
      retried, or has been retried once, whatever runs, reviews, deliveries, erasures and
      other retries have been doing. */
  lemma DeadLettersCountOnce(steps: seq<Step>, d: DocId)
    ensures forall e | e in CellOf(Execute(Init, steps), d).dlq :: CountedOnce(e)
  {
    ExecuteKeepsCounts(Init, steps, d);
  }

  /** And one that has been retried stays so for as long as its document is there, so that
      no later request passes the status check. */
  lemma RetriedForGood(before: seq<Step>, after: seq<Step>, d: DocId, i: nat)
    requires var c := CellOf(Execute(Init, before), d); i < |c.dlq| && c.dlq[i].status == DlqRetrying
    ensures var c, c' := CellOf(Execute(Init, before), d), CellOf(Execute(Execute(Init, before), after), d);
            && (c'.row.Some? ==> i < |c'.dlq| && c'.dlq[i] == c.dlq[i])
            && Advance(c', RetryRead(i)) == (c', Done)
  {
    ExecuteKeepsCounts(Init, before, d);
    var s := Execute(Init, before);
    ExecuteKeepsCounts(s, after, d);
    RetriedIsRefused(CellOf(s, d), CellOf(Execute(s, after), d), i);
  }

  lemma RetriedIsRefused(c: Cell, c': Cell, i: nat)
    requires i < |c.dlq| && c.dlq[i].status == DlqRetrying && EntriesStay(c, c') && CellInv(c')
    ensures c'.row.Some? ==> i < |c'.dlq| && c'.dlq[i] == c.dlq[i]
    ensures Advance(c', RetryRead(i)) == (c', Done)
  {
  }
}
