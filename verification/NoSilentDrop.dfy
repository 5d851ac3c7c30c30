/** No document disappears from view: what a delivered, queued or rejected
    document is sure to have beside it. */
module NoSilentDrop {
  import opened Wrappers
  import opened Documents
  import opened Protocol
  import opened Invariant

  /** In every reachable state a completed document has its extraction, and a
      document in review has its extraction and an open review task. */
  lemma DeliveredAndQueuedAreBacked(steps: seq<Step>, d: DocId)
    ensures var c := CellOf(Execute(Init, steps), d);
            && (c.row.Some? && c.row.value.status == Completed ==> c.extraction.Some?)
            && (c.row.Some? && c.row.value.status == InReview ==>
                  c.extraction.Some? && c.review.Some? && Open(c.review.value.status))
  {
    ExecuteKeeps(Init, steps);
  }

  // ---- Rejected documents ---------------------------------------------------------

  predicate RejectionIsBacked(c: Cell) {
    c.row.Some? && c.row.value.status == Rejected ==>
      c.dlq != [] || (c.review.Some? && c.review.value.status == Declined)
  }

  /** A review commit after which a rejected document has neither a dead letter nor a
      declined review task, in terms of what the request read and of the rows now. Either
      it repeats a rejection, unchecked, while the review task now says otherwise and the
      document, current as read, was not rejected; or it turns a current decision into
      another one, and takes a document that it read as completed, and that has since been
      rejected, for done. */
  predicate LosesBacking(c: Cell, pc: Pc) {
    && pc.ReviewCommit? && c.row.Some? && c.review.Some? && pc.doc.Some? && c.dlq == []
    && if pc.a.Reject? then
         && Decide(pc.rv, pc.a) == pc.rv && c.review.value.status != Declined
         && pc.doc.value.status != Rejected && pc.doc.value.version == c.row.value.version
       else
         && Decide(pc.rv, pc.a) != pc.rv && c.review.value.version == pc.rv.version
         && pc.doc.value.status == Completed && c.row.value.status == Rejected
  }

  lemma LostExactlyWhen(c: Cell, pc: Pc)
    requires CellInv(c) && ActorInv(c, pc) && pc.ReviewCommit? && RejectionIsBacked(c)
    ensures RejectionIsBacked(Advance(c, pc).0) <==> !LosesBacking(c, pc)
  {
    if c.review.Some? && c.review.value.version == pc.rv.version {
      assert c.review.value == pc.rv;
    }
  }

  lemma OthersKeepBacking(c: Cell, pc: Pc)
    requires CellInv(c) && ActorInv(c, pc) && !pc.ReviewCommit? && RejectionIsBacked(c)
    ensures RejectionIsBacked(Advance(c, pc).0)
  {
  }

  predicate Backed(s: System) {
    forall d | d in s.cells :: RejectionIsBacked(s.cells[d])
  }

  /** Backed now and after each of the steps. */
  predicate AlwaysBacked(s: System, steps: seq<Step>)
    decreases |steps|
  {
    Backed(s) && (steps != [] ==> AlwaysBacked(Apply(s, steps[0]), steps[1..]))
  }

  predicate Loses(s: System, step: Step) {
    step.Move? && step.actor in s.actors
    && LosesBacking(CellOf(s, s.actors[step.actor].doc), s.actors[step.actor].pc)
  }

  predicate NeverLoses(s: System, steps: seq<Step>)
    decreases |steps|
  {
    steps != [] ==> !Loses(s, steps[0]) && NeverLoses(Apply(s, steps[0]), steps[1..])
  }

  lemma StepLosesExactlyWhen(s: System, step: Step)
    requires Inv(s) && Backed(s)
    ensures Backed(Apply(s, step)) <==> !Loses(s, step)
  {
    if step.Move? && step.actor in s.actors {
      var actor := s.actors[step.actor];
      var c := CellOf(s, actor.doc);
      assert CellInv(c) && ActorInv(c, actor.pc) && RejectionIsBacked(c);
      if actor.pc.ReviewCommit? {
        LostExactlyWhen(c, actor.pc);
      } else {
        OthersKeepBacking(c, actor.pc);
      }
      assert Apply(s, step).cells[actor.doc] == Advance(c, actor.pc).0;
    }
  }

  lemma {:induction false} BackedExactlyWhen(s: System, steps: seq<Step>)
    requires Inv(s) && Backed(s)
    ensures AlwaysBacked(s, steps) <==> NeverLoses(s, steps)
    decreases |steps|
  {
    if steps != [] {
      var s1 := Apply(s, steps[0]);
      StepLosesExactlyWhen(s, steps[0]);
      ApplyKeeps(s, steps[0]);
      if Backed(s1) {
        BackedExactlyWhen(s1, steps[1..]);
      }
    }
  }

  /** Over every run of the system, every rejected document has a dead letter or a
      declined review task at all times if and only if no review commit of the run is a
      losing one. */
  lemma RejectedAreBackedExactlyWhen(steps: seq<Step>)
    ensures AlwaysBacked(Init, steps) <==> NeverLoses(Init, steps)
  {
    BackedExactlyWhen(Init, steps);
  }

  // ---- Stale re-decisions -----------------------------------------------------------

  predicate SameButAudit(c: Cell, c': Cell) {
    c'.(audit := c.audit) == c
  }

  /** A review commit that repeats the decision it read, so that its review row is
      not version-checked, at a moment when that row has moved on, and that still
      changes the document or the extraction. */
  predicate StaleRedecision(c: Cell, pc: Pc) {
    && pc.ReviewCommit? && c.review.Some?
    && c.review.value.version != pc.rv.version
    && !SameButAudit(c, Advance(c, pc).0)
  }

  predicate RedecidesStale(s: System, step: Step) {
    step.Move? && step.actor in s.actors
    && StaleRedecision(CellOf(s, s.actors[step.actor].doc), s.actors[step.actor].pc)
  }

  predicate NoStaleRedecision(s: System, steps: seq<Step>)
    decreases |steps|
  {
    steps != [] ==> !RedecidesStale(s, steps[0]) && NoStaleRedecision(Apply(s, steps[0]), steps[1..])
  }

  /** Staleness in terms of what the request read and of the versions now: the decision
      repeats the one read, the review task has moved on, and the document read still has another
      status (and is current), or the corrections still change something. */
  lemma StaleExactlyWhen(c: Cell, pc: Pc)
    requires CellInv(c) && ActorInv(c, pc) && pc.ReviewCommit? && c.review.Some?
    ensures StaleRedecision(c, pc) <==>
              && c.review.value.version != pc.rv.version
              && Decide(pc.rv, pc.a) == pc.rv
              && (if pc.doc.value.status != DecidedStatus(pc.a) then pc.doc.value.version == c.row.value.version
                  else CorrectedExtraction(pc.ext, pc.a) !in {pc.ext, c.extraction})
  {
    var c' := Advance(c, pc).0;
    if pc.doc.value.status != DecidedStatus(pc.a) && pc.doc.value.version == c.row.value.version {
      assert c.row.value == pc.doc.value;
    }
    if StaleRedecision(c, pc) && pc.doc.value.status == DecidedStatus(pc.a) {
      assert c'.row == c.row && c'.review == c.review;
    }
  }

  predicate Agree(status: Status, review: ReviewStatus) {
    && (status == Completed ==> review in {Accepted, Corrected})
    && (status == Rejected ==> review == Declined)
  }

  /** Until a document has had a dead letter, its status and its review agree. */
  ghost predicate InStep(c: Cell) {
    c.dlq == [] && c.row.Some? ==>
      && (c.review.Some? ==> Agree(c.row.value.status, c.review.value.status))
      && (c.review.None? ==> c.row.value.status != Rejected)
  }

  ghost predicate ReaderInStep(c: Cell, pc: Pc) {
    pc.ReviewCommit? && c.dlq == [] && c.row.Some? && c.review.Some? && pc.doc.Some?
    && c.review.value.version == pc.rv.version ==>
      Agree(pc.doc.value.status, pc.rv.status)
  }

  lemma ReviewKeepsInStep(c: Cell, pc: Pc)
    requires CellInv(c) && ActorInv(c, pc) && InStep(c) && ReaderInStep(c, pc)
    requires pc.ReviewCommit? && !StaleRedecision(c, pc)
    ensures InStep(Advance(c, pc).0)
  {
    var r := CommitReview(c, pc.rv, pc.ext, pc.doc, pc.a);
    if r.Some? && c.review.Some? && c.review.value.version == pc.rv.version {
      assert c.review.value == pc.rv;
    }
  }

  lemma StepKeepsInStep(c: Cell, pc: Pc)
    requires CellInv(c) && ActorInv(c, pc) && InStep(c) && ReaderInStep(c, pc) && !StaleRedecision(c, pc)
    ensures var (c', pc') := Advance(c, pc); InStep(c') && ReaderInStep(c', pc')
  {
    if pc.ReviewCommit? {
      ReviewKeepsInStep(c, pc);
    }
  }

  /** Dead letters leave only with their document. */
  lemma DeadLettersStay(c: Cell, pc: Pc)
    requires CellInv(c) && ActorInv(c, pc)
    ensures c.dlq != [] ==> Advance(c, pc).0.dlq != [] || Advance(c, pc).0.row.None?
  {
  }

  ghost predicate StrictInv(s: System) {
    && Inv(s)
    && (forall d | d in s.cells :: InStep(s.cells[d]))
    && (forall a | a in s.actors :: ReaderInStep(CellOf(s, s.actors[a].doc), s.actors[a].pc))
  }

  lemma ReadersStayInStep(c: Cell, c': Cell, pc: Pc)
    requires CellInv(c) && CellInv(c') && Evolves(c, c') && ActorInv(c, pc) && ReaderInStep(c, pc)
    requires c.dlq != [] ==> c'.dlq != [] || c'.row.None?
    ensures ReaderInStep(c', pc)
  {
  }

  lemma MoveKeepsStrict(s: System, m: ActorId)
    requires StrictInv(s) && m in s.actors && !RedecidesStale(s, Move(m))
    ensures StrictInv(Apply(s, Move(m)))
  {
    MoveKeeps(s, m);
    var d := s.actors[m].doc;
    var c, s' := CellOf(s, d), Apply(s, Move(m));
    assert CellInv(c) && ActorInv(c, s.actors[m].pc) && InStep(c) && ReaderInStep(c, s.actors[m].pc);
    StepKeepsInStep(c, s.actors[m].pc);
    DeadLettersStay(c, s.actors[m].pc);
    forall b | b in s'.actors
      ensures ReaderInStep(CellOf(s', s'.actors[b].doc), s'.actors[b].pc)
    {
      if b != m && s.actors[b].doc == d {
        ReadersStayInStep(c, CellOf(s', d), s.actors[b].pc);
      }
    }
  }

  lemma SpawnKeepsStrict(s: System, a: ActorId, d: DocId, pc: Pc)
    requires StrictInv(s)
    ensures StrictInv(Apply(s, Spawn(a, d, pc)))
  {
    SpawnKeeps(s, a, d, pc);
    var s' := Apply(s, Spawn(a, d, pc));
    forall e | e in s'.cells ensures InStep(s'.cells[e]) {
      assert CellOf(s', e) == CellOf(s, e);
    }
    forall b | b in s'.actors
      ensures ReaderInStep(CellOf(s', s'.actors[b].doc), s'.actors[b].pc)
    {
      assert b in s.actors ==> s'.actors[b] == s.actors[b];
    }
  }

  lemma RestartKeepsStrict(s: System)
    requires StrictInv(s)
    ensures StrictInv(Apply(s, Restart))
  {
    RestartKeeps(s);
  }

  lemma ApplyKeepsStrict(s: System, step: Step)
    requires StrictInv(s) && !RedecidesStale(s, step)
    ensures StrictInv(Apply(s, step))
  {
    match step
    case Spawn(a, d, pc) => SpawnKeepsStrict(s, a, d, pc);
    case Restart => RestartKeepsStrict(s);
    case Move(a) =>
      if a in s.actors {
        MoveKeepsStrict(s, a);
      }
  }

  lemma {:induction false} ExecuteKeepsStrict(s: System, steps: seq<Step>)
    requires StrictInv(s) && NoStaleRedecision(s, steps)
    ensures StrictInv(Execute(s, steps))
    decreases |steps|
  {
    if steps != [] {
      ApplyKeepsStrict(s, steps[0]);
      ExecuteKeepsStrict(Apply(s, steps[0]), steps[1..]);
    }
  }

  /** In every state of a run without a stale re-decision, a rejected document has a
      dead letter or a declined review task. */
  lemma RejectedAreBacked(steps: seq<Step>, d: DocId)
    requires NoStaleRedecision(Init, steps)
    ensures RejectionIsBacked(CellOf(Execute(Init, steps), d))
  {
    ExecuteKeepsStrict(Init, steps);
  }

  /** In such a run the first loss is a stale rejection: as long as no re-decision has
      been stale, a review commit leaves a rejection without its backing just when it
      is a stale rejection of a document that has no dead letter, while the review task
      now carries another decision. */
  lemma LostExactlyWhenStale(s: System, a: ActorId)
    requires StrictInv(s) && a in s.actors && s.actors[a].pc.ReviewCommit?
    ensures var c, pc := CellOf(s, s.actors[a].doc), s.actors[a].pc;
            RejectionIsBacked(Advance(c, pc).0) <==>
              !(StaleRedecision(c, pc) && pc.a.Reject? && c.dlq == [] && c.review.value.status != Declined)
  {
    var c, pc := CellOf(s, s.actors[a].doc), s.actors[a].pc;
    assert CellInv(c) && ActorInv(c, pc) && InStep(c) && ReaderInStep(c, pc);
    LostExactlyWhen(c, pc);
    if c.review.Some? {
      StaleExactlyWhen(c, pc);
    }
  }

  /** Reviewers who only act on open tasks never make a stale re-decision. */
  lemma OpenTasksAreNeverStale(c: Cell, pc: Pc)
    requires pc.ReviewCommit? && ValidAction(pc.a) && Open(pc.rv.status)
    ensures !StaleRedecision(c, pc)
  {
  }
}
