/** A document is delivered or queued by the pipeline once; what that does to one that is
    retried afterwards. */
module DeliveredOnce {
  import opened Wrappers
  import opened Documents
  import opened Protocol
  import opened Invariant

  predicate Delivers(e: Event) {
    e in {PipelineFinished(Completed), PipelineFinished(InReview)}
  }

  /** The outcomes that delivered or queued the document. */
  function Deliveries(audit: seq<Event>): nat {
    if audit == [] then 0
    else Deliveries(audit[..|audit| - 1]) + if Delivers(audit[|audit| - 1]) then 1 else 0
  }

  lemma OneMoreEvent(audit: seq<Event>, e: Event)
    ensures Deliveries(audit + [e]) == Deliveries(audit) + if Delivers(e) then 1 else 0
  {
    assert (audit + [e])[..|audit|] == audit;
  }

  /** There is a delivery exactly when there is, or was, an extraction, and no second one. */
  ghost predicate OnceInv(c: Cell) {
    && Deliveries(c.audit) <= 1
    && (c.row.Some? ==> Deliveries(c.audit) == if c.extraction.Some? then 1 else 0)
    && (!c.born ==> Deliveries(c.audit) == 0)
  }

  /** What an outcome commit does, if it does anything. */
  predicate OutcomeAdds(c: Cell, c': Cell, e: Event) {
    && c'.audit == c.audit + [e] && c'.born == c.born && (c'.row.Some? <==> c.row.Some?)
    && if Delivers(e) then c.row.Some? && c.extraction.None? && c'.extraction.Some? else c'.extraction == c.extraction
  }

  lemma OutcomeAddsOrNot(c: Cell, pc: Pc)
    requires pc.RunCommit?
    ensures var c' := Advance(c, pc).0;
            c' == c || OutcomeAdds(c, c', PipelineFinished(OutcomeRow(pc.read, pc.o).status))
  {
    assert Delivers(PipelineFinished(OutcomeRow(pc.read, pc.o).status)) <==> WritesExtraction(pc.o);
  }

  lemma OutcomeKeepsOnce(c: Cell, pc: Pc)
    requires CellInv(c) && ActorInv(c, pc) && OnceInv(c) && pc.RunCommit?
    ensures OnceInv(Advance(c, pc).0)
  {
    OutcomeAddsOrNot(c, pc);
    OneMoreEvent(c.audit, PipelineFinished(OutcomeRow(pc.read, pc.o).status));
  }

  /** No delivery is added, and a document that is still there has its extraction or not as
      before. */
  predicate NoDelivery(c: Cell, c': Cell) {
    && Deliveries(c'.audit) == Deliveries(c.audit) && c'.born == c.born
    && (c'.row.Some? ==> c.row.Some? && c'.extraction.Some? == c.extraction.Some?)
  }

  lemma HookDeliversNothing(c: Cell, pc: Pc)
    requires pc.HookCommit?
    ensures NoDelivery(c, Advance(c, pc).0)
  {
    OneMoreEvent(c.audit, if pc.delivered then WebhookDelivered else WebhookExhausted);
  }

  lemma ErasureDeliversNothing(c: Cell, pc: Pc)
    requires pc.EraseRows?
    ensures NoDelivery(c, Advance(c, pc).0)
  {
    OneMoreEvent(c.audit, ErasureCompleted);
  }

  lemma ReviewKeepsExtraction(c: Cell, pc: Pc)
    requires pc.ReviewCommit?
    ensures var c' := Advance(c, pc).0;
            && (c'.audit == c.audit || c'.audit == c.audit + [ReviewDecided(pc.a)]) && c'.born == c.born
            && (c'.row.Some? ==> c.row.Some?) && c'.extraction.Some? == c.extraction.Some?
  {
    var r := CommitReview(c, pc.rv, pc.ext, pc.doc, pc.a);
    if r.Some? && CorrectedExtraction(pc.ext, pc.a) == pc.ext {
      assert r.value.extraction == c.extraction;
    }
  }

  lemma ReviewDeliversNothing(c: Cell, pc: Pc)
    requires pc.ReviewCommit?
    ensures NoDelivery(c, Advance(c, pc).0)
  {
    ReviewKeepsExtraction(c, pc);
    OneMoreEvent(c.audit, ReviewDecided(pc.a));
  }

  /** The steps that leave the audit log and the extraction alone. */
  predicate Unlogged(pc: Pc) {
    !pc.RunCommit? && !pc.HookCommit? && !pc.EraseRows? && !pc.ReviewCommit?
  }

  lemma UnloggedStep(c: Cell, pc: Pc)
    requires Unlogged(pc)
    ensures var c' := Advance(c, pc).0; c'.audit == c.audit && c'.extraction == c.extraction
  {
  }

  lemma OthersKeepOnce(c: Cell, pc: Pc)
    requires CellInv(c) && ActorInv(c, pc) && OnceInv(c) && !pc.RunCommit?
    ensures OnceInv(Advance(c, pc).0)
  {
    if Unlogged(pc) {
      UnloggedStep(c, pc);
      StepKeeps(c, pc);
    } else if pc.HookCommit? {
      HookDeliversNothing(c, pc);
    } else if pc.EraseRows? {
      ErasureDeliversNothing(c, pc);
    } else {
      ReviewDeliversNothing(c, pc);
    }
  }

  ghost predicate AllOnce(s: System) {
    forall d | d in s.cells :: OnceInv(s.cells[d])
  }

  lemma ApplyKeepsOnce(s: System, step: Step)
    requires Inv(s) && AllOnce(s)
    ensures AllOnce(Apply(s, step))
  {
    if step.Move? && step.actor in s.actors {
      var actor := s.actors[step.actor];
      var c := CellOf(s, actor.doc);
      assert CellInv(c) && ActorInv(c, actor.pc) && OnceInv(c);
      if actor.pc.RunCommit? {
        OutcomeKeepsOnce(c, actor.pc);
      } else {
        OthersKeepOnce(c, actor.pc);
      }
    }
  }

  lemma {:induction false} ExecuteKeepsOnce(s: System, steps: seq<Step>)
    requires Inv(s) && AllOnce(s)
    ensures AllOnce(Execute(s, steps))
    decreases |steps|
  {
    if steps != [] {
      ApplyKeepsOnce(s, steps[0]);
      ApplyKeeps(s, steps[0]);
      ExecuteKeepsOnce(Apply(s, steps[0]), steps[1..]);
    }
  }

  /** Over every run of the whole system at most one outcome ever delivers or queues the
      document, and one has exactly when a living document has its extraction: once there
      is one, every later outcome that would deliver or queue it rolls back. */
  lemma DeliveredOrQueuedOnce(steps: seq<Step>, d: DocId)
    ensures var c := CellOf(Execute(Init, steps), d);
            && Deliveries(c.audit) <= 1
            && (c.row.Some? ==> (Deliveries(c.audit) == 1 <==> c.extraction.Some?))
  {
    ExecuteKeepsOnce(Init, steps);
  }

  // ---- A document that no retry brings back -------------------------------------------------

  /** Pending, with its extraction, and with no dead letter left to retry. */
  predicate Stranded(c: Cell) {
    && c.row.Some? && c.row.value.status == Pending && c.extraction.Some?
    && forall e | e in c.dlq :: e.status != DlqPending
  }

  /** Retries, and runs that end as the first one did or in review. */
  predicate Redelivers(pc: Pc) {
    match pc
    case Done => true
    case RetryRead(_) => true
    case RunLoad(o) => WritesExtraction(o)
    case RunRead(o) => WritesExtraction(o)
    case RunGuard(o, _) => WritesExtraction(o)
    case RunCommit(o, _) => WritesExtraction(o)
    case _ => false
  }

  lemma StrandedStep(c: Cell, pc: Pc)
    requires Stranded(c) && Redelivers(pc)
    ensures Advance(c, pc).0 == c && Redelivers(Advance(c, pc).1)
  {
    if pc.RetryRead? && pc.i < |c.dlq| {
      assert c.dlq[pc.i] in c.dlq;
    }
  }

  /** However many retries and such runs interleave, a stranded document stays as it is. */
  lemma {:induction false} StrandedStays(l: Local, turns: seq<nat>)
    requires Stranded(l.c) && forall pc | pc in l.pcs :: Redelivers(pc)
    ensures Interleave(l, turns).c == l.c
    decreases |turns|
  {
    if turns != [] {
      var a := turns[0];
      if a < |l.pcs| {
        assert l.pcs[a] in l.pcs;
        StrandedStep(l.c, l.pcs[a]);
        assert forall b | b in Turn(l, a).pcs :: b in l.pcs || b == Advance(l.c, l.pcs[a]).1;
      }
      StrandedStays(Turn(l, a), turns[1..]);
    }
  }

  const Delivering := Outcome(Completed, Some(HIGH), None, [], Some(map[]), None)

  const Refused := [Attempt(1, Some(500), None)]

  /** A delivered document whose webhook is exhausted, whose dead letter is retried, and
      whose run then delivers it again. */
  const Cast := [IngestSave("k"), RunLoad(Delivering), HookRead(Refused, false), RetryRead(0), RunLoad(Delivering)]

  const DeliveredCell := EmptyCell.(
    born := true, blob := true,
    row := Some(DocRow(3, Completed, Some(HIGH), None, Some("k"))),
    extraction := Some(Extraction(Some(map[]))),
    audit := [PipelineFinished(Completed)])

  const ExhaustedCell := DeliveredCell.(
    deliveries := Refused,
    dlq := [DeadLetter("WEBHOOK_DELIVERY_FAILED", DlqPending, 0)],
    audit := [PipelineFinished(Completed), WebhookExhausted])

  const StrandedCell := ExhaustedCell.(
    row := Some(DocRow(4, Pending, Some(HIGH), None, Some("k"))),
    dlq := [DeadLetter("WEBHOOK_DELIVERY_FAILED", DlqRetrying, 1)])

  lemma Delivery()
    ensures Interleave(Local(EmptyCell, Cast), [0, 0] + [1, 1, 1, 1])
            == Local(DeliveredCell, [Done, Done, Cast[2], Cast[3], Cast[4]])
  {
    Uploads(Cast[1..]);
    assert Cast == [IngestSave("k")] + Cast[1..];
    var uploaded := Local(UploadedCell, [Done, Cast[1], Cast[2], Cast[3], Cast[4]]);
    assert uploaded.pcs == [Done] + Cast[1..];
    assert Interleave(uploaded, [1, 1, 1, 1]) == Local(DeliveredCell, [Done, Done, Cast[2], Cast[3], Cast[4]]);
    InterleaveConcat(Local(EmptyCell, Cast), [0, 0], [1, 1, 1, 1]);
  }

  lemma ExhaustionAndRetry()
    ensures Interleave(Local(DeliveredCell, [Done, Done, Cast[2], Cast[3], Cast[4]]), [2, 2] + [3, 3, 3])
            == Local(StrandedCell, [Done, Done, Done, Done, Cast[4]])
  {
    var l := Local(DeliveredCell, [Done, Done, Cast[2], Cast[3], Cast[4]]);
    var exhausted := Local(ExhaustedCell, [Done, Done, Done, Cast[3], Cast[4]]);
    assert Interleave(l, [2, 2]) == exhausted;
    assert Interleave(exhausted, [3, 3, 3]) == Local(StrandedCell, [Done, Done, Done, Done, Cast[4]]);
    InterleaveConcat(l, [2, 2], [3, 3, 3]);
  }

  /** A run of the system in which a delivered document is stranded: the retry of its webhook
      sets it to PENDING, and the run that follows rolls back. */
  lemma WebhookRetryStrands()
    ensures Stranded(StrandedCell)
    ensures exists steps :: CellOf(Execute(Init, steps), 0) == StrandedCell
                            && forall a | a in Execute(Init, steps).actors :: Execute(Init, steps).actors[a].pc == Done
  {
    var steps := StrandingRun();
    var s := Execute(Init, steps);
    assert forall a | a in s.actors :: s.actors[a].pc == Done;
  }

  lemma LastRun()
    ensures Interleave(Local(StrandedCell, [Done, Done, Done, Done, Cast[4]]), [4, 4, 4, 4])
            == Local(StrandedCell, [Done, Done, Done, Done, Done])
  {
  }

  lemma StrandingRun() returns (steps: seq<Step>)
    ensures Execute(Init, steps) == Embed(Local(StrandedCell, [Done, Done, Done, Done, Done]))
  {
    var start := Local(EmptyCell, Cast);
    var first, second, last := [0, 0] + [1, 1, 1, 1], [2, 2] + [3, 3, 3], [4, 4, 4, 4];
    Delivery();
    ExhaustionAndRetry();
    LastRun();
    InterleaveConcat(start, first, second);
    InterleaveConcat(start, first + second, last);
    InterleavingsAreRuns(Cast, first + second + last);
    steps := Spawns(Cast) + Moves(first + second + last);
  }
}
