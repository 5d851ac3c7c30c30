/** What erasure guarantees whatever else is running. */
module ErasureSafety {
  import opened Wrappers
  import opened Documents
  import opened Protocol
  import opened Invariant

  predicate Gone(c: Cell) {
    c.row.None? && NoChildren(c)
  }

  /** In every state a run can reach, a committed document has its row or an
      ERASURE_COMPLETED event, never both and never neither, and child rows only
      beside the row. */
  lemma RowOrTombstone(steps: seq<Step>, d: DocId)
    ensures var c := CellOf(Execute(Init, steps), d);
            && (c.born ==> (c.row.Some? <==> !Tombstoned(c)))
            && (!c.born ==> c.row.None? && !Tombstoned(c))
            && (c.row.None? ==> NoChildren(c))
  {
    ExecuteKeeps(Init, steps);
  }

  /** Once the event is there, no row for the document is ever there again. */
  lemma ErasedForGood(before: seq<Step>, after: seq<Step>, d: DocId)
    requires Tombstoned(CellOf(Execute(Init, before), d))
    ensures var c := CellOf(Execute(Execute(Init, before), after), d);
            Tombstoned(c) && Gone(c)
  {
    ExecuteKeeps(Init, before);
    var s := Execute(Init, before);
    ExecuteKeeps(s, after);
    var c, c' := CellOf(s, d), CellOf(Execute(s, after), d);
    var i :| 0 <= i < |c.audit| && c.audit[i] == ErasureCompleted;
    assert c'.audit[i] == ErasureCompleted;
  }

  /** An erasure that got as far as clearing its registry entry, and whose blob
      delete did not raise, leaves no blob, then or later. */
  lemma BlobErasedForGood(before: seq<Step>, after: seq<Step>, a: ActorId)
    requires var s := Execute(Init, before); a in s.actors && s.actors[a].pc == EraseClear(true)
    ensures var s := Execute(Init, before);
            !CellOf(Execute(s, after), s.actors[a].doc).blob
  {
    ExecuteKeeps(Init, before);
    ExecuteKeeps(Execute(Init, before), after);
  }

  // ---- The tombstone comes last -----------------------------------------------------------

  predicate Keyed(key: Option<string>) {
    key.GetOr("") != ""
  }

  /** Stores answer with a key, and no blob delete raises. */
  predicate Faultless(step: Step) {
    step.Spawn? ==>
      && (step.pc.IngestSave? ==> step.pc.key != "")
      && (step.pc.EraseRegister? ==> !step.pc.faults.blob)
  }

  predicate CellKeyed(c: Cell) {
    && (c.row.Some? ==> Keyed(c.row.value.storageKey))
    && (Tombstoned(c) ==> !c.blob)
  }

  predicate PcKeyed(pc: Pc) {
    match pc
    case IngestSave(key) => key != ""
    case IngestCommit(key) => key != ""
    case RunGuard(_, read) => Keyed(read.storageKey)
    case RunCommit(_, read) => Keyed(read.storageKey)
    case EraseRegister(f) => !f.blob
    case EraseRead(f) => !f.blob
    case EraseCancel(f, read) => !f.blob && Keyed(read.storageKey)
    case EraseBlob(f, key) => !f.blob && Keyed(key)
    case ErasePurge(f, gone) => gone
    case EraseRows(gone) => gone
    case ReviewCommit(_, _, _, doc) => doc.Some? ==> Keyed(doc.value.storageKey)
    case RetryCommit(_, _, doc) => doc.Some? ==> Keyed(doc.value.storageKey)
    case _ => true
  }

  predicate AllKeyed(s: System) {
    (forall d | d in s.cells :: CellKeyed(s.cells[d])) && (forall a | a in s.actors :: PcKeyed(s.actors[a].pc))
  }

  lemma RowsStayKeyed(c: Cell, pc: Pc)
    requires CellKeyed(c) && PcKeyed(pc)
    ensures var (c', pc') := Advance(c, pc); PcKeyed(pc') && (c'.row.Some? ==> Keyed(c'.row.value.storageKey))
  {
  }

  lemma OnlyErasureTombstones(c: Cell, pc: Pc)
    requires !pc.EraseRows?
    ensures Tombstoned(Advance(c, pc).0) ==> Tombstoned(c)
  {
    var c' := Advance(c, pc).0;
    assert forall e | e in c'.audit :: e in c.audit || e != ErasureCompleted;
  }

  /** Only an erasure whose blob delete succeeded gets as far as the tombstone. */
  lemma TombstoneFollowsBlob(c: Cell, pc: Pc)
    requires CellInv(c) && ActorInv(c, pc) && CellKeyed(c) && PcKeyed(pc)
    ensures Tombstoned(Advance(c, pc).0) ==> !Advance(c, pc).0.blob
  {
    if pc.EraseRows? {
      assert !c.blob;
    } else {
      OnlyErasureTombstones(c, pc);
      StepKeeps(c, pc);
    }
  }

  lemma AdvanceKeepsKeys(c: Cell, pc: Pc)
    requires CellInv(c) && ActorInv(c, pc) && CellKeyed(c) && PcKeyed(pc)
    ensures CellKeyed(Advance(c, pc).0) && PcKeyed(Advance(c, pc).1)
  {
    RowsStayKeyed(c, pc);
    TombstoneFollowsBlob(c, pc);
  }

  lemma ApplyKeepsKeys(s: System, step: Step)
    requires Inv(s) && AllKeyed(s) && Faultless(step)
    ensures AllKeyed(Apply(s, step))
  {
    if step.Move? && step.actor in s.actors {
      var actor := s.actors[step.actor];
      AdvanceKeepsKeys(CellOf(s, actor.doc), actor.pc);
    }
  }

  lemma {:induction false} ExecuteKeepsKeys(s: System, steps: seq<Step>)
    requires Inv(s) && AllKeyed(s) && forall step | step in steps :: Faultless(step)
    ensures AllKeyed(Execute(s, steps))
    decreases |steps|
  {
    if steps != [] {
      assert Faultless(steps[0]);
      assert forall step | step in steps[1..] :: step in steps;
      ApplyKeepsKeys(s, steps[0]);
      ApplyKeeps(s, steps[0]);
      ExecuteKeepsKeys(Apply(s, steps[0]), steps[1..]);
    }
  }

  /** External data first, the tombstone last: on every run on which no blob delete raises,
      a document that has its ERASURE_COMPLETED event has no blob, wherever the erasures
      of it stopped. */
  lemma TombstoneMeansNoBlob(steps: seq<Step>, d: DocId)
    requires forall step | step in steps :: Faultless(step)
    ensures var c := CellOf(Execute(Init, steps), d); Tombstoned(c) ==> !c.blob
  {
    ExecuteKeepsKeys(Init, steps);
    assert CellKeyed(CellOf(Execute(Init, steps), d));
  }

  /** A run that starts after the tombstone finds no row and stops at once. */
  lemma LateRunStops(steps: seq<Step>, a: ActorId)
    requires var s := Execute(Init, steps);
             a in s.actors && s.actors[a].pc.RunLoad? && Tombstoned(CellOf(s, s.actors[a].doc))
    ensures var s := Execute(Init, steps);
            && Apply(s, Move(a)).actors[a].pc == Done
            && CellOf(Apply(s, Move(a)), s.actors[a].doc) == CellOf(s, s.actors[a].doc)
  {
    ExecuteKeeps(Init, steps);
  }

  // ---- The cancellation barrier -------------------------------------------------------

  /** Every run past its guard read an older row than the present one. */
  ghost predicate RunsAreStale(s: System, d: DocId) {
    forall a | a in s.actors && s.actors[a].doc == d && s.actors[a].pc.RunCommit? && CellOf(s, d).row.Some? ::
      s.actors[a].pc.read.version < CellOf(s, d).row.value.version
  }

  /** Step `step` is an erasure's first transaction on d, and it commits. */
  predicate CancelCommits(s: System, step: Step, d: DocId) {
    && step.Move? && step.actor in s.actors && s.actors[step.actor].doc == d
    && s.actors[step.actor].pc.EraseCancel?
    && CommitCancel(CellOf(s, d), s.actors[step.actor].pc.read).Some?
  }

  predicate OutcomeStep(s: System, step: Step, d: DocId) {
    step.Move? && step.actor in s.actors && s.actors[step.actor].doc == d && s.actors[step.actor].pc.RunCommit?
  }

  /** The registry entry of d is there now and after each of the steps. */
  predicate EntryStands(s: System, steps: seq<Step>, d: DocId)
    decreases |steps|
  {
    CellOf(s, d).registered && (steps != [] ==> EntryStands(Apply(s, steps[0]), steps[1..], d))
  }

  lemma CancelMakesRunsStale(s: System, step: Step, d: DocId)
    requires Inv(s) && CancelCommits(s, step, d)
    ensures RunsAreStale(Apply(s, step), d)
  {
    var s' := Apply(s, step);
    var e := step.actor;
    forall a | a in s'.actors && s'.actors[a].doc == d && s'.actors[a].pc.RunCommit? && CellOf(s', d).row.Some?
      ensures s'.actors[a].pc.read.version < CellOf(s', d).row.value.version
    {
      assert NoFresher(s, e, a);
      assert ActorInv(CellOf(s, d), s.actors[a].pc) && ActorInv(CellOf(s, d), s.actors[e].pc);
    }
  }

  lemma RunStaysStale(s: System, step: Step, d: DocId, a: ActorId)
    requires Inv(s) && RunsAreStale(s, d) && CellOf(s, d).registered
    requires var s' := Apply(s, step);
             a in s'.actors && s'.actors[a].doc == d && s'.actors[a].pc.RunCommit? && CellOf(s', d).row.Some?
    ensures a in s.actors && s.actors[a] == Apply(s, step).actors[a]
  {
    if step == Move(a) && a in s.actors {
      EntryPoints(CellOf(s, d), s.actors[a].pc);
      assert false;
    }
  }

  /** While the entry stands no run passes its guard, so none becomes fresh. */
  lemma RunsStayStale(s: System, step: Step, d: DocId)
    requires Inv(s) && RunsAreStale(s, d) && CellOf(s, d).registered
    ensures RunsAreStale(Apply(s, step), d)
  {
    ApplyKeeps(s, step);
    var s' := Apply(s, step);
    forall a | a in s'.actors && s'.actors[a].doc == d && s'.actors[a].pc.RunCommit? && CellOf(s', d).row.Some?
      ensures s'.actors[a].pc.read.version < CellOf(s', d).row.value.version
    {
      RunStaysStale(s, step, d, a);
      assert Evolves(CellOf(s, d), CellOf(s', d));
    }
  }

  lemma StaleOutcomeKeepsRow(s: System, step: Step, d: DocId)
    requires Inv(s) && RunsAreStale(s, d) && OutcomeStep(s, step, d)
    ensures CellOf(Apply(s, step), d).row == CellOf(s, d).row
  {
  }

  lemma {:induction false} BarrierHolds(s: System, steps: seq<Step>, d: DocId)
    requires Inv(s) && RunsAreStale(s, d) && EntryStands(s, steps, d)
    ensures Inv(Execute(s, steps)) && RunsAreStale(Execute(s, steps), d)
    decreases |steps|
  {
    if steps != [] {
      ApplyKeeps(s, steps[0]);
      RunsStayStale(s, steps[0], d);
      BarrierHolds(Apply(s, steps[0]), steps[1..], d);
    }
  }

  /** From the commit of an erasure's first transaction on, and for as long as the
      registry entry stands, no pipeline outcome changes the document's row,
      whatever retries and reviews do to its status in between. */
  lemma CancelledOutcomesAreDropped(before: seq<Step>, cancel: Step, between: seq<Step>, outcome: Step, d: DocId)
    requires var s := Execute(Init, before);
             && CancelCommits(s, cancel, d)
             && EntryStands(Apply(s, cancel), between, d)
             && OutcomeStep(Execute(Apply(s, cancel), between), outcome, d)
    ensures var s := Execute(Apply(Execute(Init, before), cancel), between);
            CellOf(Apply(s, outcome), d).row == CellOf(s, d).row
  {
    ExecuteKeeps(Init, before);
    var s := Execute(Init, before);
    ApplyKeeps(s, cancel);
    CancelMakesRunsStale(s, cancel, d);
    BarrierHolds(Apply(s, cancel), between, d);
    StaleOutcomeKeepsRow(Execute(Apply(s, cancel), between), outcome, d);
  }
}
