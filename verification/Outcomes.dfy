/** What the other transactions write, and exactly when they commit. */
module Outcomes {
  import opened Wrappers
  import opened Documents
  import opened Protocol

  // ---- The outcome of a run ---------------------------------------------------------------

  /** The status that an outcome gives the document: its own, if a run can end in it. */
  function StatusOf(o: Outcome): Status {
    if o.status in {Completed, InReview, Rejected, Cancelled} then o.status else Error
  }

  /** Nothing of the document row is different from what was read. */
  predicate LeavesRow(read: DocRow, o: Outcome) {
    read.status == StatusOf(o) && read.routing == o.routing && (o.confidence.None? || o.confidence == read.confidence)
  }

  /** An outcome is refused when it changes a row that has moved on or is gone, when it adds
      anything to a document that is gone, when it would give the document a second
      extraction, or a second review task; and in no other case. */
  lemma OutcomeRefusedExactlyWhen(c: Cell, read: DocRow, o: Outcome)
    ensures CommitOutcome(c, read, o).None? <==>
              || (!LeavesRow(read, o) && (c.row.None? || c.row.value.version != read.version))
              || (c.row.None? && (|o.reports| > 0 || o.status in {Completed, InReview, Rejected, Error}))
              || (c.extraction.Some? && o.status in {Completed, InReview})
              || (c.review.Some? && o.status == InReview)
  {
    assert LeavesRow(read, o) <==> OutcomeRow(read, o) == read;
  }

  /** What it writes otherwise. */
  lemma OutcomeWrites(c: Cell, read: DocRow, o: Outcome)
    requires CommitOutcome(c, read, o).Some?
    ensures CommitOutcome(c, read, o).value == Cell(
              c.born,
              if LeavesRow(read, o) then c.row
              else Some(DocRow(read.version + 1, StatusOf(o), o.routing,
                               if o.confidence.Some? then o.confidence else read.confidence, read.storageKey)),
              if o.status in {Completed, InReview}
              then Some(Extraction(Some(if o.extracted.Some? then o.extracted.value else map[]))) else c.extraction,
              if o.status == InReview then Some(ReviewRow(1, Waiting, None, None)) else c.review,
              c.reports + o.reports,
              if o.status in {Rejected, Error}
              then c.dlq + [DeadLetter(if o.failureReason.Some? then o.failureReason.value else "UNKNOWN",
                                       DlqPending, 0)]
              else c.dlq,
              c.deliveries,
              c.audit + [PipelineFinished(StatusOf(o))],
              c.registered,
              c.blob)
  {
    assert LeavesRow(read, o) <==> OutcomeRow(read, o) == read;
  }

  // ---- Ingest, retry, webhook, erasure --------------------------------------------------------

  lemma IngestWrites(c: Cell, key: string)
    ensures CommitIngest(c, key) ==
            if c.born then None
            else Some(Cell(true, Some(DocRow(2, Pending, None, None, Some(key))), c.extraction, c.review, c.reports,
                           c.dlq, c.deliveries, c.audit, c.registered, c.blob))
  {
  }

  /** A retry is refused when its entry is gone, or when it changes a document that has moved
      on or is gone. Otherwise it leaves everything but the entry and the document's status. */
  lemma RetryWrites(c: Cell, i: nat, entry: DeadLetter, doc: Option<DocRow>)
    ensures var moves := doc.Some? && doc.value.status != Pending;
            CommitRetry(c, i, entry, doc) ==
            if i >= |c.dlq| || (moves && (c.row.None? || c.row.value.version != doc.value.version)) then None
            else Some(Cell(
              c.born,
              if moves then Some(DocRow(doc.value.version + 1, Pending, doc.value.routing, doc.value.confidence,
                                        doc.value.storageKey))
              else c.row,
              c.extraction, c.review, c.reports,
              c.dlq[..i] + [DeadLetter(entry.reason, DlqRetrying, entry.retryCount + 1)] + c.dlq[i + 1..],
              c.deliveries, c.audit, c.registered, c.blob))
  {
    if i < |c.dlq| {
      var e := DeadLetter(entry.reason, DlqRetrying, entry.retryCount + 1);
      assert c.dlq[i := e] == c.dlq[..i] + [e] + c.dlq[i + 1..];
    }
  }

  /** A delivery is refused exactly when the document is gone and something would hang off it. */
  lemma DeliveryWrites(c: Cell, attempts: seq<Attempt>, delivered: bool)
    ensures CommitDelivery(c, attempts, delivered).None? <==> c.row.None? && (|attempts| > 0 || !delivered)
    ensures CommitDelivery(c, attempts, delivered).Some? ==>
              CommitDelivery(c, attempts, delivered).value == Cell(
                c.born, c.row, c.extraction, c.review, c.reports,
                c.dlq + if delivered then [] else [DeadLetter("WEBHOOK_DELIVERY_FAILED", DlqPending, 0)],
                c.deliveries + attempts,
                c.audit + [if delivered then WebhookDelivered else WebhookExhausted],
                c.registered, c.blob)
  {
    assert c.dlq + [] == c.dlq;
  }

  /** The first transaction of an erasure: refused when the document, read in another status,
      has moved on or is gone. */
  lemma CancelWrites(c: Cell, read: DocRow)
    ensures CommitCancel(c, read) ==
            if read.status == Cancelled then Some(c)
            else if c.row.None? || c.row.value.version != read.version then None
            else Some(c.(row := Some(DocRow(read.version + 1, Cancelled, read.routing, read.confidence,
                                            read.storageKey))))
  {
  }

  /** Between the two, the stored file is removed if its key is not empty and the delete does
      not raise; the last transaction hears which. */
  lemma BlobStepWrites(c: Cell, f: Faults, key: Option<string>)
    ensures Advance(c, EraseBlob(f, key)) ==
            if key.Some? && |key.value| > 0 && !f.blob then (c.(blob := false), ErasePurge(f, true))
            else (c, ErasePurge(f, false))
  {
  }

  /** Its last: everything stored under the id goes but the audit log, which grows by one. */
  lemma ErasureWrites(c: Cell)
    ensures CommitErasure(c) ==
            Cell(c.born, None, None, None, [], [], [], c.audit + [ErasureCompleted], c.registered, c.blob)
  {
  }

  // ---- Documents that nobody was started for --------------------------------------------------

  lemma {:induction false} ActorsKeepToTheirDocument(s: System, steps: seq<Step>, d: DocId)
    requires d !in s.cells && forall a | a in s.actors :: s.actors[a].doc != d
    requires forall step | step in steps && step.Spawn? :: step.doc != d
    ensures d !in Execute(s, steps).cells
    decreases |steps|
  {
    if steps != [] {
      assert steps[0] in steps;
      assert forall step | step in steps[1..] :: step in steps;
      ActorsKeepToTheirDocument(Apply(s, steps[0]), steps[1..], d);
    }
  }

  /** Nothing is stored under an id for which no actor was ever started, whatever the others do. */
  lemma NobodyLeavesNothing(steps: seq<Step>, d: DocId)
    requires forall step | step in steps && step.Spawn? :: step.doc != d
    ensures CellOf(Execute(Init, steps), d) == Cell(false, None, None, None, [], [], [], [], false, false)
  {
    ActorsKeepToTheirDocument(Init, steps, d);
  }
}
