/** The rows that hang off one document, and the transactions that change them.

    A transaction is modelled by the commit of what it wrote: a function from
    the rows at commit time to the rows after it, or None when it rolls back.
    What the transaction read earlier is passed in. */
module Documents {
  import opened Wrappers
  import opened JsonValues

  datatype Status =
    | Pending | Parsing | Guarding | Extracting | Scoring | Routing | Delivering
    | Completed | InReview | Rejected | Error | Cancelled | Tombstone

  datatype Tier = HIGH | MEDIUM | LOW

  datatype DocRow = DocRow(
    version: nat,
    status: Status,
    routing: Option<Tier>,
    confidence: Option<real>,
    storageKey: Option<string>)

  datatype Extraction = Extraction(json: Option<Fields>)

  datatype ReviewStatus = Waiting | InProgress | Accepted | Corrected | Declined

  /** What was sent for each corrected field; the value under "new" counts, if there is one. */
  type Corrections = map<string, Fields>

  datatype ReviewRow = ReviewRow(
    version: nat,
    status: ReviewStatus,
    corrections: Option<Corrections>,
    rejectionReason: Option<string>)

  datatype Report = Report(name: string, result: string, multiplier: real)

  datatype DlqStatus = DlqPending | DlqRetrying | DlqResolved | DlqExpired

  datatype DeadLetter = DeadLetter(reason: string, status: DlqStatus, retryCount: nat)

  datatype Attempt = Attempt(number: nat, httpStatus: Option<int>, error: Option<string>)

  datatype Event =
    | ErasureCompleted
    | PipelineFinished(status: Status)
    | ReviewDecided(action: Action)
    | WebhookDelivered
    | WebhookExhausted

  datatype Action =
    | Accept
    | Correct(corrections: Corrections)
    | Reject(reason: Option<string>)
    | Unknown(name: string)

  /** Everything stored under one document id. `born` records that the inserting
      transaction has committed; `registered` is the id's entry in the in-process
      cancellation set; `blob` is the stored file. Dead letters are named by
      their position, which never changes while the document exists. */
  datatype Cell = Cell(
    born: bool,
    row: Option<DocRow>,
    extraction: Option<Extraction>,
    review: Option<ReviewRow>,
    reports: seq<Report>,
    dlq: seq<DeadLetter>,
    deliveries: seq<Attempt>,
    audit: seq<Event>,
    registered: bool,
    blob: bool)

  const EmptyCell := Cell(false, None, None, None, [], [], [], [], false, false)

  /** What a finished pipeline run hands to the outcome transaction. */
  datatype Outcome = Outcome(
    status: Status,
    routing: Option<Tier>,
    confidence: Option<real>,
    reports: seq<Report>,
    extracted: Option<Fields>,
    failureReason: Option<string>)

  predicate Terminal(s: Status) {
    s in {Completed, InReview, Rejected, Error, Cancelled}
  }

  predicate Open(s: ReviewStatus) {
    s in {Waiting, InProgress}
  }

  // ---- Rows with a version column ------------------------------------------

  /** The mapper's UPDATE of a document row. An object whose fields are as they
      were read issues no UPDATE, so nothing is checked; otherwise the row must
      still exist at the version that was read. */
  function FlushDoc(current: Option<DocRow>, read: DocRow, written: DocRow): Option<Option<DocRow>> {
    if written == read then Some(current)
    else if current.Some? && current.value.version == read.version then
      Some(Some(written.(version := read.version + 1)))
    else None
  }

  function FlushReview(current: Option<ReviewRow>, read: ReviewRow, written: ReviewRow): Option<Option<ReviewRow>> {
    if written == read then Some(current)
    else if current.Some? && current.value.version == read.version then
      Some(Some(written.(version := read.version + 1)))
    else None
  }

  // ---- Ingest ---------------------------------------------------------------

  /** The row is inserted at version 1 and given its storage key by a second flush. */
  function CommitIngest(c: Cell, key: string): Option<Cell> {
    if c.born then None
    else Some(c.(born := true, row := Some(DocRow(2, Pending, None, None, Some(key)))))
  }

  // ---- Pipeline outcome -------------------------------------------------------

  function OutcomeRow(read: DocRow, o: Outcome): DocRow {
    read.(status := if Terminal(o.status) then o.status else Error,
          routing := o.routing,
          confidence := if o.confidence.Some? then o.confidence else read.confidence)
  }

  predicate WritesExtraction(o: Outcome) {
    o.status == Completed || o.status == InReview
  }

  predicate WritesDeadLetter(o: Outcome) {
    o.status == Rejected || o.status == Error
  }

  function CommitOutcome(c: Cell, read: DocRow, o: Outcome): Option<Cell> {
    var row :- FlushDoc(c.row, read, OutcomeRow(read, o));
    if row.None? && (o.reports != [] || WritesExtraction(o) || WritesDeadLetter(o)) then
      None  // a child row without its parent
    else if WritesExtraction(o) && c.extraction.Some? then
      None  // a second extraction for the document
    else if o.status == InReview && c.review.Some? then
      None  // a second review task for the document
    else
      Some(c.(row := row,
              reports := c.reports + o.reports,
              extraction := if WritesExtraction(o)
                            then Some(Extraction(Some(o.extracted.GetOr(map[]))))
                            else c.extraction,
              review := if o.status == InReview then Some(ReviewRow(1, Waiting, None, None)) else c.review,
              dlq := if WritesDeadLetter(o)
                     then c.dlq + [DeadLetter(o.failureReason.GetOr("UNKNOWN"), DlqPending, 0)]
                     else c.dlq,
              audit := c.audit + [PipelineFinished(OutcomeRow(read, o).status)]))
  }

  // ---- Review -----------------------------------------------------------------

  predicate ValidAction(a: Action) {
    match a
    case Accept => true
    case Correct(cs) => cs != map[]
    case Reject(_) => true
    case Unknown(_) => false
  }

  function Decide(rv: ReviewRow, a: Action): ReviewRow {
    match a
    case Accept => rv.(status := Accepted)
    case Correct(cs) => rv.(status := Corrected, corrections := Some(cs))
    case Reject(reason) => rv.(status := Declined, rejectionReason := reason)
    case Unknown(_) => rv
  }

  function DecidedStatus(a: Action): Status {
    if a.Reject? then Rejected else Completed
  }

  function ApplyCorrections(json: Fields, cs: Corrections): Fields {
    map k | k in json.Keys + cs.Keys && (k in json || "new" in cs[k]) ::
      if k in cs && "new" in cs[k] then cs[k]["new"] else json[k]
  }

  /** The extraction as the action writes it back, from the one it read. */
  function CorrectedExtraction(read: Option<Extraction>, a: Action): Option<Extraction> {
    if a.Correct? && read.Some? && read.value.json.Some? then
      Some(Extraction(Some(ApplyCorrections(read.value.json.value, a.corrections))))
    else read
  }

  /** The three rows a decision touches. */
  datatype Decision = Decision(review: Option<ReviewRow>, row: Option<DocRow>, extraction: Option<Extraction>)

  function Decided(now: Decision, rv: ReviewRow, ext: Option<Extraction>, doc: Option<DocRow>,
      a: Action): Option<Decision> {
    var review :- FlushReview(now.review, rv, Decide(rv, a));
    var row :- if doc.Some? then FlushDoc(now.row, doc.value, doc.value.(status := DecidedStatus(a)))
        else Some(now.row);
    var ext' := CorrectedExtraction(ext, a);
    if ext' != ext && now.extraction.None? then
      None  // the updated row is gone
    else
      Some(Decision(review, row, if ext' != ext then ext' else now.extraction))
  }

  function CommitReview(c: Cell, rv: ReviewRow, ext: Option<Extraction>, doc: Option<DocRow>, a: Action): Option<Cell> {
    var d :- Decided(Decision(c.review, c.row, c.extraction), rv, ext, doc, a);
    Some(c.(review := d.review, row := d.row, extraction := d.extraction, audit := c.audit + [ReviewDecided(a)]))
  }

  // ---- Dead-letter retry --------------------------------------------------------

  function CommitRetry(c: Cell, i: nat, entry: DeadLetter, doc: Option<DocRow>): Option<Cell> {
    var row :- if doc.Some? then FlushDoc(c.row, doc.value, doc.value.(status := Pending)) else Some(c.row);
    if i >= |c.dlq| then
      None  // the updated row is gone
    else
      Some(c.(row := row,
              dlq := c.dlq[i := entry.(status := DlqRetrying, retryCount := entry.retryCount + 1)]))
  }

  // ---- Webhook --------------------------------------------------------------------

  function CommitDelivery(c: Cell, attempts: seq<Attempt>, delivered: bool): Option<Cell> {
    if c.row.None? && (attempts != [] || !delivered) then
      None  // a child row without its parent
    else
      Some(c.(deliveries := c.deliveries + attempts,
              dlq := if delivered then c.dlq else c.dlq + [DeadLetter("WEBHOOK_DELIVERY_FAILED", DlqPending, 0)],
              audit := c.audit + [if delivered then WebhookDelivered else WebhookExhausted]))
  }

  // ---- Erasure ----------------------------------------------------------------------

  function CommitCancel(c: Cell, read: DocRow): Option<Cell> {
    var row :- FlushDoc(c.row, read, read.(status := Cancelled));
    Some(c.(row := row))
  }

  /** The delete cascades to every child; audit events have no foreign key. */
  function CommitErasure(c: Cell): Cell {
    c.(row := None, extraction := None, review := None, reports := [], dlq := [], deliveries := [],
       audit := c.audit + [ErasureCompleted])
  }
}
