/** From the final state of a run to the rows its outcome transaction writes. */
module Runner {
  import opened Wrappers
  import opened JsonValues
  import opened Documents
  import opened Protocol
  import opened Outcomes
  import opened Guardrails
  import opened Encryption
  import opened Pipeline
  import opened PipelineRuns
  import opened PipelineReference

  function ReasonName(r: Reason): string {
    match r
    case PARSE_FAILED => "PARSE_FAILED"
    case PARSE_EMPTY_OUTPUT => "PARSE_EMPTY_OUTPUT"
    case GUARDRAIL_BLOCK => "GUARDRAIL_BLOCK"
    case INJECTION_DETECTED => "INJECTION_DETECTED"
    case EXTRACTION_FAILED => "EXTRACTION_FAILED"
    case LOW_CONFIDENCE => "LOW_CONFIDENCE"
  }

  function ToReport(o: GuardOutcome): Report {
    Report(o.name, match o.result case Pass => "pass" case Warn => "warn" case Block => "block", o.multiplier)
  }

  function ToReports(outcomes: seq<GuardOutcome>): seq<Report> {
    seq(|outcomes|, i requires 0 <= i < |outcomes| => ToReport(outcomes[i]))
  }

  /** What encrypts the personal fields of one extraction. */
  datatype Vault = Vault(cipher: Cipher, tenant: string, pii: seq<string>, nonces: seq<Nonce>)

  ghost predicate Sound(v: Vault) {
    Lawful(v.cipher) && |v.nonces| == |v.pii|
  }

  function AnswerOf(f: State): Fields {
    if f.extracted.Some? then f.extracted.value.json else map[]
  }

  function StoredFields(f: State, v: Vault): Option<Fields>
    requires |v.nonces| == |v.pii|
  {
    EncryptFields(v.cipher, v.tenant, AnswerOf(f), v.pii, v.nonces)
  }

  /** The outcome of a run that ended in f, with its personal fields encrypted. */
  function ToOutcome(f: State, v: Vault): Outcome
    requires |v.nonces| == |v.pii|
  {
    Outcome(
      f.status.GetOr(Error),
      f.routing,
      if f.scored.Some? then Some(f.scored.value.confidence) else None,
      ToReports(f.reports.GetOr([])),
      StoredFields(f, v),
      if f.failureReason.Some? then Some(ReasonName(f.failureReason.value)) else None)
  }

  /** The outcome transaction of such a run: it rolls back, too, when an extraction is to
      be written and encrypting it raises. */
  function CommitRun(c: Cell, read: DocRow, f: State, v: Vault): Option<Cell>
    requires |v.nonces| == |v.pii|
  {
    var o := ToOutcome(f, v);
    if WritesExtraction(o) && o.extracted.None? then None else CommitOutcome(c, read, o)
  }

  // ---- One committed outcome ----------------------------------------------------------

  /** The document row that a run's outcome writes over the one it read. */
  function WrittenRow(read: DocRow, f: State): DocRow {
    read.(status := f.status.GetOr(Error), routing := f.routing,
          confidence := if f.scored.Some? then Some(f.scored.value.confidence) else read.confidence)
  }

  /** The whole document after a run's outcome: reports and one event are added, and a
      delivered document gets an extraction, a queued one an extraction and an open review
      task, a rejected one a dead letter with the run's own reason, a cancelled one none
      of these. */
  predicate LeavesTrace(c: Cell, c': Cell, read: DocRow, f: State, stored: Option<Fields>) {
    var status := f.status.GetOr(Error);
    var base := c.(
      row := if WrittenRow(read, f) == read then c.row else Some(WrittenRow(read, f).(version := read.version + 1)),
      reports := c.reports + ToReports(f.reports.GetOr([])),
      audit := c.audit + [PipelineFinished(status)]);
    match status
    case Completed => stored.Some? && c' == base.(extraction := Some(Extraction(stored)))
    case InReview =>
      && stored.Some?
      && c' == base.(extraction := Some(Extraction(stored)), review := Some(ReviewRow(1, Waiting, None, None)))
    case Rejected =>
      && f.failureReason.Some? && f.failureReason != Some(GUARDRAIL_BLOCK)
      && c' == base.(dlq := c.dlq + [DeadLetter(ReasonName(f.failureReason.value), DlqPending, 0)])
    case Cancelled => c' == base
    case _ => false
  }

  lemma CommitLeavesTrace(c: Cell, read: DocRow, f: State, v: Vault, cancelled: bool)
    requires |v.nonces| == |v.pii| && EndsWell(f, cancelled) && CommitRun(c, read, f, v).Some?
    ensures LeavesTrace(c, CommitRun(c, read, f, v).value, read, f, StoredFields(f, v))
  {
    var o := ToOutcome(f, v);
    assert OutcomeRow(read, o) == WrittenRow(read, f);
  }

  /** The status in which a run ended, if it is one that runs end in. */
  function EndStatus(f: State): Status {
    if f.status.Some? && f.status.value in {Completed, InReview, Rejected, Cancelled} then f.status.value else Error
  }

  /** The run found the document just as it leaves it. */
  predicate FoundSo(read: DocRow, f: State) {
    && read.status == EndStatus(f) && read.routing == f.routing
    && (f.scored.None? || read.confidence == Some(f.scored.value.confidence))
  }

  /** When the outcome transaction of a run rolls back: the row it changes has moved on or is
      gone, something would hang off a document that is gone, a second extraction or review
      task would be written, or a personal string of the extraction to be written cannot be
      encrypted for want of a key. */
  lemma RunRefusedExactlyWhen(c: Cell, read: DocRow, f: State, v: Vault)
    requires Sound(v)
    requires f.status.Some? ==> f.status.value in {Completed, InReview, Rejected, Cancelled}
    ensures CommitRun(c, read, f, v).None? <==>
              || (!FoundSo(read, f) && (c.row.None? || c.row.value.version != read.version))
              || (c.row.None? && ((f.reports.Some? && |f.reports.value| > 0) || EndStatus(f) != Cancelled))
              || (c.extraction.Some? && f.status in {Some(Completed), Some(InReview)})
              || (c.review.Some? && f.status == Some(InReview))
              || (f.status in {Some(Completed), Some(InReview)} && !v.cipher.hasKey
                  && exists keys :: Addressed(v.pii, keys) && PlainAt(AnswerOf(f), keys))
  {
    var o := ToOutcome(f, v);
    OutcomeRefusedExactlyWhen(c, read, o);
    EncryptRaisesExactlyWhen(v.cipher, v.tenant, AnswerOf(f), v.pii, v.nonces);
  }

  /** A fresh run's committed outcome is never silent, and leaves just its own trace. */
  lemma OutcomeIsNeverSilent(c: Cell, read: DocRow, s: State, w: World, llm: Llm, v: Vault)
    requires Seeded(s) && Sound(v)
    ensures var f := Run(s, w, llm);
            var r := CommitRun(c, read, f, v);
            r.Some? ==> LeavesTrace(c, r.value, read, f, StoredFields(f, v))
  {
    FreshRunEnds(s, w, llm);
    var f := Run(s, w, llm);
    if CommitRun(c, read, f, v).Some? {
      CommitLeavesTrace(c, read, f, v, s.isCancelled.value);
    }
  }

  /** Why a fresh run that is not cancelled is rejected, if it is. */
  function Cause(w: World, llm: Llm): string {
    if w.parse.ParseRaised? then "PARSE_FAILED"
    else if IsEmpty(w.parse.text) then "PARSE_EMPTY_OUTPUT"
    else if w.injection(w.parse.text).Some? then "INJECTION_DETECTED"
    else if llm.Raised? then "EXTRACTION_FAILED"
    else "LOW_CONFIDENCE"
  }

  lemma ReasonIsCause(s: State, w: World, llm: Llm)
    requires Seeded(s)
    ensures var f := Run(s, w, llm);
            f.status == Some(Rejected) ==>
              !s.isCancelled.value && f.failureReason.Some? && ReasonName(f.failureReason.value) == Cause(w, llm)
  {
    RunIsReference(s, w, llm);
  }

  lemma OnlyRejectionsAddDeadLetters(c: Cell, c': Cell, read: DocRow, f: State, stored: Option<Fields>)
    requires LeavesTrace(c, c', read, f, stored)
    ensures c'.dlq != c.dlq ==>
              && f.status == Some(Rejected) && f.failureReason.Some?
              && c'.dlq == c.dlq + [DeadLetter(ReasonName(f.failureReason.value), DlqPending, 0)]
    ensures c'.reports == c.reports + ToReports(f.reports.GetOr([]))
  {
  }

  /** The dead letter that a fresh run's outcome adds names its cause: the parser raised, the
      text was empty, an injection was found, the model raised, or none of these. */
  lemma DeadLetterNamesItsCause(c: Cell, read: DocRow, s: State, w: World, llm: Llm, v: Vault)
    requires Seeded(s) && Sound(v)
    ensures var r := CommitRun(c, read, Run(s, w, llm), v);
            r.Some? && r.value.dlq != c.dlq ==>
              && !s.isCancelled.value
              && r.value.dlq == c.dlq + [DeadLetter(Cause(w, llm), DlqPending, 0)]
  {
    var f := Run(s, w, llm);
    var r := CommitRun(c, read, f, v);
    OutcomeIsNeverSilent(c, read, s, w, llm, v);
    ReasonIsCause(s, w, llm);
    if r.Some? {
      OnlyRejectionsAddDeadLetters(c, r.value, read, f, StoredFields(f, v));
    }
  }

  /** The reports of a fresh run: none if it has no text, and else that of the injection scan
      and that of the text quality. */
  function Findings(s: State, w: World): seq<Report>
    requires Seeded(s)
  {
    if s.isCancelled.value || w.parse.ParseRaised? || IsEmpty(w.parse.text) then []
    else
      [Report("injection", if w.injection(w.parse.text).Some? then "block" else "pass", 1.0),
       if w.weak(w.parse.text).Some? then Report("text_quality", "warn", 0.8) else Report("text_quality", "pass", 1.0)]
  }

  lemma ReportsAreFindings(s: State, w: World, llm: Llm)
    requires Seeded(s)
    ensures ToReports(Run(s, w, llm).reports.GetOr([])) == Findings(s, w)
  {
    RunIsReference(s, w, llm);
  }

  lemma ReportsAreWritten(c: Cell, read: DocRow, s: State, w: World, llm: Llm, v: Vault)
    requires Seeded(s) && Sound(v)
    ensures var r := CommitRun(c, read, Run(s, w, llm), v);
            r.Some? ==> r.value.reports == c.reports + Findings(s, w)
  {
    var f := Run(s, w, llm);
    var r := CommitRun(c, read, f, v);
    OutcomeIsNeverSilent(c, read, s, w, llm, v);
    ReportsAreFindings(s, w, llm);
    if r.Some? {
      OnlyRejectionsAddDeadLetters(c, r.value, read, f, StoredFields(f, v));
    }
  }

  /** Where the strings of personal fields are. */
  predicate Personal(v: Vault, data: Fields, keys: seq<string>) {
    Addressed(v.pii, keys) && StringAt(data, keys)
  }

  /** Every personal string of the answer is an envelope, and decrypting gives the answer. */
  ghost predicate HidesAndKeeps(v: Vault, answer: Fields, stored: Fields) {
    && DecryptFields(v.cipher, v.tenant, stored, v.pii) == Some(answer)
    && forall keys | Personal(v, answer, keys) :: StringAt(stored, keys) && IsEncrypted(StringOf(stored, keys))
  }

  /** What encryption makes of an answer without envelopes, if it does not raise. */
  lemma StoredHidesAndKeeps(v: Vault, answer: Fields)
    requires Sound(v)
    requires forall keys | Personal(v, answer, keys) :: !IsEncrypted(StringOf(answer, keys))
    ensures var stored := EncryptFields(v.cipher, v.tenant, answer, v.pii, v.nonces);
            stored.Some? ==> HidesAndKeeps(v, answer, stored.value)
  {
    FieldsRoundTrip(v.cipher, v.tenant, answer, v.pii, v.nonces);
    if v.cipher.hasKey {
      EncryptSees(v.cipher, v.tenant, answer, v.pii, v.nonces);
    } else {
      KeylessEncrypt(v.cipher, v.tenant, answer, v.pii, v.nonces);
      assert forall keys | Personal(v, answer, keys) :: PlainAt(answer, keys);
    }
  }

  /** The extraction that a fresh run's outcome stores has an envelope for every personal
      string, and decrypts to exactly what the model answered. */
  lemma StoredExtractionIsTheAnswer(c: Cell, read: DocRow, s: State, w: World, llm: Llm, v: Vault)
    requires Seeded(s) && Sound(v) && llm.Answer?
    requires forall keys | Personal(v, llm.fields, keys) :: !IsEncrypted(StringOf(llm.fields, keys))
    ensures var f := Run(s, w, llm);
            var r := CommitRun(c, read, f, v);
            r.Some? && f.status in {Some(Completed), Some(InReview)} ==>
              && r.value.extraction.Some? && r.value.extraction.value.json.Some?
              && HidesAndKeeps(v, llm.fields, r.value.extraction.value.json.value)
  {
    var f := Run(s, w, llm);
    FrontEnds(s, w);
    FinishEnds(AfterExtract(s, w, llm));
    if f.status in {Some(Completed), Some(InReview)} {
      assert ReachesModel(s, w);
      ScoreOfRun(s, w, llm);
      StoredHidesAndKeeps(v, llm.fields);
    }
  }

  // ---- Every outcome of every run ------------------------------------------------------------

  const Reasons := {"PARSE_FAILED", "PARSE_EMPTY_OUTPUT", "GUARDRAIL_BLOCK", "INJECTION_DETECTED",
                    "EXTRACTION_FAILED", "LOW_CONFIDENCE", "WEBHOOK_DELIVERY_FAILED"}

  const Lasting := {Pending, Completed, InReview, Rejected, Cancelled}

  /** The run knows how it ended, and why if it failed. */
  predicate Accounted(o: Outcome) {
    && o.status in {Completed, InReview, Rejected, Cancelled}
    && (o.status == Rejected ==> o.failureReason.Some? && o.failureReason.value in Reasons)
  }

  lemma ReasonsAreNamed(r: Reason)
    ensures ReasonName(r) in Reasons
  {
  }

  /** Whatever state a run starts from, a fresh one or one left by any crash, and whatever
      the model answers, its outcome is accounted for. */
  lemma EveryRunIsAccounted(s: State, w: World, llm: Llm, v: Vault)
    requires |v.nonces| == |v.pii|
    ensures Accounted(ToOutcome(Run(s, w, llm), v))
  {
    FinishEnds(AfterExtract(s, w, llm));
    var f := Run(s, w, llm);
    if f.failureReason.Some? {
      ReasonsAreNamed(f.failureReason.value);
    }
  }

  predicate SpawnsAccounted(steps: seq<Step>) {
    forall step | step in steps && step.Spawn? && step.pc.RunLoad? :: Accounted(step.pc.o)
  }

  predicate CellAccounted(c: Cell) {
    && (c.row.Some? ==> c.row.value.status in Lasting)
    && (forall e | e in c.dlq :: e.reason in Reasons)
  }

  predicate PcAccounted(pc: Pc) {
    match pc
    case RunLoad(o) => Accounted(o)
    case RunRead(o) => Accounted(o)
    case RunGuard(o, _) => Accounted(o)
    case RunCommit(o, _) => Accounted(o)
    case RetryReadDoc(_, entry) => entry.reason in Reasons
    case RetryCommit(_, entry, _) => entry.reason in Reasons
    case _ => true
  }

  lemma AdvanceKeepsAccounts(c: Cell, pc: Pc)
    requires CellAccounted(c) && PcAccounted(pc)
    ensures CellAccounted(Advance(c, pc).0) && PcAccounted(Advance(c, pc).1)
  {
    match pc
    case RetryCommit(i, entry, doc) =>
      var r := CommitRetry(c, i, entry, doc);
      if r.Some? {
        assert forall e | e in r.value.dlq :: e in c.dlq || e.reason == entry.reason;
      }
    case RunCommit(o, read) =>
    case _ =>
  }

  predicate AllAccounted(s: System) {
    (forall d | d in s.cells :: CellAccounted(s.cells[d])) && (forall a | a in s.actors :: PcAccounted(s.actors[a].pc))
  }

  lemma {:induction false} ExecuteKeepsAccounts(s: System, steps: seq<Step>)
    requires AllAccounted(s) && SpawnsAccounted(steps)
    ensures AllAccounted(Execute(s, steps))
    decreases |steps|
  {
    if steps != [] {
      assert steps[0] in steps;
      assert forall step | step in steps[1..] :: step in steps;
      if steps[0].Move? && steps[0].actor in s.actors {
        var actor := s.actors[steps[0].actor];
        AdvanceKeepsAccounts(CellOf(s, actor.doc), actor.pc);
      }
      ExecuteKeepsAccounts(Apply(s, steps[0]), steps[1..]);
    }
  }

  /** In every reachable state of a system whose runs end as runs do, no document is in
      ERROR and no dead letter is without a reason: the fallbacks of the outcome
      transaction are never taken. */
  lemma FallbacksAreNeverTaken(steps: seq<Step>, d: DocId)
    requires SpawnsAccounted(steps)
    ensures var c := CellOf(Execute(Init, steps), d);
            && (c.row.Some? ==> c.row.value.status in {Pending, Completed, InReview, Rejected, Cancelled})
            && (forall e | e in c.dlq :: e.reason != "UNKNOWN")
  {
    ExecuteKeepsAccounts(Init, steps);
    var c := CellOf(Execute(Init, steps), d);
    assert CellAccounted(c);
  }
}
