/** The transactions as the services run them: assignments to fields, rows added in
    loops, and nothing kept when the flush is refused. Each method is tied to the
    commit function that the protocol steps use. */
module DocumentTables {
  import opened Wrappers
  import opened JsonValues
  import opened Documents
  import opened Protocol

  lemma NoneTaken(json: Fields, cs: Corrections)
    ensures ApplyCorrections(json, cs - cs.Keys) == json
  {
    assert cs - cs.Keys == map[];
  }

  lemma OneMoreTaken(json: Fields, cs: Corrections, left: set<string>, field: string)
    requires field in left && field in cs
    ensures var before := ApplyCorrections(json, cs - left);
            ApplyCorrections(json, cs - (left - {field}))
            == if "new" in cs[field] then before[field := cs[field]["new"]] else before
  {
  }

  /** The tables, cut down to one document id, with its cancellation entry and blob. */
  class Tables {
    var born: bool
    var row: Option<DocRow>
    var extraction: Option<Extraction>
    var review: Option<ReviewRow>
    var reports: seq<Report>
    var dlq: seq<DeadLetter>
    var deliveries: seq<Attempt>
    var audit: seq<Event>
    var registered: bool
    var blob: bool

    ghost function Rows(): Cell
      reads this
    {
      Cell(born, row, extraction, review, reports, dlq, deliveries, audit, registered, blob)
    }

    constructor ()
      ensures Rows() == EmptyCell
    {
      born, row, extraction, review := false, None, None, None;
      reports, dlq, deliveries, audit := [], [], [], [];
      registered, blob := false, false;
    }

    /** The UPDATE of a changed document object, checked against the version read. */
    method FlushDocument(read: DocRow, written: DocRow) returns (stale: bool)
      modifies `row
      ensures stale == FlushDoc(old(row), read, written).None?
      ensures row == if stale then old(row) else FlushDoc(old(row), read, written).value
    {
      stale := false;
      if written != read {
        if row.Some? && row.value.version == read.version {
          row := Some(written.(version := read.version + 1));
        } else {
          stale := true;
        }
      }
    }

    static method AddReports(rows: seq<Report>, reports: seq<Report>) returns (all: seq<Report>)
      ensures all == rows + reports
    {
      all := rows;
      for i := 0 to |reports|
        invariant all == rows + reports[..i]
      {
        all := all + [reports[i]];
      }
      assert reports[..|reports|] == reports;
    }

    /** The extraction, and the review task of a document that needs one. */
    method WriteExtraction(o: Outcome)
      modifies `extraction, `review
      ensures extraction == Some(Extraction(Some(o.extracted.GetOr(map[]))))
      ensures review == if o.status == InReview then Some(ReviewRow(1, Waiting, None, None)) else old(review)
    {
      extraction := Some(Extraction(Some(o.extracted.GetOr(map[]))));
      if o.status == InReview {
        review := Some(ReviewRow(1, Waiting, None, None));
      }
    }

    method PersistOutcome(read: DocRow, o: Outcome) returns (ok: bool)
      modifies `row, `reports, `extraction, `review, `dlq, `audit
      ensures ok <==> CommitOutcome(old(Rows()), read, o).Some?
      ensures Rows() == Settle(old(Rows()), CommitOutcome(old(Rows()), read, o))
    {
      var before := row;
      var document := read.(status := if Terminal(o.status) then o.status else Error);
      document := document.(routing := o.routing);
      if o.confidence.Some? {
        document := document.(confidence := o.confidence);
      }
      assert document == OutcomeRow(read, o);
      var stale := FlushDocument(read, document);
      if stale {
        return false;
      }

      var children := AddReports(reports, o.reports);
      var writes := o.status == Completed || o.status == InReview;
      var rejects := o.status == Rejected || o.status == Error;
      if (row.None? && (|children| > |reports| || writes || rejects))
         || (writes && extraction.Some?)
         || (o.status == InReview && review.Some?)
      {
        row := before;
        return false;
      }

      reports := children;
      if writes {
        WriteExtraction(o);
      } else if rejects {
        dlq := dlq + [DeadLetter(o.failureReason.GetOr("UNKNOWN"), DlqPending, 0)];
      }
      audit := audit + [PipelineFinished(document.status)];
      return true;
    }

    /** The loop of `_apply_corrections`, one field at a time in any order. */
    static method CorrectFields(json: Fields, cs: Corrections) returns (corrected: Fields)
      ensures corrected == ApplyCorrections(json, cs)
    {
      corrected := json;
      var left := cs.Keys;
      NoneTaken(json, cs);
      while left != {}
        invariant left <= cs.Keys
        invariant corrected == ApplyCorrections(json, cs - left)
        decreases left
      {
        var field :| field in left;
        OneMoreTaken(json, cs, left, field);
        if "new" in cs[field] {
          corrected := corrected[field := cs[field]["new"]];
        }
        left := left - {field};
      }
      assert cs - {} == cs;
    }

    /** The fields of the review task and the extraction after a decision. */
    static method AssignDecision(rv: ReviewRow, ext: Option<Extraction>, a: Action)
      returns (task: ReviewRow, result: Option<Extraction>)
      requires ValidAction(a)
      ensures task == Decide(rv, a) && result == CorrectedExtraction(ext, a)
    {
      task, result := rv, ext;
      match a {
        case Accept =>
          task := task.(status := Accepted);
        case Correct(corrections) =>
          task := task.(status := Corrected).(corrections := Some(corrections));
          if ext.Some? && ext.value.json.Some? {
            var json := CorrectFields(ext.value.json.value, corrections);
            result := Some(Extraction(Some(json)));
          }
        case Reject(reason) =>
          task := task.(status := Declined).(rejectionReason := reason);
      }
    }

    method ApplyAction(rv: ReviewRow, ext: Option<Extraction>, doc: Option<DocRow>, a: Action) returns (ok: bool)
      requires ValidAction(a)
      modifies `row, `extraction, `review, `audit
      ensures ok <==> CommitReview(old(Rows()), rv, ext, doc, a).Some?
      ensures Rows() == Settle(old(Rows()), CommitReview(old(Rows()), rv, ext, doc, a))
    {
      var task, result := AssignDecision(rv, ext, a);
      var current := task == rv || (review.Some? && review.value.version == rv.version);
      if !current || (result != ext && extraction.None?) {
        return false;
      }
      if doc.Some? {
        var document := doc.value.(status := if a.Reject? then Rejected else Completed);
        var stale := FlushDocument(doc.value, document);
        if stale {
          return false;
        }
      }
      if task != rv {
        review := Some(task.(version := rv.version + 1));
      }
      if result != ext {
        extraction := result;
      }
      audit := audit + [ReviewDecided(a)];
      return true;
    }

    method RetryDeadLetter(i: nat, entry: DeadLetter, doc: Option<DocRow>) returns (ok: bool)
      modifies `row, `dlq
      ensures ok <==> CommitRetry(old(Rows()), i, entry, doc).Some?
      ensures Rows() == Settle(old(Rows()), CommitRetry(old(Rows()), i, entry, doc))
    {
      if i >= |dlq| {
        return false;
      }
      if doc.Some? {
        var stale := FlushDocument(doc.value, doc.value.(status := Pending));
        if stale {
          return false;
        }
      }
      dlq := dlq[i := entry.(status := DlqRetrying, retryCount := entry.retryCount + 1)];
      return true;
    }

    method Cancel(read: DocRow) returns (ok: bool)
      modifies `row
      ensures ok <==> CommitCancel(old(Rows()), read).Some?
      ensures Rows() == Settle(old(Rows()), CommitCancel(old(Rows()), read))
    {
      var stale := FlushDocument(read, read.(status := Cancelled));
      return !stale;
    }

    method DeleteRows()
      modifies `row, `extraction, `review, `reports, `dlq, `deliveries, `audit
      ensures Rows() == CommitErasure(old(Rows()))
    {
      row := None;
      extraction, review := None, None;
      reports, dlq, deliveries := [], [], [];
      audit := audit + [ErasureCompleted];
    }
  }
}
