/** What a reviewer's decision writes, action by action. */
module Decisions {
  import opened Wrappers
  import opened JsonValues
  import opened Documents

  /** The extraction once corrections are in: each corrected field holds its new value, and
      every other field is as it was. */
  ghost predicate HoldsCorrections(before: Fields, after: Fields, cs: Corrections) {
    && (forall k | k in cs && "new" in cs[k] :: k in after && after[k] == cs[k]["new"])
    && (forall k | !(k in cs && "new" in cs[k]) :: k in after <==> k in before)
    && (forall k | k in before && !(k in cs && "new" in cs[k]) :: after[k] == before[k])
  }

  /** An acceptance that commits: the review task is accepted, nothing else of it changes, and
      the document is completed. */
  lemma AcceptanceWrites(c: Cell, rv: ReviewRow, ext: Option<Extraction>, doc: Option<DocRow>)
    requires CommitReview(c, rv, ext, doc, Accept).Some?
    ensures var c' := CommitReview(c, rv, ext, doc, Accept).value;
            && (if rv.status == Accepted then c'.review == c.review
                else c.review.Some? && c.review.value.version == rv.version
                     && c'.review == Some(ReviewRow(rv.version + 1, Accepted, rv.corrections, rv.rejectionReason)))
            && c'.extraction == c.extraction
            && DocumentBecomes(c, c', doc, Completed)
            && c'.audit == c.audit + [ReviewDecided(Accept)] && NothingElse(c, c')
  {
  }

  lemma RejectionWrites(c: Cell, rv: ReviewRow, ext: Option<Extraction>, doc: Option<DocRow>, reason: Option<string>)
    requires CommitReview(c, rv, ext, doc, Reject(reason)).Some?
    ensures var c' := CommitReview(c, rv, ext, doc, Reject(reason)).value;
            && (if rv.status == Declined && rv.rejectionReason == reason then c'.review == c.review
                else c.review.Some? && c.review.value.version == rv.version
                     && c'.review == Some(ReviewRow(rv.version + 1, Declined, rv.corrections, reason)))
            && c'.extraction == c.extraction
            && DocumentBecomes(c, c', doc, Rejected)
            && c'.audit == c.audit + [ReviewDecided(Reject(reason))] && NothingElse(c, c')
  {
  }

  lemma CorrectionWrites(c: Cell, rv: ReviewRow, ext: Option<Extraction>, doc: Option<DocRow>, cs: Corrections)
    requires CommitReview(c, rv, ext, doc, Correct(cs)).Some?
    ensures var c' := CommitReview(c, rv, ext, doc, Correct(cs)).value;
            && (if rv.status == Corrected && rv.corrections == Some(cs) then c'.review == c.review
                else c.review.Some? && c.review.value.version == rv.version
                     && c'.review == Some(ReviewRow(rv.version + 1, Corrected, Some(cs), rv.rejectionReason)))
            && ExtractionBecomes(c, c', ext, cs)
            && DocumentBecomes(c, c', doc, Completed)
            && c'.audit == c.audit + [ReviewDecided(Correct(cs))] && NothingElse(c, c')
  {
    if ext.Some? && ext.value.json.Some? {
      var json := ext.value.json.value;
      CorrectionsAreHeld(json, cs);
      if HoldsCorrections(json, json, cs) {
        CorrectionsAreUnique(json, json, ApplyCorrections(json, cs), cs);
      }
    }
  }

  lemma CorrectionsAreHeld(json: Fields, cs: Corrections)
    ensures HoldsCorrections(json, ApplyCorrections(json, cs), cs)
  {
  }

  lemma CorrectionsAreUnique(json: Fields, a: Fields, b: Fields, cs: Corrections)
    requires HoldsCorrections(json, a, cs) && HoldsCorrections(json, b, cs)
    ensures a == b
  {
    assert forall k :: k in a <==> k in b;
    assert forall k | k in a :: a[k] == b[k];
  }

  /** The document row: untouched if it was read in that status already, or else moved to it
      from the version that was read. */
  predicate DocumentBecomes(c: Cell, c': Cell, doc: Option<DocRow>, status: Status) {
    if doc.None? || doc.value.status == status then c'.row == c.row
    else
      && c.row.Some? && c.row.value.version == doc.value.version
      && c'.row == Some(DocRow(doc.value.version + 1, status, doc.value.routing, doc.value.confidence,
                               doc.value.storageKey))
  }

  /** The extraction: untouched if there was no record to correct or the corrections change
      nothing of it as read, or else what was read with the corrections in. */
  ghost predicate ExtractionBecomes(c: Cell, c': Cell, ext: Option<Extraction>, cs: Corrections) {
    if ext.None? || ext.value.json.None? || HoldsCorrections(ext.value.json.value, ext.value.json.value, cs) then
      c'.extraction == c.extraction
    else
      && c.extraction.Some? && c'.extraction.Some? && c'.extraction.value.json.Some?
      && HoldsCorrections(ext.value.json.value, c'.extraction.value.json.value, cs)
  }

  predicate NothingElse(c: Cell, c': Cell) {
    c'.(review := c.review, row := c.row, extraction := c.extraction, audit := c.audit) == c
  }

  /** The review task as read carries the decision already. */
  predicate Repeats(rv: ReviewRow, a: Action) {
    match a
    case Accept => rv.status == Accepted
    case Correct(cs) => rv.status == Corrected && rv.corrections == Some(cs)
    case Reject(reason) => rv.status == Declined && rv.rejectionReason == reason
    case Unknown(_) => true
  }

  /** A decision is refused when it changes a review task that has moved on or is gone, or
      a document that has, or when its corrections change an extraction that is gone; and in
      no other case. */
  lemma DecisionRefusedExactlyWhen(c: Cell, rv: ReviewRow, ext: Option<Extraction>, doc: Option<DocRow>, a: Action)
    requires ValidAction(a)
    ensures CommitReview(c, rv, ext, doc, a).None? <==>
              || (!Repeats(rv, a) && (c.review.None? || c.review.value.version != rv.version))
              || (doc.Some? && doc.value.status != (if a.Reject? then Rejected else Completed)
                  && (c.row.None? || c.row.value.version != doc.value.version))
              || (a.Correct? && ext.Some? && ext.value.json.Some? && c.extraction.None?
                  && !HoldsCorrections(ext.value.json.value, ext.value.json.value, a.corrections))
  {
    assert Repeats(rv, a) <==> Decide(rv, a) == rv;
    if a.Correct? && ext.Some? && ext.value.json.Some? {
      var json := ext.value.json.value;
      CorrectionsAreHeld(json, a.corrections);
      if HoldsCorrections(json, json, a.corrections) {
        CorrectionsAreUnique(json, json, ApplyCorrections(json, a.corrections), a.corrections);
      }
    }
  }

  /** Who is turned away: an empty correction, and an action that is none of the three. */
  lemma ValidExactlyWhen(a: Action)
    ensures ValidAction(a) <==> a == Accept || a.Reject? || (a.Correct? && |a.corrections| > 0)
  {
  }
}
