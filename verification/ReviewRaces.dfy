/** Two runs in which a rejected document ends up with nothing beside it. */
module ReviewRaces {
  import opened Wrappers
  import opened Documents
  import opened Protocol
  import opened NoSilentDrop

  const Queued := Outcome(InReview, Some(MEDIUM), None, [], Some(map[]), None)

  function Document(version: nat, status: Status): Option<DocRow> {
    Some(DocRow(version, status, if status == Pending then None else Some(MEDIUM), None, Some("k")))
  }

  function Review(version: nat, status: ReviewStatus): Option<ReviewRow> {
    Some(ReviewRow(version, status, None, None))
  }

  /** The document after it was queued for review, in the hands of its reviewers. */
  function Reviewed(row: Option<DocRow>, review: Option<ReviewRow>, decisions: seq<Event>): Cell {
    Cell(true, row, Some(Extraction(Some(map[]))), review, [], [], [], [PipelineFinished(InReview)] + decisions,
        false, true)
  }

  const Declining := ReviewDecided(Reject(None))
  const Accepting := ReviewDecided(Accept)

  const Pipeline := [IngestSave("k"), RunLoad(Queued)]

  /** Any reviewers wait while the document is uploaded and queued. */
  lemma Queueing(reviewers: seq<Pc>)
    ensures Interleave(Local(EmptyCell, Pipeline + reviewers), [0, 0, 1, 1, 1, 1])
            == Local(Reviewed(Document(3, InReview), Review(1, Waiting), []), [Done, Done] + reviewers)
  {
    var start := Local(EmptyCell, Pipeline + reviewers);
    var uploaded := Local(UploadedCell, [Done, RunLoad(Queued)] + reviewers);
    Uploads([RunLoad(Queued)] + reviewers);
    assert Pipeline + reviewers == [IngestSave("k")] + ([RunLoad(Queued)] + reviewers);
    assert [Done, RunLoad(Queued)] + reviewers == [Done] + ([RunLoad(Queued)] + reviewers);
    var queued := Local(Reviewed(Document(3, InReview), Review(1, Waiting), []), [Done, Done] + reviewers);
    assert Interleave(uploaded, [1, 1, 1, 1]) == queued by {
      Running(uploaded, reviewers);
    }
    assert [0, 0, 1, 1, 1, 1] == [0, 0] + [1, 1, 1, 1];
    InterleaveConcat(start, [0, 0], [1, 1, 1, 1]);
  }

  lemma Running(l: Local, reviewers: seq<Pc>)
    requires l == Local(UploadedCell, [Done, RunLoad(Queued)] + reviewers)
    ensures Interleave(l, [1, 1, 1, 1])
            == Local(Reviewed(Document(3, InReview), Review(1, Waiting), []), [Done, Done] + reviewers)
  {
  }

  /** A whole request of reviewer a, from reading the review task to its commit. */
  lemma WholeRequest(l: Local, a: nat, action: Action, version: nat)
    requires a < |l.pcs| && l.pcs[a] == ReviewRead(action, version)
    requires l.c.review.Some? && l.c.review.value.version == version && ValidAction(action)
    ensures Interleave(l, [a, a, a, a])
            == Local(Settle(l.c, CommitReview(l.c, l.c.review.value, l.c.extraction, l.c.row, action)),
                l.pcs[a := Done])
  {
    FourTurns(l, a);
    ThreeReads(l, a, action, version);
    CommitTurn(Turn(Turn(Turn(l, a), a), a), a);
    assert l.pcs[a := ReviewCommit(action, l.c.review.value, l.c.extraction, l.c.row)][a := Done] == l.pcs[a := Done];
  }

  lemma CommitTurn(l: Local, a: nat)
    requires a < |l.pcs| && l.pcs[a].ReviewCommit?
    ensures var pc := l.pcs[a];
            Turn(l, a) == Local(Settle(l.c, CommitReview(l.c, pc.rv, pc.ext, pc.doc, pc.a)), l.pcs[a := Done])
  {
  }

  lemma ThreeReads(l: Local, a: nat, action: Action, version: nat)
    requires a < |l.pcs| && l.pcs[a] == ReviewRead(action, version)
    requires l.c.review.Some? && l.c.review.value.version == version && ValidAction(action)
    ensures Turn(Turn(Turn(l, a), a), a)
            == Local(l.c, l.pcs[a := ReviewCommit(action, l.c.review.value, l.c.extraction, l.c.row)])
  {
    var rv, ext := l.c.review.value, l.c.extraction;
    var l1, l2 := Local(l.c, l.pcs[a := ReviewReadExtraction(action, rv)]),
        Local(l.c, l.pcs[a := ReviewReadDoc(action, rv, ext)]);
    assert Turn(l, a) == l1;
    assert Turn(l1, a) == l2;
    assert Turn(l2, a).pcs == l.pcs[a := ReviewCommit(action, rv, ext, l.c.row)];
  }

  lemma FourTurns(l: Local, a: nat)
    ensures Interleave(l, [a, a, a, a]) == Turn(Turn(Turn(Turn(l, a), a), a), a)
  {
    var l1 := Turn(l, a);
    var l2 := Turn(l1, a);
    var l3 := Turn(l2, a);
    assert [a, a, a, a][1..] == [a, a, a] && [a, a, a][1..] == [a, a] && [a, a][1..] == [a] && [a][1..] == [];
    assert Interleave(l3, [a]) == Turn(l3, a);
    assert Interleave(l2, [a, a]) == Interleave(l3, [a]);
    assert Interleave(l1, [a, a, a]) == Interleave(l2, [a, a]);
  }

  const QueueTurns: seq<nat> := [0, 0, 1, 1, 1, 1]

  /** The first reviewer decides on the queued document. */
  lemma FirstDecision(reviewers: seq<Pc>, action: Action)
    requires |reviewers| > 0 && reviewers[0] == ReviewRead(action, 1) && ValidAction(action)
    ensures var c := Reviewed(Document(3, InReview), Review(1, Waiting), []);
            Interleave(Local(EmptyCell, Pipeline + reviewers), QueueTurns + [2, 2, 2, 2])
            == Local(Settle(c, CommitReview(c, c.review.value, c.extraction, c.row, action)),
                [Done, Done, Done] + reviewers[1..])
  {
    var start := Local(EmptyCell, Pipeline + reviewers);
    Queueing(reviewers);
    var l := Interleave(start, QueueTurns);
    FirstIsNext(reviewers);
    WholeRequest(l, 2, action, 1);
    InterleaveConcat(start, QueueTurns, [2, 2, 2, 2]);
  }

  lemma FirstIsNext(reviewers: seq<Pc>)
    requires |reviewers| > 0
    ensures var pcs := [Done, Done] + reviewers;
            pcs[2] == reviewers[0] && pcs[2 := Done] == [Done, Done, Done] + reviewers[1..]
  {
  }

  // ---- A repeated rejection over an acceptance ----------------------------------------

  /** A document is declined; a second reviewer repeats the rejection but, between reading
      the review task and reading the document, a third accepts it. */
  const FirstReviewers := [ReviewRead(Reject(None), 1), ReviewRead(Reject(None), 2), ReviewRead(Accept, 2)]

  const DeclinedOnce := Local(
    Reviewed(Document(4, Rejected), Review(2, Declined), [Declining]),
    [Done, Done, Done, ReviewRead(Reject(None), 2), ReviewRead(Accept, 2)])

  const RaceTurns: seq<nat> := [3] + [4, 4, 4, 4] + [3, 3, 3]

  lemma Race()
    ensures Interleave(DeclinedOnce, RaceTurns).c
            == Reviewed(Document(6, Rejected), Review(3, Accepted), [Declining, Accepting, Declining])
  {
    var l1 := DeclinedOnce.(pcs := DeclinedOnce.pcs[3 := ReviewReadExtraction(Reject(None),
        DeclinedOnce.c.review.value)]);
    assert Interleave(DeclinedOnce, [3]) == l1;
    WholeRequest(l1, 4, Accept, 2);
    var l2 := Interleave(l1, [4, 4, 4, 4]);
    assert l2.c == Reviewed(Document(5, Completed), Review(3, Accepted), [Declining, Accepting]);
    assert Interleave(l2, [3, 3, 3]).c
        == Reviewed(Document(6, Rejected), Review(3, Accepted), [Declining, Accepting, Declining]);
    InterleaveConcat(DeclinedOnce, [3], [4, 4, 4, 4]);
    InterleaveConcat(DeclinedOnce, [3] + [4, 4, 4, 4], [3, 3, 3]);
  }

  lemma RejectionCanBeLost()
    ensures exists steps :: !RejectionIsBacked(CellOf(Execute(Init, steps), 0))
  {
    var cast := Pipeline + FirstReviewers;
    var start := Local(EmptyCell, cast);
    var before := QueueTurns + [2, 2, 2, 2];
    FirstDecision(FirstReviewers, Reject(None));
    assert Interleave(start, before) == DeclinedOnce;
    InterleaveConcat(start, before, RaceTurns);
    Race();
    InterleavingsAreRuns(cast, before + RaceTurns);
    assert !RejectionIsBacked(CellOf(Execute(Init, Spawns(cast) + Moves(before + RaceTurns)), 0));
  }

  // ---- A current acceptance over a repeated rejection ------------------------------------

  /** A document is accepted. A reviewer repeats that, but between his reads another declines
      it; so the document is completed and its review task declined. A third reviewer reads
      both, and before he accepts, a fourth repeats the rejection. */
  const SecondReviewers :=
    [ReviewRead(Accept, 1), ReviewRead(Accept, 2), ReviewRead(Reject(None), 2), ReviewRead(Accept, 3),
        ReviewRead(Reject(None), 3)]

  const AcceptedOnce := Local(
    Reviewed(Document(4, Completed), Review(2, Accepted), [Accepting]),
    [Done, Done, Done, ReviewRead(Accept, 2), ReviewRead(Reject(None), 2), ReviewRead(Accept, 3),
        ReviewRead(Reject(None), 3)])

  /** The completed document with a declined review task that a stale acceptance leaves. */
  const AtOdds := Local(
    Reviewed(Document(6, Completed), Review(3, Declined), [Accepting, Declining, Accepting]),
    [Done, Done, Done, Done, Done, ReviewRead(Accept, 3), ReviewRead(Reject(None), 3)])

  const OddTurns: seq<nat> := [3] + [4, 4, 4, 4] + [3, 3, 3]

  lemma ComesToOdds()
    ensures Interleave(AcceptedOnce, OddTurns) == AtOdds
  {
    var l1 := AcceptedOnce.(pcs := AcceptedOnce.pcs[3 := ReviewReadExtraction(Accept, AcceptedOnce.c.review.value)]);
    assert Interleave(AcceptedOnce, [3]) == l1;
    WholeRequest(l1, 4, Reject(None), 2);
    var l2 := Interleave(l1, [4, 4, 4, 4]);
    assert l2.c == Reviewed(Document(5, Rejected), Review(3, Declined), [Accepting, Declining]);
    assert Interleave(l2, [3, 3, 3]) == AtOdds;
    InterleaveConcat(AcceptedOnce, [3], [4, 4, 4, 4]);
    InterleaveConcat(AcceptedOnce, [3] + [4, 4, 4, 4], [3, 3, 3]);
  }

  /** The last request of the run, about to commit, and the rows it finds. */
  const LastCommit := ReviewCommit(Accept, ReviewRow(3, Declined, None, None), Some(Extraction(Some(map[]))),
      Document(6, Completed))

  const DeclinedAgain := Reviewed(Document(7, Rejected), Review(3, Declined),
      [Accepting, Declining, Accepting, Declining])

  lemma LastReads()
    ensures Interleave(AtOdds, [5, 5, 5] + [6, 6, 6, 6])
            == Local(DeclinedAgain, [Done, Done, Done, Done, Done, LastCommit, Done])
  {
    var l := AtOdds.(pcs := AtOdds.pcs[5 := LastCommit]);
    assert Interleave(AtOdds, [5, 5, 5]) == l;
    WholeRequest(l, 6, Reject(None), 3);
    InterleaveConcat(AtOdds, [5, 5, 5], [6, 6, 6, 6]);
  }

  /** A run whose last commit leaves a backed rejection without its backing although it
      is no re-decision, let alone a stale one, and accepts the document. */
  lemma AcceptanceCanLoseRejection()
    ensures exists steps, a ::
              var s := Execute(Init, steps);
              && a in s.actors && s.actors[a] == Actor(0, LastCommit) && CellOf(s, 0) == DeclinedAgain
              && RejectionIsBacked(CellOf(s, 0)) && !StaleRedecision(CellOf(s, 0), LastCommit)
              && !RejectionIsBacked(CellOf(Apply(s, Move(a)), 0))
  {
    var steps := SecondRun();
    var s := Execute(Init, steps);
    LastCommitLoses();
    assert s.actors[5] == Actor(0, LastCommit);
    assert CellOf(Apply(s, Move(5)), 0) == Advance(DeclinedAgain, LastCommit).0;
  }

  lemma SecondRun() returns (steps: seq<Step>)
    ensures Execute(Init, steps) == Embed(Local(DeclinedAgain, [Done, Done, Done, Done, Done, LastCommit, Done]))
  {
    var cast := Pipeline + SecondReviewers;
    var start := Local(EmptyCell, cast);
    var first, last := QueueTurns + [2, 2, 2, 2], [5, 5, 5] + [6, 6, 6, 6];
    FirstDecision(SecondReviewers, Accept);
    assert Interleave(start, first) == AcceptedOnce;
    InterleaveConcat(start, first, OddTurns);
    ComesToOdds();
    InterleaveConcat(start, first + OddTurns, last);
    LastReads();
    InterleavingsAreRuns(cast, first + OddTurns + last);
    steps := Spawns(cast) + Moves(first + OddTurns + last);
  }

  lemma LastCommitLoses()
    ensures RejectionIsBacked(DeclinedAgain) && !StaleRedecision(DeclinedAgain, LastCommit)
    ensures !RejectionIsBacked(Advance(DeclinedAgain, LastCommit).0)
  {
  }
}
