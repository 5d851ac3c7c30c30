/** Any number of reviewers at work on one review task: when their interleaved requests
    amount to the committed ones made one after another. */
module ReviewSerial {
  import opened Wrappers
  import opened JsonValues
  import opened Documents
  import opened Protocol
  import opened Invariant
  import opened NoSilentDrop
  import opened ReviewRaces

  /** A committed request: the action, the version it named, and whether it changed
      the review row. */
  datatype Entry = Entry(a: Action, expected: nat, changed: bool)

  predicate Reviewer(pc: Pc) {
    pc.Done? || InReviewing(pc)
  }

  predicate ReviewersOnly(l: Local) {
    forall pc | pc in l.pcs :: Reviewer(pc)
  }

  predicate CommitsAt(c: Cell, pc: Pc) {
    pc.ReviewCommit? && CommitReview(c, pc.rv, pc.ext, pc.doc, pc.a).Some?
  }

  /** The requests that commit during `turns`, in commit order. */
  function Committed(l: Local, turns: seq<nat>): seq<Entry>
    decreases |turns|
  {
    if turns == [] then []
    else
      var a := turns[0];
      var rest := Committed(Turn(l, a), turns[1..]);
      if a < |l.pcs| && CommitsAt(l.c, l.pcs[a]) then
        [Entry(l.pcs[a].a, l.pcs[a].rv.version, Decide(l.pcs[a].rv, l.pcs[a].a) != l.pcs[a].rv)] + rest
      else rest
  }

  /** One reviewer with the document to himself, from request to response. */
  function Alone(c: Cell, e: Entry): Cell {
    Interleave(Local(c, [ReviewRead(e.a, e.expected)]), [0, 0, 0, 0]).c
  }

  function InTurn(c: Cell, log: seq<Entry>): Cell
    decreases |log|
  {
    if log == [] then c else InTurn(Alone(c, log[0]), log[1..])
  }

  predicate SameDecision(c: Cell, c': Cell) {
    c.review == c'.review && c.row == c'.row && c.extraction == c'.extraction
  }

  /** A review task and document that agree: as the pipeline leaves them, and as every
      decision taken alone leaves them. */
  ghost predicate Settled(c: Cell) {
    && c.born && c.row.Some? && c.review.Some? && c.extraction.Some?
    && (Open(c.review.value.status) || c.row.value.status == StatusAfter(c.review.value.status))
    && (c.review.value.corrections.Some? ==>
          CorrectedExtraction(c.extraction, Correct(c.review.value.corrections.value)) == c.extraction)
  }

  function StatusAfter(s: ReviewStatus): Status {
    if s == Declined then Rejected else Completed
  }

  /** What a reviewer has read is present still, unless the review task has moved on. */
  ghost predicate ReaderOk(c: Cell, pc: Pc)
    requires c.review.Some?
  {
    match pc
    case ReviewReadExtraction(a, rv) =>
      && ValidAction(a) && rv.version <= c.review.value.version
      && (rv.version == c.review.value.version ==> rv == c.review.value)
    case ReviewReadDoc(a, rv, ext) =>
      && ValidAction(a) && rv.version <= c.review.value.version
      && (rv.version == c.review.value.version ==> rv == c.review.value && ext == c.extraction)
    case ReviewCommit(a, rv, ext, doc) =>
      && ValidAction(a) && rv.version <= c.review.value.version
      && (rv.version == c.review.value.version ==> rv == c.review.value && ext == c.extraction && doc == c.row)
    case _ => true
  }

  ghost predicate SerialInv(l: Local) {
    Settled(l.c) && ReviewersOnly(l) && forall pc | pc in l.pcs :: ReaderOk(l.c, pc)
  }

  lemma CorrectingTwiceIsCorrectingOnce(json: Fields, cs: Corrections)
    ensures ApplyCorrections(ApplyCorrections(json, cs), cs) == ApplyCorrections(json, cs)
  {
    var once := ApplyCorrections(json, cs);
    var twice := ApplyCorrections(once, cs);
    assert once.Keys == twice.Keys;
    assert forall k | k in once :: once[k] == twice[k];
  }

  /** The steps of a request made alone, at once. */
  lemma AloneAtOnce(c: Cell, e: Entry)
    ensures Alone(c, e) ==
            if c.review.Some? && c.review.value.version == e.expected && ValidAction(e.a) then
              Settle(c, CommitReview(c, c.review.value, c.extraction, c.row, e.a))
            else c
  {
    var l := Local(c, [ReviewRead(e.a, e.expected)]);
    FourTurns(l, 0);
    if c.review.Some? && c.review.value.version == e.expected && ValidAction(e.a) {
      WholeRequest(l, 0, e.a, e.expected);
    }
  }

  // ---- One commit -------------------------------------------------------------------

  /** Whether a request that commits has the effect it would have had alone, in terms of
      what it read and of the rows now. One that names a version the review task has left
      must find nothing to change: its document was read as decided so, and its corrections
      leave the extraction as read, or come out as it is now. One that names the present
      version must not take a document for decided that no longer is, and its corrections
      must come out on the extraction it read as they do on the present one. */
  predicate ActsAsAlone(c: Cell, pc: Pc) {
    && pc.ReviewCommit? && c.row.Some? && c.review.Some? && pc.doc.Some?
    && if c.review.value.version != pc.rv.version then
         && pc.doc.value.status == DecidedStatus(pc.a)
         && CorrectedExtraction(pc.ext, pc.a) in {pc.ext, c.extraction}
       else
         && (pc.doc.value.status == DecidedStatus(pc.a) ==> c.row.value.status == DecidedStatus(pc.a))
         && (if CorrectedExtraction(pc.ext, pc.a) == pc.ext then CorrectedExtraction(c.extraction, pc.a) == c.extraction
             else CorrectedExtraction(pc.ext, pc.a) == CorrectedExtraction(c.extraction, pc.a))
  }

  /** In every reachable state. */
  lemma SerialExactlyWhen(c: Cell, pc: Pc, changed: bool)
    requires CellInv(c) && ActorInv(c, pc) && c.review.Some? && CommitsAt(c, pc)
    ensures SameDecision(Advance(c, pc).0, Alone(c, Entry(pc.a, pc.rv.version, changed))) <==> ActsAsAlone(c, pc)
  {
    AloneAtOnce(c, Entry(pc.a, pc.rv.version, changed));
    StaleExactlyWhen(c, pc);
  }

  /** In a settled state only a stale re-decision fails to act as if alone. */
  lemma SerialExactlyWhenNotStale(c: Cell, pc: Pc, changed: bool)
    requires Settled(c) && ReaderOk(c, pc) && CommitsAt(c, pc)
    ensures SameDecision(Advance(c, pc).0, Alone(c, Entry(pc.a, pc.rv.version, changed))) <==> !StaleRedecision(c, pc)
  {
    AloneAtOnce(c, Entry(pc.a, pc.rv.version, changed));
  }

  /** Outside of one, staleness is not the whole condition: the acceptance that loses a
      rejection is no re-decision and still does not act as if alone. */
  lemma SettledIsNeeded(changed: bool)
    ensures CommitsAt(DeclinedAgain, LastCommit) && !StaleRedecision(DeclinedAgain, LastCommit)
    ensures !SameDecision(Advance(DeclinedAgain, LastCommit).0, Alone(DeclinedAgain, Entry(Accept, 3, changed)))
  {
    AloneAtOnce(DeclinedAgain, Entry(Accept, 3, changed));
  }

  // ---- Any interleaving -----------------------------------------------------------------

  ghost predicate ReviewInv(l: Local) {
    CellInv(l.c) && l.c.review.Some? && forall pc | pc in l.pcs :: Reviewer(pc) && ActorInv(l.c, pc)
  }

  /** It holds of any reviewers of a document in any state that a run of the system reaches. */
  lemma ReachedReviewers(steps: seq<Step>, d: DocId, actors: seq<ActorId>)
    requires var s := Execute(Init, steps);
             && CellOf(s, d).review.Some?
             && forall a | a in actors :: a in s.actors && s.actors[a].doc == d && Reviewer(s.actors[a].pc)
    ensures var s := Execute(Init, steps);
            ReviewInv(Local(CellOf(s, d), seq(|actors|, i requires 0 <= i < |actors| => s.actors[actors[i]].pc)))
  {
    ExecuteKeeps(Init, steps);
    var s := Execute(Init, steps);
    forall i | 0 <= i < |actors|
      ensures Reviewer(s.actors[actors[i]].pc) && ActorInv(CellOf(s, d), s.actors[actors[i]].pc)
    {
      assert actors[i] in actors;
    }
  }

  lemma TurnKeepsReviewInv(l: Local, a: nat)
    requires ReviewInv(l)
    ensures ReviewInv(Turn(l, a))
    ensures !(a < |l.pcs| && CommitsAt(l.c, l.pcs[a])) ==> Turn(l, a).c == l.c
  {
    if a < |l.pcs| {
      var pc := l.pcs[a];
      assert Reviewer(pc) && ActorInv(l.c, pc);
      StepKeeps(l.c, pc);
      var l' := Turn(l, a);
      forall b | b in l'.pcs
        ensures Reviewer(b) && ActorInv(l'.c, b)
      {
        if b in l.pcs {
          ActorsAreStable(l.c, l'.c, b);
        } else {
          assert b == Advance(l.c, pc).1;
        }
      }
    }
  }

  /** The rows in step with the committed requests made alone one after another, from c0
      on: now and after each of the turns. */
  predicate SerialThroughout(c0: Cell, l: Local, turns: seq<nat>)
    decreases |turns|
  {
    SameDecision(l.c, c0)
    && (turns != [] ==>
          var commits := turns[0] < |l.pcs| && CommitsAt(l.c, l.pcs[turns[0]]);
          SerialThroughout(if commits then Alone(c0, EntryOf(l.pcs[turns[0]])) else c0, Turn(l, turns[0]), turns[1..]))
  }

  function EntryOf(pc: Pc): Entry
    requires pc.ReviewCommit?
  {
    Entry(pc.a, pc.rv.version, Decide(pc.rv, pc.a) != pc.rv)
  }

  /** SerialThroughout says of each point of the interleaving that the rows are those of the
      log of the requests committed up to it. */
  ghost predicate SerialAtAllTimes(c0: Cell, l: Local, turns: seq<nat>) {
    forall n | 0 <= n <= |turns| :: SerialAfter(c0, l, turns, n)
  }

  predicate SerialAfter(c0: Cell, l: Local, turns: seq<nat>, n: nat)
    requires n <= |turns|
  {
    SameDecision(Interleave(l, turns[..n]).c, InTurn(c0, Committed(l, turns[..n])))
  }

  lemma SerialOneLater(c0: Cell, l: Local, turns: seq<nat>, n: nat)
    requires n < |turns|
    ensures var commits := turns[0] < |l.pcs| && CommitsAt(l.c, l.pcs[turns[0]]);
            var c1 := if commits then Alone(c0, EntryOf(l.pcs[turns[0]])) else c0;
            SerialAfter(c0, l, turns, n + 1) <==> SerialAfter(c1, Turn(l, turns[0]), turns[1..], n)
  {
    var a, rest := turns[0], turns[1..][..n];
    assert turns[..n + 1][0] == a && turns[..n + 1][1..] == rest;
    if a < |l.pcs| && CommitsAt(l.c, l.pcs[a]) {
      var log := Committed(l, turns[..n + 1]);
      assert log[0] == EntryOf(l.pcs[a]) && log[1..] == Committed(Turn(l, a), rest);
    }
  }

  lemma {:induction false} ThroughoutIsAtAllTimes(c0: Cell, l: Local, turns: seq<nat>)
    ensures SerialThroughout(c0, l, turns) <==> SerialAtAllTimes(c0, l, turns)
    decreases |turns|
  {
    assert SerialAfter(c0, l, turns, 0) <==> SameDecision(l.c, c0);
    if turns != [] {
      var commits := turns[0] < |l.pcs| && CommitsAt(l.c, l.pcs[turns[0]]);
      var c1 := if commits then Alone(c0, EntryOf(l.pcs[turns[0]])) else c0;
      forall n | 0 <= n < |turns|
        ensures SerialAfter(c0, l, turns, n + 1) <==> SerialAfter(c1, Turn(l, turns[0]), turns[1..], n)
      {
        SerialOneLater(c0, l, turns, n);
      }
      ThroughoutIsAtAllTimes(c1, Turn(l, turns[0]), turns[1..]);
      if SerialThroughout(c0, l, turns) {
        forall n | 0 <= n <= |turns| ensures SerialAfter(c0, l, turns, n) {
          assert n > 0 ==> SerialAfter(c1, Turn(l, turns[0]), turns[1..], n - 1);
        }
      }
      if SerialAtAllTimes(c0, l, turns) {
        forall n | 0 <= n <= |turns[1..]| ensures SerialAfter(c1, Turn(l, turns[0]), turns[1..], n) {
          assert SerialAfter(c0, l, turns, n + 1);
        }
      }
    }
  }

  /** No request that commits acts otherwise than alone. */
  predicate AllActAsAlone(l: Local, turns: seq<nat>)
    decreases |turns|
  {
    turns != [] ==>
      && (turns[0] < |l.pcs| && CommitsAt(l.c, l.pcs[turns[0]]) ==> ActsAsAlone(l.c, l.pcs[turns[0]]))
      && AllActAsAlone(Turn(l, turns[0]), turns[1..])
  }

  lemma {:induction false} ThroughoutExactlyWhen(c0: Cell, l: Local, turns: seq<nat>)
    requires ReviewInv(l) && SameDecision(l.c, c0)
    ensures SerialThroughout(c0, l, turns) <==> AllActAsAlone(l, turns)
    decreases |turns|
  {
    if turns != [] {
      var a := turns[0];
      TurnKeepsReviewInv(l, a);
      if a < |l.pcs| && CommitsAt(l.c, l.pcs[a]) {
        var e := EntryOf(l.pcs[a]);
        assert ActorInv(l.c, l.pcs[a]);
        SerialExactlyWhen(l.c, l.pcs[a], e.changed);
        AloneIgnoresTheRest(l.c, c0, e);
        if SameDecision(Turn(l, a).c, Alone(c0, e)) {
          ThroughoutExactlyWhen(Alone(c0, e), Turn(l, a), turns[1..]);
        }
      } else {
        ThroughoutExactlyWhen(c0, Turn(l, a), turns[1..]);
      }
    }
  }

  /** However any number of reviewers interleave, from any reachable state: the review task,
      the document row and the extraction are at all times as the requests committed so
      far would leave them, made one after another in commit order, if and only if each
      request that commits acts as if alone. */
  lemma ReviewersAreSerialExactlyWhen(l: Local, turns: seq<nat>)
    requires ReviewInv(l)
    ensures SerialAtAllTimes(l.c, l, turns) <==> AllActAsAlone(l, turns)
  {
    ThroughoutExactlyWhen(l.c, l, turns);
    ThroughoutIsAtAllTimes(l.c, l, turns);
  }

  // ---- Reviewers from a settled review task ------------------------------------------------

  /** A repeated decision at the current version changes nothing; a new one moves the version on. */
  lemma CommitKeepsSettled(c: Cell, pc: Pc)
    requires Settled(c) && ReaderOk(c, pc) && CommitsAt(c, pc) && !StaleRedecision(c, pc)
    ensures var c' := Advance(c, pc).0;
            && Settled(c')
            && (SameDecision(c', c) || c'.review.value.version == c.review.value.version + 1)
            && c'.review.value.version >= c.review.value.version
  {
    if pc.rv.version == c.review.value.version && pc.a.Correct? && c.extraction.value.json.Some? {
      CorrectingTwiceIsCorrectingOnce(c.extraction.value.json.value, pc.a.corrections);
    }
    if pc.rv.version == c.review.value.version && !pc.a.Correct? && c.review.value.corrections.Some? {
      assert CorrectedExtraction(c.extraction, pc.a) == c.extraction;
    }
  }

  lemma TurnKeepsSerial(l: Local, a: nat)
    requires SerialInv(l) && (a < |l.pcs| ==> !StaleRedecision(l.c, l.pcs[a]))
    ensures SerialInv(Turn(l, a))
    ensures !(a < |l.pcs| && CommitsAt(l.c, l.pcs[a])) ==> Turn(l, a).c == l.c
  {
    if a < |l.pcs| {
      var pc := l.pcs[a];
      assert Reviewer(pc) && ReaderOk(l.c, pc);
      if CommitsAt(l.c, pc) {
        CommitKeepsSettled(l.c, pc);
      }
      var l' := Turn(l, a);
      forall b | b in l'.pcs
        ensures Reviewer(b) && ReaderOk(l'.c, b)
      {
        assert b == Advance(l.c, pc).1 || b in l.pcs;
      }
    }
  }

  predicate NoStaleTurn(l: Local, turns: seq<nat>)
    decreases |turns|
  {
    turns != [] ==>
      && (turns[0] < |l.pcs| ==> !StaleRedecision(l.c, l.pcs[turns[0]]))
      && NoStaleTurn(Turn(l, turns[0]), turns[1..])
  }

  lemma {:induction false} SameDecisionStays(c: Cell, c': Cell, log: seq<Entry>)
    requires SameDecision(c, c')
    ensures SameDecision(InTurn(c, log), InTurn(c', log))
    decreases |log|
  {
    if log != [] {
      AloneIgnoresTheRest(c, c', log[0]);
      SameDecisionStays(Alone(c, log[0]), Alone(c', log[0]), log[1..]);
    }
  }

  lemma CommitIgnoresTheRest(c: Cell, c': Cell, rv: ReviewRow, ext: Option<Extraction>, doc: Option<DocRow>, a: Action)
    requires SameDecision(c, c')
    ensures SameDecision(Settle(c, CommitReview(c, rv, ext, doc, a)), Settle(c', CommitReview(c', rv, ext, doc, a)))
  {
  }

  lemma AloneIgnoresTheRest(c: Cell, c': Cell, e: Entry)
    requires SameDecision(c, c')
    ensures SameDecision(Alone(c, e), Alone(c', e))
  {
    AloneAtOnce(c, e);
    AloneAtOnce(c', e);
    if c.review.Some? {
      CommitIgnoresTheRest(c, c', c.review.value, c.extraction, c.row, e.a);
    }
  }

  /** Interleaved reviewers leave the review task, the document row and the extraction as
      the committed requests would have, made one after another in commit order. */
  lemma {:induction false} ReviewersAreSerial(l: Local, turns: seq<nat>)
    requires SerialInv(l) && NoStaleTurn(l, turns)
    ensures SameDecision(Interleave(l, turns).c, InTurn(l.c, Committed(l, turns)))
    decreases |turns|
  {
    if turns != [] {
      var a := turns[0];
      var l' := Turn(l, a);
      TurnKeepsSerial(l, a);
      ReviewersAreSerial(l', turns[1..]);
      if a < |l.pcs| && CommitsAt(l.c, l.pcs[a]) {
        var e := Committed(l, turns)[0];
        assert ReaderOk(l.c, l.pcs[a]);
        SerialExactlyWhenNotStale(l.c, l.pcs[a], e.changed);
        SameDecisionStays(l'.c, Alone(l.c, e), Committed(l', turns[1..]));
      }
    }
  }

  /** A review task the pipeline has just queued is settled, whoever is about to review it. */
  lemma QueuedTaskIsSettled(c: Cell, read: DocRow, o: Outcome)
    requires o.status == InReview && CommitOutcome(c, read, o).Some? && c.born
    requires OutcomeRow(read, o) != read
    ensures Settled(CommitOutcome(c, read, o).value)
  {
  }

  // ---- One row-changing action per version ---------------------------------------------

  lemma TurnNeverLowersVersion(l: Local, a: nat)
    requires ReviewersOnly(l) && l.c.review.Some?
    ensures var l' := Turn(l, a);
            && ReviewersOnly(l') && l'.c.review.Some?
            && l'.c.review.value.version >= l.c.review.value.version
            && (a < |l.pcs| && CommitsAt(l.c, l.pcs[a]) && Decide(l.pcs[a].rv, l.pcs[a].a) != l.pcs[a].rv ==>
                  l.pcs[a].rv.version == l.c.review.value.version < l'.c.review.value.version)
  {
    if a < |l.pcs| {
      assert Reviewer(l.pcs[a]);
      assert forall b | b in Turn(l, a).pcs :: b == Advance(l.c, l.pcs[a]).1 || b in l.pcs;
    }
  }

  lemma {:induction false} ChangesComeLater(l: Local, turns: seq<nat>)
    requires ReviewersOnly(l) && l.c.review.Some?
    ensures forall e | e in Committed(l, turns) && e.changed :: e.expected >= l.c.review.value.version
    decreases |turns|
  {
    if turns != [] {
      TurnNeverLowersVersion(l, turns[0]);
      ChangesComeLater(Turn(l, turns[0]), turns[1..]);
    }
  }

  predicate VersionsIncrease(log: seq<Entry>) {
    forall i, j | 0 <= i < j < |log| :: log[i].changed && log[j].changed ==> log[i].expected < log[j].expected
  }

  /** However reviewers interleave, stale or not, at most one committed request that
      changes the review row names any one version, and they commit in version order. */
  lemma {:induction false} OneChangePerVersion(l: Local, turns: seq<nat>)
    requires ReviewersOnly(l) && l.c.review.Some?
    ensures VersionsIncrease(Committed(l, turns))
    decreases |turns|
  {
    if turns != [] {
      var l' := Turn(l, turns[0]);
      TurnNeverLowersVersion(l, turns[0]);
      ChangesComeLater(l', turns[1..]);
      OneChangePerVersion(l', turns[1..]);
      var rest := Committed(l', turns[1..]);
      if turns[0] < |l.pcs| && CommitsAt(l.c, l.pcs[turns[0]]) {
        var pc := l.pcs[turns[0]];
        var log := [Entry(pc.a, pc.rv.version, Decide(pc.rv, pc.a) != pc.rv)] + rest;
        assert forall j | 0 < j < |log| :: log[j] == rest[j - 1] && log[j] in rest;
      }
    }
  }

  // ---- The race that is not serial -------------------------------------------------------

  lemma {:induction false} InTurnStaysSettled(c: Cell, log: seq<Entry>)
    requires Settled(c)
    ensures Settled(InTurn(c, log))
    decreases |log|
  {
    if log != [] {
      var e := log[0];
      AloneAtOnce(c, e);
      var pc := ReviewCommit(e.a, c.review.value, c.extraction, c.row);
      if ValidAction(e.a) && CommitsAt(c, pc) {
        CommitKeepsSettled(c, pc);
      }
      InTurnStaysSettled(Alone(c, e), log[1..]);
    }
  }

  /** With a stale re-decision the outcome is not serial: the review task is accepted and the
      document rejected, which no requests made one after another give. */
  lemma RaceIsNotSerial(log: seq<Entry>)
    ensures Settled(DeclinedOnce.c)
    ensures !SameDecision(Interleave(DeclinedOnce, RaceTurns).c, InTurn(DeclinedOnce.c, log))
  {
    Race();
    InTurnStaysSettled(DeclinedOnce.c, log);
  }
}
