/** Erasures that stop, are refused, run twice, or are driven again. */
module ErasureRedrive {
  import opened Wrappers
  import opened Documents
  import opened Protocol
  import opened Invariant
  import opened ErasureSafety

  // ---- Driven again -----------------------------------------------------------------------

  const Faultlessly := EraseRegister(Faults(false, false))

  /** One more erasure, with the document to itself and no delete raising, finishes the work
      of any that stopped or was refused before it, wherever that was: the rows and the
      blob are gone, the event is there, and so is no registry entry. */
  lemma RedriveCompletes(c: Cell)
    requires c.row.Some? && Keyed(c.row.value.storageKey)
    ensures Interleave(Local(c, [Faultlessly]), [0, 0, 0, 0, 0, 0, 0])
            == Local(CommitErasure(c).(registered := false, blob := false), [Done])
  {
    SevenTurns(Local(c, [Faultlessly]));
    var f := Faults(false, false);
    var cancelled := CommitCancel(c.(registered := true), c.row.value).value;
    FirstHalf(c);
    var past := Local(cancelled, [EraseBlob(f, c.row.value.storageKey)]);
    SecondHalf(past.c, c.row.value.storageKey);
    assert CommitErasure(cancelled).(registered := false) == CommitErasure(c).(registered := false);
  }

  lemma FirstHalf(c: Cell)
    requires c.row.Some?
    ensures var read := c.row.value;
            Turn(Turn(Turn(Local(c, [Faultlessly]), 0), 0), 0)
            == Local(CommitCancel(c.(registered := true), read).value,
                     [EraseBlob(Faults(false, false), read.storageKey)])
  {
    var f, c1 := Faults(false, false), c.(registered := true);
    assert Turn(Local(c, [Faultlessly]), 0) == Local(c1, [EraseRead(f)]);
    assert Turn(Local(c1, [EraseRead(f)]), 0) == Local(c1, [EraseCancel(f, c.row.value)]);
  }

  lemma SecondHalf(c: Cell, key: Option<string>)
    requires Keyed(key)
    ensures Turn(Turn(Turn(Turn(Local(c, [EraseBlob(Faults(false, false), key)]), 0), 0), 0), 0)
            == Local(CommitErasure(c).(registered := false, blob := false), [Done])
  {
    var f, c1 := Faults(false, false), c.(blob := false);
    assert Turn(Local(c, [EraseBlob(f, key)]), 0) == Local(c1, [ErasePurge(f, true)]);
    assert Turn(Local(c1, [ErasePurge(f, true)]), 0) == Local(c1, [EraseRows(true)]);
    assert Turn(Local(c1, [EraseRows(true)]), 0) == Local(CommitErasure(c1), [EraseClear(true)]);
  }

  lemma SevenTurns(l: Local)
    ensures Interleave(l, [0, 0, 0, 0, 0, 0, 0]) == Turn(Turn(Turn(Turn(Turn(Turn(Turn(l, 0), 0), 0), 0), 0), 0), 0)
  {
    var three := Turn(Turn(Turn(l, 0), 0), 0);
    assert [0, 0, 0, 0, 0, 0, 0] == [0, 0, 0] + [0, 0, 0, 0];
    InterleaveConcat(l, [0, 0, 0], [0, 0, 0, 0]);
    assert Interleave(l, [0, 0, 0]) == three by {
      assert [0, 0, 0][1..] == [0, 0] && [0, 0][1..] == [0] && [0][1..] == [];
    }
    assert Interleave(three, [0, 0, 0, 0]) == Turn(Turn(Turn(Turn(three, 0), 0), 0), 0) by {
      assert [0, 0, 0, 0] == [0, 0] + [0, 0];
      InterleaveConcat(three, [0, 0], [0, 0]);
      assert [0, 0][1..] == [0] && [0][1..] == [];
    }
  }

  // ---- Refused ------------------------------------------------------------------------------

  /** No erasure of d clears its entry, and the process does not restart. */
  predicate KeepsEntry(s: System, steps: seq<Step>, d: DocId)
    decreases |steps|
  {
    steps != [] ==>
      && !steps[0].Restart?
      && !(steps[0].Move? && steps[0].actor in s.actors && s.actors[steps[0].actor].doc == d
           && s.actors[steps[0].actor].pc.EraseClear?)
      && KeepsEntry(Apply(s, steps[0]), steps[1..], d)
  }

  lemma StepKeepsEntry(s: System, step: Step, d: DocId)
    requires CellOf(s, d).registered && KeepsEntry(s, [step], d)
    ensures CellOf(Apply(s, step), d).registered
    ensures forall a | a in Apply(s, step).actors && Apply(s, step).actors[a].doc == d
                       && Apply(s, step).actors[a].pc.RunCommit? ::
              a in s.actors && s.actors[a] == Apply(s, step).actors[a]
  {
    if step.Move? && step.actor in s.actors {
      var actor := s.actors[step.actor];
      if actor.doc == d {
        EntryPoints(CellOf(s, d), actor.pc);
        OnlyClearUnregisters(CellOf(s, d), actor.pc);
      }
    }
  }

  lemma OnlyClearUnregisters(c: Cell, pc: Pc)
    requires c.registered && !pc.EraseClear?
    ensures Advance(c, pc).0.registered
  {
  }

  /** While a registry entry stays, no run of the document gets to its outcome commit but
      those that were there already. */
  lemma {:induction false} EntryBlocksRuns(s: System, steps: seq<Step>, d: DocId)
    requires CellOf(s, d).registered && KeepsEntry(s, steps, d)
    ensures var s' := Execute(s, steps);
            && CellOf(s', d).registered
            && forall a | a in s'.actors && s'.actors[a].doc == d && s'.actors[a].pc.RunCommit? ::
                 a in s.actors && s.actors[a] == s'.actors[a]
    decreases |steps|
  {
    if steps != [] {
      assert KeepsEntry(s, [steps[0]], d) by {
        assert [steps[0]][1..] == [];
      }
      StepKeepsEntry(s, steps[0], d);
      EntryBlocksRuns(Apply(s, steps[0]), steps[1..], d);
    }
  }

  /** An erasure that is refused at its first commit, while the document is there, gives up
      and leaves its registry entry, and with it every later run without an outcome until
      some erasure of the document clears it or the process restarts. */
  lemma RefusedErasureBlocksRuns(before: seq<Step>, e: ActorId, after: seq<Step>)
    requires var s := Execute(Init, before);
             && e in s.actors && s.actors[e].pc.EraseCancel? && CellOf(s, s.actors[e].doc).row.Some?
             && CommitCancel(CellOf(s, s.actors[e].doc), s.actors[e].pc.read).None?
             && KeepsEntry(Apply(s, Move(e)), after, s.actors[e].doc)
    ensures var s := Execute(Init, before);
            var d, s1 := s.actors[e].doc, Apply(s, Move(e));
            var s' := Execute(s1, after);
            && s1.actors[e].pc == Done && CellOf(s1, d) == CellOf(s, d) && CellOf(s', d).registered
            && forall a | a in s'.actors && s'.actors[a].doc == d && s'.actors[a].pc.RunCommit? ::
                 a in s.actors && s.actors[a] == s'.actors[a]
  {
    var d := RefusedErasureStops(before, e);
    EntryBlocksRuns(Apply(Execute(Init, before), Move(e)), after, d);
  }

  lemma RefusedErasureStops(before: seq<Step>, e: ActorId) returns (d: DocId)
    requires var s := Execute(Init, before);
             && e in s.actors && s.actors[e].pc.EraseCancel? && CellOf(s, s.actors[e].doc).row.Some?
             && CommitCancel(CellOf(s, s.actors[e].doc), s.actors[e].pc.read).None?
    ensures var s := Execute(Init, before);
            var s1 := Apply(s, Move(e));
            && d == s.actors[e].doc && s1.actors == s.actors[e := Actor(d, Done)]
            && CellOf(s1, d) == CellOf(s, d) && CellOf(s1, d).registered
  {
    ExecuteKeeps(Init, before);
    var s := Execute(Init, before);
    d := s.actors[e].doc;
    assert ActorInv(CellOf(s, d), s.actors[e].pc) && CellInv(CellOf(s, d));
  }

  /** A run past its guard when an erasure registers and reads, and done before it commits. */
  const Failing := Outcome(Rejected, Some(LOW), None, [], None, Some("LOW_CONFIDENCE"))

  const Read := DocRow(2, Pending, None, None, Some("k"))

  const Refused := Local(
    UploadedCell.(
      row := Some(DocRow(3, Rejected, Some(LOW), None, Some("k"))),
      dlq := [DeadLetter("LOW_CONFIDENCE", DlqPending, 0)],
      audit := [PipelineFinished(Rejected)],
      registered := true),
    [Done, Done, EraseCancel(Faults(false, false), Read)])

  const Guarded := Local(UploadedCell, [Done, RunCommit(Failing, Read), Faultlessly])

  lemma RunPassesItsGuard()
    ensures Interleave(Local(UploadedCell, [Done] + [RunLoad(Failing), Faultlessly]), [1, 1, 1]) == Guarded
  {
  }

  lemma ErasureIsRefused()
    ensures Interleave(Guarded, [2, 2] + [1]) == Refused
  {
    var erasing := Local(UploadedCell.(registered := true),
                         [Done, RunCommit(Failing, Read), EraseCancel(Faults(false, false), Read)]);
    assert Interleave(Guarded, [2, 2]) == erasing;
    assert Interleave(erasing, [1]) == Refused;
    InterleaveConcat(Guarded, [2, 2], [1]);
  }

  lemma ComesToRefusal()
    ensures Interleave(Local(UploadedCell, [Done] + [RunLoad(Failing), Faultlessly]), [1, 1, 1] + ([2, 2] + [1]))
            == Refused
  {
    RunPassesItsGuard();
    ErasureIsRefused();
    InterleaveConcat(Local(UploadedCell, [Done] + [RunLoad(Failing), Faultlessly]), [1, 1, 1], [2, 2] + [1]);
  }

  /** A run of the system comes to such a refusal. */
  lemma RefusalIsReached()
    ensures exists steps, e ::
              var s := Execute(Init, steps);
              && e in s.actors && s.actors[e] == Actor(0, Refused.pcs[2])
              && CellOf(s, 0).row.Some? && CommitCancel(CellOf(s, 0), Read).None?
  {
    var others, turns := [RunLoad(Failing), Faultlessly], [1, 1, 1] + ([2, 2] + [1]);
    var cast := [IngestSave("k")] + others;
    Uploads(others);
    ComesToRefusal();
    InterleaveConcat(Local(EmptyCell, cast), [0, 0], turns);
    InterleavingsAreRuns(cast, [0, 0] + turns);
    var s := Execute(Init, Spawns(cast) + Moves([0, 0] + turns));
    assert s == Embed(Refused);
    assert s.actors[2] == Actor(0, Refused.pcs[2]) && CellOf(s, 0) == Refused.c;
  }

  // ---- How many events ------------------------------------------------------------------------

  function Tombstones(audit: seq<Event>): nat {
    if audit == [] then 0
    else Tombstones(audit[..|audit| - 1]) + if audit[|audit| - 1] == ErasureCompleted then 1 else 0
  }

  lemma OneMoreTombstone(audit: seq<Event>, e: Event)
    ensures Tombstones(audit + [e]) == Tombstones(audit) + if e == ErasureCompleted then 1 else 0
  {
    assert (audit + [e])[..|audit|] == audit;
  }

  lemma AuditGrowsByOne(c: Cell, pc: Pc)
    ensures var audit := Advance(c, pc).0.audit;
            || (audit == c.audit && !pc.EraseRows?)
            || (pc.EraseRows? && audit == c.audit + [ErasureCompleted])
            || (!pc.EraseRows? && |audit| == |c.audit| + 1 && audit == c.audit + [audit[|c.audit|]]
                && audit[|c.audit|] != ErasureCompleted)
  {
  }

  lemma TombstoneOfStep(c: Cell, pc: Pc)
    ensures Tombstones(Advance(c, pc).0.audit) == Tombstones(c.audit) + if pc.EraseRows? then 1 else 0
  {
    var audit := Advance(c, pc).0.audit;
    AuditGrowsByOne(c, pc);
    if audit != c.audit {
      OneMoreTombstone(c.audit, audit[|c.audit|]);
    }
  }

  /** An erasure of d deletes its rows. */
  predicate IsDelete(s: System, step: Step, d: DocId) {
    step.Move? && step.actor in s.actors && s.actors[step.actor].doc == d && s.actors[step.actor].pc.EraseRows?
  }

  /** An erasure of d reads it while it is there. */
  predicate IsRead(s: System, step: Step, d: DocId) {
    step.Move? && step.actor in s.actors && s.actors[step.actor].doc == d && s.actors[step.actor].pc.EraseRead?
    && CellOf(s, d).row.Some?
  }

  function Deletes(s: System, steps: seq<Step>, d: DocId): nat
    decreases |steps|
  {
    if steps == [] then 0
    else (if IsDelete(s, steps[0], d) then 1 else 0) + Deletes(Apply(s, steps[0]), steps[1..], d)
  }

  function Reads(s: System, steps: seq<Step>, d: DocId): nat
    decreases |steps|
  {
    if steps == [] then 0
    else (if IsRead(s, steps[0], d) then 1 else 0) + Reads(Apply(s, steps[0]), steps[1..], d)
  }

  lemma {:induction false} TombstonesGrowByDeletes(s: System, steps: seq<Step>, d: DocId)
    ensures Tombstones(CellOf(Execute(s, steps), d).audit) == Tombstones(CellOf(s, d).audit) + Deletes(s, steps, d)
    decreases |steps|
  {
    if steps != [] {
      if steps[0].Move? && steps[0].actor in s.actors {
        var actor := s.actors[steps[0].actor];
        TombstoneOfStep(CellOf(s, actor.doc), actor.pc);
      }
      TombstonesGrowByDeletes(Apply(s, steps[0]), steps[1..], d);
    }
  }

  /** The erasures of d that have read it and not deleted it yet. */
  function UnderWay(s: System, d: DocId): set<ActorId> {
    set a | a in s.actors && s.actors[a].doc == d && HasRead(s.actors[a].pc)
  }

  predicate HasRead(pc: Pc) {
    pc.EraseCancel? || pc.EraseBlob? || pc.ErasePurge? || pc.EraseRows?
  }

  lemma ReadingStage(c: Cell, pc: Pc)
    ensures HasRead(Advance(c, pc).1) ==> HasRead(pc) || (pc.EraseRead? && c.row.Some?)
    ensures pc.EraseRows? ==> !HasRead(Advance(c, pc).1)
  {
  }

  lemma UnderWayAfterMove(s: System, a: ActorId, d: DocId)
    requires a in s.actors
    ensures var s' := Apply(s, Move(a));
            UnderWay(s', d)
            == UnderWay(s, d) - {a} + if s.actors[a].doc == d && HasRead(s'.actors[a].pc) then {a} else {}
  {
  }

  /** One step: an erasure is under way only after it has read, and no more after it has
      deleted. */
  lemma UnderWayAfter(s: System, step: Step, d: DocId)
    ensures |UnderWay(Apply(s, step), d)| + (if IsDelete(s, step, d) then 1 else 0)
            <= |UnderWay(s, d)| + if IsRead(s, step, d) then 1 else 0
  {
    var s' := Apply(s, step);
    if step.Move? && step.actor in s.actors {
      var a := step.actor;
      ReadingStage(CellOf(s, s.actors[a].doc), s.actors[a].pc);
      UnderWayAfterMove(s, a, d);
      WithAndWithout(UnderWay(s, d), a);
      assert a in UnderWay(s, d) <==> s.actors[a].doc == d && HasRead(s.actors[a].pc);
      assert IsDelete(s, step, d) ==> a in UnderWay(s, d);
    } else {
      assert UnderWay(s', d) <= UnderWay(s, d);
      SubsetIsSmaller(UnderWay(s', d), UnderWay(s, d));
    }
  }

  lemma WithAndWithout(us: set<ActorId>, a: ActorId)
    ensures |us - {a} + {a}| == |us - {a}| + 1
    ensures us - {a} + {} == us - {a}
    ensures |us| == |us - {a}| + if a in us then 1 else 0
  {
    assert a in us ==> us == us - {a} + {a};
    assert a !in us ==> us == us - {a};
  }

  lemma {:induction false} DeletesAreRead(s: System, steps: seq<Step>, d: DocId)
    ensures Deletes(s, steps, d) <= |UnderWay(s, d)| + Reads(s, steps, d)
    decreases |steps|
  {
    if steps != [] {
      UnderWayAfter(s, steps[0], d);
      DeletesAreRead(Apply(s, steps[0]), steps[1..], d);
    }
  }

  /** The erasures of d that have not read it yet. */
  function YetToRead(s: System, d: DocId): set<ActorId> {
    set a | a in s.actors && s.actors[a].doc == d && WillRead(s.actors[a].pc)
  }

  predicate WillRead(pc: Pc) {
    pc.EraseRegister? || pc.EraseRead?
  }

  predicate IsErasure(step: Step, d: DocId) {
    step.Spawn? && step.doc == d && step.pc.EraseRegister?
  }

  /** The erasures of d that were asked for. */
  function Asked(steps: seq<Step>, d: DocId): nat {
    if steps == [] then 0 else (if IsErasure(steps[0], d) then 1 else 0) + Asked(steps[1..], d)
  }

  lemma ReadingIsOnce(c: Cell, pc: Pc)
    ensures WillRead(Advance(c, pc).1) ==> pc.EraseRegister?
  {
  }

  lemma YetToReadAfterMove(s: System, a: ActorId, d: DocId)
    requires a in s.actors
    ensures var s' := Apply(s, Move(a));
            YetToRead(s', d)
            == YetToRead(s, d) - {a} + if s.actors[a].doc == d && WillRead(s'.actors[a].pc) then {a} else {}
  {
  }

  lemma YetToReadAfterSpawn(s: System, a: ActorId, doc: DocId, pc: Pc, d: DocId)
    ensures var s' := Apply(s, Spawn(a, doc, pc));
            YetToRead(s', d)
            == YetToRead(s, d) + if a !in s.actors && doc == d && pc.EraseRegister? then {a} else {}
    ensures a !in s.actors ==> a !in YetToRead(s, d)
  {
  }

  lemma YetToReadAfter(s: System, step: Step, d: DocId)
    ensures |YetToRead(Apply(s, step), d)| + (if IsRead(s, step, d) then 1 else 0)
            <= |YetToRead(s, d)| + if IsErasure(step, d) then 1 else 0
  {
    var before := YetToRead(s, d);
    match step
    case Spawn(a, doc, pc) =>
      YetToReadAfterSpawn(s, a, doc, pc, d);
      if a !in s.actors {
        assert a !in before;
      }
      assert before + {} == before;
    case Restart => assert YetToRead(Apply(s, step), d) == {};
    case Move(a) =>
      if a in s.actors {
        ReadingIsOnce(CellOf(s, s.actors[a].doc), s.actors[a].pc);
        YetToReadAfterMove(s, a, d);
        WithAndWithout(before, a);
        assert a in before <==> s.actors[a].doc == d && WillRead(s.actors[a].pc);
      }
  }

  /** Each erasure reads at most once. */
  lemma {:induction false} ReadsAreAsked(s: System, steps: seq<Step>, d: DocId)
    ensures Reads(s, steps, d) <= |YetToRead(s, d)| + Asked(steps, d)
    decreases |steps|
  {
    if steps != [] {
      YetToReadAfter(s, steps[0], d);
      ReadsAreAsked(Apply(s, steps[0]), steps[1..], d);
    }
  }

  /** Over every run of the system a document has exactly as many ERASURE_COMPLETED events
      as erasures got to its row delete, at most as many as erasures read it while it was
      there, and those at most as many as were asked for: so a single one if a single erasure
      read it, however many there were. */
  lemma TombstonesAreDeletes(steps: seq<Step>, d: DocId)
    ensures var n := Tombstones(CellOf(Execute(Init, steps), d).audit);
            n == Deletes(Init, steps, d) && n <= Reads(Init, steps, d) <= Asked(steps, d)
  {
    TombstonesGrowByDeletes(Init, steps, d);
    DeletesAreRead(Init, steps, d);
    ReadsAreAsked(Init, steps, d);
    assert UnderWay(Init, d) == {} && YetToRead(Init, d) == {};
  }

  /** Two erasures that have both read the document, the second after the first cancelled it. */
  const TwoAtOnce := [IngestSave("k"), Faultlessly, Faultlessly]

  const BothPast := Local(
    UploadedCell.(row := Some(DocRow(3, Cancelled, None, None, Some("k"))), registered := true),
    [Done, EraseBlob(Faults(false, false), Some("k")), EraseBlob(Faults(false, false), Some("k"))])

  lemma BothGetPast()
    ensures Interleave(Local(EmptyCell, TwoAtOnce), [0, 0] + [1, 1, 1] + [2, 2, 2]) == BothPast
  {
    var start := Local(EmptyCell, TwoAtOnce);
    var uploaded := Local(UploadedCell, [Done, Faultlessly, Faultlessly]);
    Uploads([Faultlessly, Faultlessly]);
    assert TwoAtOnce == [IngestSave("k")] + [Faultlessly, Faultlessly];
    assert uploaded.pcs == [Done] + [Faultlessly, Faultlessly];
    var past := Local(BothPast.c, [Done, BothPast.pcs[1], Faultlessly]);
    assert Interleave(uploaded, [1, 1, 1]) == past;
    assert Interleave(past, [2, 2, 2]) == BothPast;
    InterleaveConcat(start, [0, 0], [1, 1, 1]);
    InterleaveConcat(start, [0, 0] + [1, 1, 1], [2, 2, 2]);
  }

  lemma BothDelete()
    ensures Interleave(BothPast, [1, 1, 1] + [2, 2, 2]).c.audit == [ErasureCompleted, ErasureCompleted]
  {
    var first := Interleave(BothPast, [1, 1, 1]);
    assert first == Local(CommitErasure(BothPast.c).(blob := false), [Done, EraseClear(true), BothPast.pcs[2]]);
    assert Interleave(first, [2, 2, 2]).c.audit == [ErasureCompleted] + [ErasureCompleted];
    InterleaveConcat(BothPast, [1, 1, 1], [2, 2, 2]);
  }

  /** So the event is not always single. */
  lemma TwoTombstones()
    ensures exists steps :: Tombstones(CellOf(Execute(Init, steps), 0).audit) == 2
  {
    var before, after := [0, 0] + [1, 1, 1] + [2, 2, 2], [1, 1, 1] + [2, 2, 2];
    BothGetPast();
    BothDelete();
    InterleaveConcat(Local(EmptyCell, TwoAtOnce), before, after);
    InterleavingsAreRuns(TwoAtOnce, before + after);
    OneMoreTombstone([ErasureCompleted], ErasureCompleted);
    assert [ErasureCompleted] + [ErasureCompleted] == [ErasureCompleted, ErasureCompleted];
    OneMoreTombstone([], ErasureCompleted);
    assert [] + [ErasureCompleted] == [ErasureCompleted];
    assert Tombstones(CellOf(Execute(Init, Spawns(TwoAtOnce) + Moves(before + after)), 0).audit) == 2;
  }
}
