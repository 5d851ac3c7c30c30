/** The actors that share a document, one step between two awaits at a time, and
    the runs of the whole system. */
module Protocol {
  import opened Wrappers
  import opened Documents

  /** Where an actor stands, with what it has read so far. Everything the outside
      world decides (the answers of a run, a reviewer's choice, which external
      deletes raise) is fixed when the actor starts; an actor may stop for good
      between any two steps. */
  datatype Pc =
    | Done
    | IngestSave(key: string)
    | IngestCommit(key: string)
    | RunLoad(o: Outcome)
    | RunRead(o: Outcome)
    | RunGuard(o: Outcome, read: DocRow)
    | RunCommit(o: Outcome, read: DocRow)
    | HookRead(attempts: seq<Attempt>, delivered: bool)
    | HookCommit(attempts: seq<Attempt>, delivered: bool)
    | EraseRegister(faults: Faults)
    | EraseRead(faults: Faults)
    | EraseCancel(faults: Faults, read: DocRow)
    | EraseBlob(faults: Faults, blobKey: Option<string>)
    | ErasePurge(faults: Faults, blobGone: bool)
    | EraseRows(blobGone: bool)
    | EraseClear(blobGone: bool)
    | ReviewRead(a: Action, expected: nat)
    | ReviewReadExtraction(a: Action, rv: ReviewRow)
    | ReviewReadDoc(a: Action, rv: ReviewRow, ext: Option<Extraction>)
    | ReviewCommit(a: Action, rv: ReviewRow, ext: Option<Extraction>, doc: Option<DocRow>)
    | RetryRead(i: nat)
    | RetryReadDoc(i: nat, entry: DeadLetter)
    | RetryCommit(i: nat, entry: DeadLetter, doc: Option<DocRow>)

  /** Which deletes outside the database raise. */
  datatype Faults = Faults(blob: bool, checkpoints: bool)

  predicate Start(pc: Pc) {
    pc.IngestSave? || pc.RunLoad? || pc.HookRead? || pc.EraseRegister? || pc.ReviewRead? || pc.RetryRead?
  }

  /** A transaction that rolls back leaves the rows alone. */
  function Settle(c: Cell, result: Option<Cell>): Cell {
    result.GetOr(c)
  }

  function Advance(c: Cell, pc: Pc): (Cell, Pc) {
    match pc
    case Done => (c, Done)

    case IngestSave(key) => if c.born then (c, Done) else (c.(blob := true), IngestCommit(key))
    case IngestCommit(key) => (Settle(c, CommitIngest(c, key)), Done)

    case RunLoad(o) => (c, if c.row.Some? then RunRead(o) else Done)
    case RunRead(o) => (c, if c.row.Some? then RunGuard(o, c.row.value) else Done)
    case RunGuard(o, read) =>
      (c, if read.status in {Cancelled, Tombstone} || c.registered then Done else RunCommit(o, read))
    case RunCommit(o, read) => (Settle(c, CommitOutcome(c, read, o)), Done)

    case HookRead(attempts, delivered) => (c, if c.row.Some? then HookCommit(attempts, delivered) else Done)
    case HookCommit(attempts, delivered) => (Settle(c, CommitDelivery(c, attempts, delivered)), Done)

    case EraseRegister(f) => (c.(registered := true), EraseRead(f))
    case EraseRead(f) => (c, if c.row.Some? then EraseCancel(f, c.row.value) else Done)
    case EraseCancel(f, read) =>
      (match CommitCancel(c, read)
       case Some(c') => (c', EraseBlob(f, read.storageKey))
       case None => (c, Done))
    case EraseBlob(f, key) =>
      if key.GetOr("") == "" || f.blob then (c, ErasePurge(f, false))
      else (c.(blob := false), ErasePurge(f, true))
    case ErasePurge(f, gone) => (c, if f.checkpoints then Done else EraseRows(gone))
    case EraseRows(gone) => (CommitErasure(c), EraseClear(gone))
    case EraseClear(_) => (c.(registered := false), Done)

    case ReviewRead(a, expected) =>
      (c, if c.review.Some? && c.review.value.version == expected && ValidAction(a)
          then ReviewReadExtraction(a, c.review.value) else Done)
    case ReviewReadExtraction(a, rv) => (c, ReviewReadDoc(a, rv, c.extraction))
    case ReviewReadDoc(a, rv, ext) => (c, ReviewCommit(a, rv, ext, c.row))
    case ReviewCommit(a, rv, ext, doc) => (Settle(c, CommitReview(c, rv, ext, doc, a)), Done)

    case RetryRead(i) =>
      (c, if i < |c.dlq| && c.dlq[i].status == DlqPending then RetryReadDoc(i, c.dlq[i]) else Done)
    case RetryReadDoc(i, entry) => (c, RetryCommit(i, entry, c.row))
    case RetryCommit(i, entry, doc) => (Settle(c, CommitRetry(c, i, entry, doc)), Done)
  }

  // ---- The system -----------------------------------------------------------------

  type DocId = nat
  type ActorId = nat

  datatype Actor = Actor(doc: DocId, pc: Pc)

  datatype System = System(cells: map<DocId, Cell>, actors: map<ActorId, Actor>)

  datatype Step =
    | Spawn(actor: ActorId, doc: DocId, pc: Pc)
    | Move(actor: ActorId)
    | Restart

  const Init := System(map[], map[])

  function CellOf(s: System, d: DocId): Cell {
    if d in s.cells then s.cells[d] else EmptyCell
  }

  /** A step that is not possible leaves the system as it is. A restart loses the
      cancellation set and every actor in flight. */
  function Apply(s: System, step: Step): System {
    match step
    case Spawn(a, d, pc) =>
      if a in s.actors || !Start(pc) then s
      else System(s.cells[d := CellOf(s, d)], s.actors[a := Actor(d, pc)])
    case Move(a) =>
      if a !in s.actors then s
      else
        var actor := s.actors[a];
        var (c, pc) := Advance(CellOf(s, actor.doc), actor.pc);
        System(s.cells[actor.doc := c], s.actors[a := Actor(actor.doc, pc)])
    case Restart =>
      System(map d | d in s.cells :: s.cells[d].(registered := false), map[])
  }

  function Execute(s: System, steps: seq<Step>): System
    decreases |steps|
  {
    if steps == [] then s else Execute(Apply(s, steps[0]), steps[1..])
  }

  lemma {:induction false} ExecuteConcat(s: System, before: seq<Step>, after: seq<Step>)
    ensures Execute(s, before + after) == Execute(Execute(s, before), after)
    decreases |before|
  {
    if before == [] {
      assert before + after == after;
    } else {
      assert (before + after)[1..] == before[1..] + after;
      ExecuteConcat(Apply(s, before[0]), before[1..], after);
    }
  }

  // ---- Several actors on one document --------------------------------------------------

  datatype Local = Local(c: Cell, pcs: seq<Pc>)

  function Turn(l: Local, a: nat): Local {
    if a >= |l.pcs| then l
    else
      var (c, pc) := Advance(l.c, l.pcs[a]);
      Local(c, l.pcs[a := pc])
  }

  function Interleave(l: Local, turns: seq<nat>): Local
    decreases |turns|
  {
    if turns == [] then l else Interleave(Turn(l, turns[0]), turns[1..])
  }

  function Embed(l: Local): System {
    System(map[0 := l.c], map a: ActorId | a < |l.pcs| :: Actor(0, l.pcs[a]))
  }

  function Spawns(pcs: seq<Pc>): seq<Step> {
    seq(|pcs|, i requires 0 <= i < |pcs| => Spawn(i, 0, pcs[i]))
  }

  function Moves(turns: seq<nat>): seq<Step> {
    seq(|turns|, i requires 0 <= i < |turns| => Move(turns[i]))
  }

  lemma {:induction false} SpawnsReach(pcs: seq<Pc>)
    requires pcs != [] && forall pc | pc in pcs :: Start(pc)
    ensures Execute(Init, Spawns(pcs)) == Embed(Local(EmptyCell, pcs))
  {
    var n := |pcs| - 1;
    var last := Spawn(n, 0, pcs[n]);
    assert Spawns(pcs) == Spawns(pcs[..n]) + [last];
    ExecuteConcat(Init, Spawns(pcs[..n]), [last]);
    assert Execute(Init, Spawns(pcs)) == Apply(Execute(Init, Spawns(pcs[..n])), last) by {
      assert [last][1..] == [];
    }
    if n == 0 {
      assert Spawns(pcs[..n]) == [];
    } else {
      SpawnsReach(pcs[..n]);
    }
    assert Apply(Execute(Init, Spawns(pcs[..n])), last).actors == Embed(Local(EmptyCell, pcs)).actors;
  }

  lemma {:induction false} InterleaveConcat(l: Local, before: seq<nat>, after: seq<nat>)
    ensures Interleave(l, before + after) == Interleave(Interleave(l, before), after)
    decreases |before|
  {
    if before == [] {
      assert before + after == after;
    } else {
      assert (before + after)[1..] == before[1..] + after;
      InterleaveConcat(Turn(l, before[0]), before[1..], after);
    }
  }

  lemma {:induction false} MovesInterleave(l: Local, turns: seq<nat>)
    ensures Execute(Embed(l), Moves(turns)) == Embed(Interleave(l, turns))
    decreases |turns|
  {
    if turns != [] {
      assert Moves(turns)[1..] == Moves(turns[1..]);
      var s := Apply(Embed(l), Move(turns[0]));
      assert s.cells == Embed(Turn(l, turns[0])).cells && s.actors == Embed(Turn(l, turns[0])).actors;
      MovesInterleave(Turn(l, turns[0]), turns[1..]);
    }
  }

  /** Any interleaving of actors started on one fresh document is a run of the system. */
  lemma InterleavingsAreRuns(pcs: seq<Pc>, turns: seq<nat>)
    requires pcs != [] && forall pc | pc in pcs :: Start(pc)
    ensures Execute(Init, Spawns(pcs) + Moves(turns)) == Embed(Interleave(Local(EmptyCell, pcs), turns))
  {
    ExecuteConcat(Init, Spawns(pcs), Moves(turns));
    SpawnsReach(pcs);
    MovesInterleave(Local(EmptyCell, pcs), turns);
  }

  /** A document that has just been uploaded. */
  const UploadedCell := EmptyCell.(
    born := true, blob := true, row := Some(DocRow(2, Pending, None, None, Some("k"))))

  /** The upload, with which most runs begin, while the others wait. */
  lemma Uploads(others: seq<Pc>)
    ensures Interleave(Local(EmptyCell, [IngestSave("k")] + others), [0, 0]) == Local(UploadedCell, [Done] + others)
  {
    var saved := Local(EmptyCell.(blob := true), [IngestCommit("k")] + others);
    assert Turn(Local(EmptyCell, [IngestSave("k")] + others), 0) == saved;
    assert Turn(saved, 0) == Local(UploadedCell, [Done] + others);
    assert [0, 0][1..] == [0] && [0][1..] == [];
  }
}
