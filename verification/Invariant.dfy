/** What every step of every actor keeps, by rely and guarantee: a step may only
    evolve its document's rows, and no evolution spoils what another actor has
    read. */
module Invariant {
  import opened Wrappers
  import opened Documents
  import opened Protocol

  predicate Tombstoned(c: Cell) {
    ErasureCompleted in c.audit
  }

  predicate NoChildren(c: Cell) {
    c.extraction == None && c.review == None && c.reports == [] && c.dlq == [] && c.deliveries == []
  }

  ghost predicate CellInv(c: Cell) {
    && (c.row.Some? || Tombstoned(c) ==> c.born)
    && (c.born ==> (c.row.Some? <==> !Tombstoned(c)))
    && (c.row.None? ==> NoChildren(c))
    && (c.review.Some? ==> c.extraction.Some?)
    && (c.row.Some? && c.row.value.status == Completed ==> c.extraction.Some?)
    && (c.row.Some? && c.row.value.status == InReview ==> c.review.Some? && Open(c.review.value.status))
  }

  /** The only ways a document's rows change. */
  ghost predicate Evolves(c: Cell, c': Cell) {
    && (c.born ==> c'.born)
    && c.audit <= c'.audit
    && (c.born && c.row.None? ==> c'.row.None?)
    && (c.row.Some? && c'.row.Some? ==> c'.row == c.row || c'.row.value.version > c.row.value.version)
    && (c.review.Some? && c'.row.Some? ==>
          c'.review.Some? && (c'.review == c.review || c'.review.value.version > c.review.value.version))
    && (c.review.Some? && c.row.Some? && c'.row.Some? && c.row.value.status != InReview ==>
          c'.row.value.status != InReview)
    && (c.born && !c.blob ==> !c'.blob)
  }

  /** A document row read earlier is the present one or older. */
  ghost predicate DocRead(c: Cell, read: DocRow) {
    && c.born
    && (c.row.Some? ==> read.version <= c.row.value.version)
    && (c.row.Some? && read.version == c.row.value.version ==> read == c.row.value)
  }

  ghost predicate ReviewReadOk(c: Cell, rv: ReviewRow) {
    && c.born
    && (c.row.Some? ==> c.review.Some?)
    && (c.review.Some? ==> rv.version <= c.review.value.version)
    && (c.review.Some? && rv.version == c.review.value.version ==> rv == c.review.value)
  }

  /** From its registration to its row delete an erasure has the registry entry. */
  ghost predicate EntryStays(c: Cell) {
    c.registered || Tombstoned(c)
  }

  ghost predicate ActorInv(c: Cell, pc: Pc) {
    match pc
    case RunRead(_) => c.born
    case RunGuard(_, read) => DocRead(c, read)
    case RunCommit(_, read) => DocRead(c, read) && read.status !in {Cancelled, Tombstone}
    case HookCommit(_, _) => c.born
    case EraseRead(_) => EntryStays(c)
    case EraseCancel(_, read) => DocRead(c, read) && EntryStays(c)
    case EraseBlob(_, _) => c.born && EntryStays(c)
    case ErasePurge(_, gone) => c.born && EntryStays(c) && (gone ==> !c.blob)
    case EraseRows(gone) => c.born && EntryStays(c) && (gone ==> !c.blob)
    case EraseClear(gone) => Tombstoned(c) && c.born && (gone ==> !c.blob)
    case ReviewReadExtraction(a, rv) => ReviewReadOk(c, rv) && ValidAction(a)
    case ReviewReadDoc(a, rv, ext) => ReviewReadOk(c, rv) && ValidAction(a) && (ext.None? ==> c.row.None?)
    case ReviewCommit(a, rv, ext, doc) =>
      && ReviewReadOk(c, rv) && ValidAction(a)
      && (doc.None? ==> c.row.None?)
      && (doc.Some? ==> DocRead(c, doc.value))
      && (doc.Some? && doc.value.status != InReview && c.row.Some? ==> c.row.value.status != InReview)
      && (ext.None? ==> c.row.None?)
    case RetryReadDoc(_, _) => c.born
    case RetryCommit(_, _, doc) => c.born && (doc.Some? ==> DocRead(c, doc.value))
    case _ => true
  }

  // ---- One step -----------------------------------------------------------------

  /** A step keeps its document's invariant, evolves its rows, and leaves its actor
      with an invariant of its own. */
  ghost predicate GoodStep(c: Cell, pc: Pc) {
    var (c', pc') := Advance(c, pc);
    && CellInv(c') && Evolves(c, c') && ActorInv(c', pc')
    && (EntryStays(c) ==> EntryStays(c'))
  }

  lemma OutcomeCommitKeeps(c: Cell, o: Outcome, read: DocRow)
    requires CellInv(c) && ActorInv(c, RunCommit(o, read))
    ensures GoodStep(c, RunCommit(o, read))
  {
    var r := CommitOutcome(c, read, o);
    if r.Some? {
      assert forall e | e in r.value.audit :: e in c.audit || e == PipelineFinished(OutcomeRow(read, o).status);
      assert Tombstoned(r.value) == Tombstoned(c);
    }
  }

  lemma ReviewCommitKeeps(c: Cell, a: Action, rv: ReviewRow, ext: Option<Extraction>, doc: Option<DocRow>)
    requires CellInv(c) && ActorInv(c, ReviewCommit(a, rv, ext, doc))
    ensures GoodStep(c, ReviewCommit(a, rv, ext, doc))
  {
    var r := CommitReview(c, rv, ext, doc, a);
    if r.Some? {
      assert forall e | e in r.value.audit :: e in c.audit || e == ReviewDecided(a);
      assert Tombstoned(r.value) == Tombstoned(c);
    }
  }

  lemma ErasureKeeps(c: Cell, pc: Pc)
    requires CellInv(c) && ActorInv(c, pc)
    requires pc.EraseCancel? || pc.EraseRows?
    ensures GoodStep(c, pc)
  {
    var c' := CommitErasure(c);
    assert c'.audit[|c.audit|] == ErasureCompleted;
  }

  lemma DeliveryKeeps(c: Cell, pc: Pc)
    requires CellInv(c) && ActorInv(c, pc) && pc.HookCommit?
    ensures GoodStep(c, pc)
  {
    var r := CommitDelivery(c, pc.attempts, pc.delivered);
    if r.Some? {
      assert forall e | e in r.value.audit :: e in c.audit || e in {WebhookDelivered, WebhookExhausted};
      assert Tombstoned(r.value) == Tombstoned(c);
    }
  }

  lemma RetryKeeps(c: Cell, pc: Pc)
    requires CellInv(c) && ActorInv(c, pc) && pc.RetryCommit?
    ensures GoodStep(c, pc)
  {
  }

  predicate InErasure(pc: Pc) {
    || pc.EraseRegister? || pc.EraseRead? || pc.EraseCancel? || pc.EraseBlob? || pc.ErasePurge?
    || pc.EraseRows? || pc.EraseClear?
  }

  predicate InReviewing(pc: Pc) {
    pc.ReviewRead? || pc.ReviewReadExtraction? || pc.ReviewReadDoc? || pc.ReviewCommit?
  }

  lemma QuietErasureKeeps(c: Cell, pc: Pc)
    requires CellInv(c) && ActorInv(c, pc)
    requires InErasure(pc) && !pc.EraseCancel? && !pc.EraseRows?
    ensures GoodStep(c, pc)
  {
  }

  lemma ReviewReadKeeps(c: Cell, pc: Pc)
    requires CellInv(c) && ActorInv(c, pc)
    requires InReviewing(pc) && !pc.ReviewCommit?
    ensures GoodStep(c, pc)
  {
  }

  /** Runs, deliveries and retries up to their commits. */
  lemma ReadKeeps(c: Cell, pc: Pc)
    requires CellInv(c) && ActorInv(c, pc)
    requires pc.RunLoad? || pc.RunRead? || pc.RunGuard? || pc.HookRead? || pc.RetryRead? || pc.RetryReadDoc?
    ensures GoodStep(c, pc)
  {
  }

  lemma IngestKeeps(c: Cell, pc: Pc)
    requires CellInv(c) && ActorInv(c, pc)
    requires pc.Done? || pc.IngestSave? || pc.IngestCommit?
    ensures GoodStep(c, pc)
  {
  }

  lemma StepKeeps(c: Cell, pc: Pc)
    requires CellInv(c) && ActorInv(c, pc)
    ensures GoodStep(c, pc)
  {
    if pc.RunCommit? {
      OutcomeCommitKeeps(c, pc.o, pc.read);
    } else if pc.ReviewCommit? {
      ReviewCommitKeeps(c, pc.a, pc.rv, pc.ext, pc.doc);
    } else if pc.EraseCancel? || pc.EraseRows? {
      ErasureKeeps(c, pc);
    } else if pc.HookCommit? {
      DeliveryKeeps(c, pc);
    } else if pc.RetryCommit? {
      RetryKeeps(c, pc);
    } else if InErasure(pc) {
      QuietErasureKeeps(c, pc);
    } else if InReviewing(pc) {
      ReviewReadKeeps(c, pc);
    } else if pc.Done? || pc.IngestSave? || pc.IngestCommit? {
      IngestKeeps(c, pc);
    } else {
      ReadKeeps(c, pc);
    }
  }

  /** Nothing another actor has read is spoilt by a step. */
  lemma ActorsAreStable(c: Cell, c': Cell, pc: Pc)
    requires CellInv(c) && CellInv(c') && Evolves(c, c') && ActorInv(c, pc)
    requires EntryStays(c) ==> EntryStays(c')
    ensures ActorInv(c', pc)
  {
  }

  // ---- Every run -------------------------------------------------------------------

  ghost predicate Inv(s: System) {
    && (forall d | d in s.cells :: CellInv(s.cells[d]))
    && (forall a | a in s.actors :: ActorInv(CellOf(s, s.actors[a].doc), s.actors[a].pc))
    && (forall e, a | e in s.actors && a in s.actors :: NoFresher(s, e, a))
  }

  /** A run past its guard read no newer a row than an erasure of its document
      about to cancel it: the entry was there before the erasure read. */
  ghost predicate NoFresher(s: System, e: ActorId, a: ActorId)
    requires e in s.actors && a in s.actors
  {
    s.actors[e].doc == s.actors[a].doc && s.actors[e].pc.EraseCancel? && s.actors[a].pc.RunCommit?
    && CellOf(s, s.actors[a].doc).row.Some? ==>
      s.actors[a].pc.read.version <= s.actors[e].pc.read.version
  }

  /** How an actor comes to be at its outcome commit, or about to cancel. */
  lemma EntryPoints(c: Cell, pc: Pc)
    ensures var (c', pc') := Advance(c, pc);
            && (pc'.RunCommit? ==> pc.RunGuard? && pc.read == pc'.read && !c.registered && c' == c
                                   && pc'.read.status !in {Cancelled, Tombstone})
            && (pc'.EraseCancel? ==> pc.EraseRead? && c.row == Some(pc'.read) && c' == c)
  {
  }

  lemma MoveKeepsOrder(s: System, m: ActorId)
    requires Inv(s) && m in s.actors
    ensures var s' := Apply(s, Move(m));
            forall e, a | e in s'.actors && a in s'.actors :: NoFresher(s', e, a)
  {
    var s' := Apply(s, Move(m));
    var c := CellOf(s, s.actors[m].doc);
    EntryPoints(c, s.actors[m].pc);
    StepKeeps(c, s.actors[m].pc);
    forall e, a | e in s'.actors && a in s'.actors
      ensures NoFresher(s', e, a)
    {
      assert NoFresher(s, e, a);
    }
  }

  lemma MoveKeeps(s: System, m: ActorId)
    requires Inv(s) && m in s.actors
    ensures Inv(Apply(s, Move(m)))
    ensures Evolves(CellOf(s, s.actors[m].doc), CellOf(Apply(s, Move(m)), s.actors[m].doc))
  {
    var d := s.actors[m].doc;
    var c := CellOf(s, d);
    assert CellInv(c) && ActorInv(c, s.actors[m].pc);
    StepKeeps(c, s.actors[m].pc);
    var s' := Apply(s, Move(m));
    var c' := CellOf(s', d);
    forall b | b in s'.actors
      ensures ActorInv(CellOf(s', s'.actors[b].doc), s'.actors[b].pc)
    {
      if b != m && s.actors[b].doc == d {
        ActorsAreStable(c, c', s.actors[b].pc);
      }
    }
    MoveKeepsOrder(s, m);
  }

  /** Nobody starts past a guard or about to cancel. */
  lemma SpawnKeepsOrder(s: System, a: ActorId, d: DocId, pc: Pc)
    requires Inv(s)
    ensures var s' := Apply(s, Spawn(a, d, pc));
            forall e, b | e in s'.actors && b in s'.actors :: NoFresher(s', e, b)
  {
    var s' := Apply(s, Spawn(a, d, pc));
    forall e, b | e in s'.actors && b in s'.actors
      ensures NoFresher(s', e, b)
    {
      if e in s.actors && b in s.actors {
        assert NoFresher(s, e, b);
      }
    }
  }

  lemma SpawnKeeps(s: System, a: ActorId, d: DocId, pc: Pc)
    requires Inv(s)
    ensures Inv(Apply(s, Spawn(a, d, pc)))
    ensures forall e :: CellOf(Apply(s, Spawn(a, d, pc)), e) == CellOf(s, e)
  {
    SpawnKeepsOrder(s, a, d, pc);
  }

  lemma RestartKeeps(s: System)
    requires Inv(s)
    ensures Inv(Apply(s, Restart))
    ensures forall d :: CellOf(Apply(s, Restart), d) == CellOf(s, d).(registered := false)
  {
  }

  lemma ApplyKeeps(s: System, step: Step)
    requires Inv(s)
    ensures Inv(Apply(s, step))
    ensures forall d :: Evolves(CellOf(s, d), CellOf(Apply(s, step), d))
  {
    match step
    case Spawn(a, d, pc) => SpawnKeeps(s, a, d, pc);
    case Restart => RestartKeeps(s);
    case Move(a) =>
      if a in s.actors {
        MoveKeeps(s, a);
      }
  }

  lemma EvolvesIsTransitive(c0: Cell, c1: Cell, c2: Cell)
    requires CellInv(c0) && CellInv(c1) && CellInv(c2)
    requires Evolves(c0, c1) && Evolves(c1, c2)
    ensures Evolves(c0, c2)
  {
  }

  /** The invariant holds at the end of every run, and every document has evolved. */
  lemma {:induction false} ExecuteKeeps(s: System, steps: seq<Step>)
    requires Inv(s)
    ensures Inv(Execute(s, steps))
    ensures forall d :: Evolves(CellOf(s, d), CellOf(Execute(s, steps), d))
    decreases |steps|
  {
    if steps != [] {
      var s1 := Apply(s, steps[0]);
      ApplyKeeps(s, steps[0]);
      ExecuteKeeps(s1, steps[1..]);
      forall d ensures Evolves(CellOf(s, d), CellOf(Execute(s, steps), d)) {
        EvolvesIsTransitive(CellOf(s, d), CellOf(s1, d), CellOf(Execute(s, steps), d));
      }
    }
  }
}
