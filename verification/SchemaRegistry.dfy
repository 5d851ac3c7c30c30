/** Schemas, their version snapshots and the documents pinned to them, under
    transactions that overlap. The schemas table has no version column: only the
    unique snapshot numbers and the activation trigger hold it together. */
module SchemaRegistry {
  import opened Wrappers

  type SchemaId = nat
  type TxnId = nat

  datatype Lifecycle = Draft | Active | Deprecated

  datatype Definition = Definition(text: string)

  datatype SchemaRow = SchemaRow(name: string, definition: Definition, status: Lifecycle, version: nat, seeds: nat)

  datatype VersionRow = VersionRow(schema: SchemaId, version: nat, definition: Definition)

  /** A document and the schema version pinned on it. */
  datatype Pin = Pin(schema: SchemaId, version: nat)

  datatype Tables = Tables(schemas: map<SchemaId, SchemaRow>, versions: seq<VersionRow>, documents: seq<Pin>)

  const MIN_SEEDS := 3

  // ---- Commits -----------------------------------------------------------------------

  /** The trigger on the table: an active row has its seeds. */
  predicate TriggerAllows(row: SchemaRow) {
    row.status == Active ==> row.seeds >= MIN_SEEDS
  }

  predicate HasSnapshot(versions: seq<VersionRow>, id: SchemaId, version: nat) {
    exists r :: r in versions && r.schema == id && r.version == version
  }

  function CommitCreate(t: Tables, id: SchemaId, name: string, d: Definition): Option<Tables> {
    if id in t.schemas || (exists other :: other in t.schemas && t.schemas[other].name == name) then None
    else Some(t.(schemas := t.schemas[id := SchemaRow(name, d, Draft, 1, 0)]))
  }

  /** An update writes the columns it changed onto the row as it is now. */
  function CommitRow(t: Tables, id: SchemaId, row: SchemaRow): Option<Tables> {
    if id !in t.schemas || !TriggerAllows(row) then None
    else Some(t.(schemas := t.schemas[id := row]))
  }

  function CommitUpdate(t: Tables, id: SchemaId, d: Definition): Option<Tables> {
    if id !in t.schemas then None else CommitRow(t, id, t.schemas[id].(definition := d))
  }

  /** The count is worked out from the one that was read. */
  function CommitSeed(t: Tables, id: SchemaId, read: SchemaRow): Option<Tables> {
    if id !in t.schemas then None else CommitRow(t, id, t.schemas[id].(seeds := read.seeds + 1))
  }

  /** The version an activation snapshots: one more only when re-activating. */
  function ActivatedVersion(read: SchemaRow): nat {
    if read.status == Deprecated then read.version + 1 else read.version
  }

  function CommitActivate(t: Tables, id: SchemaId, read: SchemaRow): Option<Tables> {
    if id !in t.schemas || read.seeds < MIN_SEEDS || HasSnapshot(t.versions, id, ActivatedVersion(read)) then None
    else
      var row := t.schemas[id];
      var row' := row.(version := if read.status == Deprecated then read.version + 1 else row.version,
                       status := if read.status == Active then row.status else Active);
      var t' :- CommitRow(t, id, row');
      Some(t'.(versions := t.versions + [VersionRow(id, ActivatedVersion(read), read.definition)]))
  }

  function CommitIngest(t: Tables, id: SchemaId, read: SchemaRow): Option<Tables> {
    if id !in t.schemas then None else Some(t.(documents := t.documents + [Pin(id, read.version)]))
  }

  class SchemaTables {
    var schemas: map<SchemaId, SchemaRow>
    var versions: seq<VersionRow>
    var documents: seq<Pin>

    ghost function View(): Tables
      reads this
    {
      Tables(schemas, versions, documents)
    }

    method AddSeed(id: SchemaId, read: SchemaRow) returns (ok: bool)
      modifies `schemas
      ensures ok <==> CommitSeed(old(View()), id, read).Some?
      ensures View() == CommitSeed(old(View()), id, read).GetOr(old(View()))
    {
      if id !in schemas {
        return false;
      }
      var schema := schemas[id];
      schema := schema.(seeds := read.seeds + 1);
      if schema.status == Active && schema.seeds < MIN_SEEDS {
        return false;
      }
      schemas := schemas[id := schema];
      return true;
    }

    method Activate(id: SchemaId, read: SchemaRow) returns (ok: bool)
      modifies `schemas, `versions
      ensures ok <==> CommitActivate(old(View()), id, read).Some?
      ensures View() == CommitActivate(old(View()), id, read).GetOr(old(View()))
    {
      if id !in schemas || read.seeds < MIN_SEEDS {
        return false;
      }
      var schema, version := schemas[id], read.version;
      if read.status != Active {
        version := version + if read.status == Deprecated then 1 else 0;
        if read.status == Deprecated {
          schema := schema.(version := version);
        }
        schema := schema.(status := Active);
      }
      var taken := false;
      for i := 0 to |versions|
        invariant taken <==> exists k | 0 <= k < i :: versions[k].schema == id && versions[k].version == version
      {
        if versions[i].schema == id && versions[i].version == version {
          taken := true;
        }
      }
      assert taken <==> HasSnapshot(versions, id, version);
      if taken || (schema.status == Active && schema.seeds < MIN_SEEDS) {
        return false;
      }
      versions := versions + [VersionRow(id, version, read.definition)];
      schemas := schemas[id := schema];
      return true;
    }
  }

  // ---- Overlapping transactions -----------------------------------------------------------

  /** A transaction that has read its schema row and not yet committed. */
  datatype Txn =
    | Updating(id: SchemaId, definition: Definition)
    | Seeding(id: SchemaId, read: SchemaRow)
    | Activating(id: SchemaId, read: SchemaRow)
    | Ingesting(id: SchemaId, read: SchemaRow)

  datatype Kind = Update(definition: Definition) | Seed | Activate | Ingest

  datatype State = State(tables: Tables, pending: map<TxnId, Txn>)

  datatype Move =
    | Create(id: SchemaId, name: string, definition: Definition)
    | Begin(txn: TxnId, id: SchemaId, kind: Kind)
    | Commit(txn: TxnId)
    | Deprecate(id: SchemaId)

  const Empty := State(Tables(map[], [], []), map[])

  function Started(t: Tables, id: SchemaId, kind: Kind): Option<Txn> {
    if id !in t.schemas then None
    else
      match kind
      case Update(d) => Some(Updating(id, d))
      case Seed => Some(Seeding(id, t.schemas[id]))
      case Activate => Some(Activating(id, t.schemas[id]))
      case Ingest => if t.schemas[id].status == Active then Some(Ingesting(id, t.schemas[id])) else None
  }

  function Committed(t: Tables, x: Txn): Option<Tables> {
    match x
    case Updating(id, d) => CommitUpdate(t, id, d)
    case Seeding(id, read) => CommitSeed(t, id, read)
    case Activating(id, read) => CommitActivate(t, id, read)
    case Ingesting(id, read) => CommitIngest(t, id, read)
  }

  function Step(s: State, m: Move): State {
    match m
    case Create(id, name, d) => s.(tables := CommitCreate(s.tables, id, name, d).GetOr(s.tables))
    case Begin(x, id, kind) =>
      var txn := Started(s.tables, id, kind);
      if x in s.pending || txn.None? then s else s.(pending := s.pending[x := txn.value])
    case Commit(x) =>
      if x !in s.pending then s
      else State(Committed(s.tables, s.pending[x]).GetOr(s.tables), s.pending - {x})
    case Deprecate(id) =>
      if id !in s.tables.schemas || s.tables.schemas[id].status != Active then s
      else s.(tables := s.tables.(schemas := s.tables.schemas[id := s.tables.schemas[id].(status := Deprecated)]))
  }

  function After(s: State, moves: seq<Move>): State {
    if moves == [] then s else Step(After(s, moves[..|moves| - 1]), moves[|moves| - 1])
  }

  // ---- The invariant -----------------------------------------------------------------------

  /** The snapshot numbers of a schema, in the order they were inserted. */
  function Snapshots(versions: seq<VersionRow>, id: SchemaId): seq<nat> {
    if versions == [] then []
    else
      var last := versions[|versions| - 1];
      Snapshots(versions[..|versions| - 1], id) + if last.schema == id then [last.version] else []
  }

  function UpTo(n: nat): seq<nat> {
    seq(n, i requires 0 <= i < n => i + 1)
  }

  predicate SchemaOk(t: Tables, id: SchemaId)
    requires id in t.schemas
  {
    var row := t.schemas[id];
    && Snapshots(t.versions, id) == (if row.status == Draft then [] else UpTo(row.version))
    && row.version >= 1 && (row.status == Draft ==> row.version == 1)
    && TriggerAllows(row)
  }

  predicate ReadOk(t: Tables, id: SchemaId, read: SchemaRow) {
    && id in t.schemas
    && 1 <= read.version <= t.schemas[id].version
    && (read.status == Draft ==> read.version == 1)
    && (read.status != Draft ==> t.schemas[id].status != Draft)
  }

  predicate TxnOk(t: Tables, x: Txn) {
    match x
    case Updating(id, _) => id in t.schemas
    case Seeding(id, read) => ReadOk(t, id, read)
    case Activating(id, read) => ReadOk(t, id, read)
    case Ingesting(id, read) => ReadOk(t, id, read) && read.status == Active
  }

  predicate SchemasOk(t: Tables) {
    && (forall id | id in t.schemas :: SchemaOk(t, id))
    && (forall r | r in t.versions :: r.schema in t.schemas)
  }

  predicate PendingOk(t: Tables, pending: map<TxnId, Txn>) {
    forall x | x in pending :: TxnOk(t, pending[x])
  }

  predicate PinsOk(t: Tables) {
    forall p | p in t.documents :: HasSnapshot(t.versions, p.schema, p.version)
  }

  predicate Inv(s: State) {
    SchemasOk(s.tables) && PendingOk(s.tables, s.pending) && PinsOk(s.tables)
  }

  lemma {:induction false} SnapshotsAre(versions: seq<VersionRow>, id: SchemaId)
    ensures forall v :: v in Snapshots(versions, id) <==> HasSnapshot(versions, id, v)
  {
    if versions != [] {
      var n := |versions| - 1;
      SnapshotsAre(versions[..n], id);
      forall v ensures v in Snapshots(versions, id) <==> HasSnapshot(versions, id, v) {
        assert forall r :: r in versions <==> r in versions[..n] || r == versions[n];
        assert HasSnapshot(versions, id, v) <==>
               HasSnapshot(versions[..n], id, v) || (versions[n].schema == id && versions[n].version == v);
      }
    }
  }

  lemma UpToHas(n: nat, v: nat)
    ensures v in UpTo(n) <==> 1 <= v <= n
    ensures UpTo(n + 1) == UpTo(n) + [n + 1]
  {
    if 1 <= v <= n {
      assert UpTo(n)[v - 1] == v;
    }
  }

  /** The unique snapshot number stops every activation that read a stale row. */
  lemma ActivationWasCurrent(t: Tables, id: SchemaId, read: SchemaRow)
    requires id in t.schemas && SchemaOk(t, id) && ReadOk(t, id, read) && CommitActivate(t, id, read).Some?
    ensures read.status == Draft ==> t.schemas[id].status == Draft
    ensures read.status == Deprecated ==> t.schemas[id].version == read.version
    ensures read.status != Active
  {
    SnapshotsAre(t.versions, id);
    UpToHas(t.schemas[id].version, ActivatedVersion(read));
  }

  lemma ActivateKeeps(t: Tables, id: SchemaId, read: SchemaRow, other: SchemaId)
    requires id in t.schemas && SchemaOk(t, id) && ReadOk(t, id, read) && CommitActivate(t, id, read).Some?
    requires other in t.schemas && SchemaOk(t, other)
    ensures var t' := CommitActivate(t, id, read).value; other in t'.schemas && SchemaOk(t', other)
  {
    ActivationWasCurrent(t, id, read);
    var t' := CommitActivate(t, id, read).value;
    assert t'.versions[..|t.versions|] == t.versions;
    UpToHas(t.schemas[id].version, 1);
    assert UpTo(1) == [1];
  }

  /** Transactions that have read keep what they know: versions only grow, and no schema
      goes back to draft. */
  predicate Grows(t: Tables, t': Tables) {
    && t.versions <= t'.versions
    && forall id | id in t.schemas ::
         && id in t'.schemas && t.schemas[id].version <= t'.schemas[id].version
         && (t.schemas[id].status != Draft ==> t'.schemas[id].status != Draft)
  }

  lemma CommitGrows(t: Tables, x: Txn)
    requires SchemasOk(t) && TxnOk(t, x) && Committed(t, x).Some?
    ensures Grows(t, Committed(t, x).value) && Committed(t, x).value.schemas.Keys == t.schemas.Keys
  {
    if x.Activating? {
      ActivationWasCurrent(t, x.id, x.read);
    }
    assert Committed(t, x).value.schemas.Keys == t.schemas.Keys;
  }

  lemma CommitKeepsSchema(t: Tables, x: Txn, id: SchemaId)
    requires SchemasOk(t) && TxnOk(t, x) && Committed(t, x).Some? && id in t.schemas
    ensures var t' := Committed(t, x).value; id in t'.schemas && SchemaOk(t', id)
  {
    assert SchemaOk(t, id) && SchemaOk(t, x.id);
    if x.Activating? {
      ActivateKeeps(t, x.id, x.read, id);
    }
  }

  lemma CommitKeepsRows(t: Tables, x: Txn)
    requires Committed(t, x).Some? && x.id in t.schemas
    requires forall r | r in t.versions :: r.schema in t.schemas
    ensures forall r | r in Committed(t, x).value.versions :: r.schema in t.schemas
  {
    var versions := Committed(t, x).value.versions;
    if x.Activating? {
      assert versions == t.versions + [VersionRow(x.id, ActivatedVersion(x.read), x.read.definition)];
    } else {
      assert versions == t.versions;
    }
  }

  lemma CommitKeepsSchemas(t: Tables, x: Txn)
    requires SchemasOk(t) && TxnOk(t, x) && Committed(t, x).Some?
    ensures SchemasOk(Committed(t, x).value)
  {
    CommitGrows(t, x);
    CommitKeepsRows(t, x);
    forall id | id in t.schemas ensures SchemaOk(Committed(t, x).value, id) {
      CommitKeepsSchema(t, x, id);
    }
  }

  lemma TxnsStay(t: Tables, t': Tables, pending: map<TxnId, Txn>)
    requires Grows(t, t') && PendingOk(t, pending)
    ensures PendingOk(t', pending)
  {
    forall y | y in pending ensures TxnOk(t', pending[y]) {
      assert TxnOk(t, pending[y]);
    }
  }

  lemma PinsStay(t: Tables, t': Tables)
    requires t.versions <= t'.versions && PinsOk(t)
    ensures forall p | p in t.documents :: HasSnapshot(t'.versions, p.schema, p.version)
  {
    forall p | p in t.documents ensures HasSnapshot(t'.versions, p.schema, p.version) {
      var r :| r in t.versions && r.schema == p.schema && r.version == p.version;
      assert r in t'.versions;
    }
  }

  /** An ingest pins a version that was active when it was read, so it has a snapshot. */
  lemma PinnedHasSnapshot(t: Tables, id: SchemaId, read: SchemaRow)
    requires ReadOk(t, id, read) && SchemaOk(t, id) && read.status == Active
    ensures HasSnapshot(t.versions, id, read.version)
  {
    SnapshotsAre(t.versions, id);
    UpToHas(t.schemas[id].version, read.version);
  }

  lemma CommitPins(t: Tables, x: Txn)
    requires Committed(t, x).Some?
    ensures Committed(t, x).value.documents == t.documents + if x.Ingesting? then [Pin(x.id, x.read.version)] else []
    ensures x.Ingesting? ==> Committed(t, x).value.versions == t.versions
  {
  }

  lemma CommitKeepsPins(t: Tables, x: Txn)
    requires SchemasOk(t) && PinsOk(t) && TxnOk(t, x) && Committed(t, x).Some?
    ensures PinsOk(Committed(t, x).value)
  {
    var t' := Committed(t, x).value;
    CommitGrows(t, x);
    CommitPins(t, x);
    PinsStay(t, t');
    if x.Ingesting? {
      PinnedHasSnapshot(t, x.id, x.read);
    }
    forall p | p in t'.documents ensures HasSnapshot(t'.versions, p.schema, p.version) {
      assert p in t.documents || (x.Ingesting? && p == Pin(x.id, x.read.version));
    }
  }

  lemma CommitKeeps(s: State, x: TxnId)
    requires Inv(s) && x in s.pending
    ensures Inv(Step(s, Commit(x))) && Grows(s.tables, Step(s, Commit(x)).tables)
  {
    var txn := s.pending[x];
    assert TxnOk(s.tables, txn);
    if Committed(s.tables, txn).Some? {
      CommitGrows(s.tables, txn);
      CommitKeepsSchemas(s.tables, txn);
      CommitKeepsPins(s.tables, txn);
      TxnsStay(s.tables, Committed(s.tables, txn).value, s.pending - {x});
    }
  }

  lemma {:induction false} NoRowsNoSnapshots(versions: seq<VersionRow>, id: SchemaId)
    requires forall r | r in versions :: r.schema != id
    ensures Snapshots(versions, id) == []
  {
    if versions != [] {
      assert versions[|versions| - 1] in versions;
      assert forall r | r in versions[..|versions| - 1] :: r in versions;
      NoRowsNoSnapshots(versions[..|versions| - 1], id);
    }
  }

  lemma CreateKeeps(t: Tables, id: SchemaId, name: string, d: Definition)
    requires SchemasOk(t) && CommitCreate(t, id, name, d).Some?
    ensures var t' := CommitCreate(t, id, name, d).value; SchemasOk(t') && Grows(t, t') && t'.versions == t.versions
  {
    NoRowsNoSnapshots(t.versions, id);
    var t' := CommitCreate(t, id, name, d).value;
    forall i | i in t'.schemas ensures SchemaOk(t', i) {
      assert i != id ==> SchemaOk(t, i);
    }
  }

  lemma DeprecateKeeps(t: Tables, id: SchemaId)
    requires SchemasOk(t) && id in t.schemas && t.schemas[id].status == Active
    ensures var t' := t.(schemas := t.schemas[id := t.schemas[id].(status := Deprecated)]);
            SchemasOk(t') && Grows(t, t')
  {
    var t' := t.(schemas := t.schemas[id := t.schemas[id].(status := Deprecated)]);
    forall i | i in t'.schemas ensures SchemaOk(t', i) {
      assert SchemaOk(t, i);
    }
  }

  lemma BeginKeeps(t: Tables, id: SchemaId, kind: Kind)
    requires SchemasOk(t) && Started(t, id, kind).Some?
    ensures TxnOk(t, Started(t, id, kind).value)
  {
    assert SchemaOk(t, id);
  }

  lemma StepKeeps(s: State, m: Move)
    requires Inv(s)
    ensures Inv(Step(s, m)) && Grows(s.tables, Step(s, m).tables)
  {
    match m
    case Create(id, name, d) =>
      if CommitCreate(s.tables, id, name, d).Some? {
        CreateKeeps(s.tables, id, name, d);
        TxnsStay(s.tables, Step(s, m).tables, s.pending);
      }
    case Begin(x, id, kind) =>
      if Started(s.tables, id, kind).Some? {
        BeginKeeps(s.tables, id, kind);
      }
    case Commit(x) =>
      if x in s.pending {
        CommitKeeps(s, x);
      }
    case Deprecate(id) =>
      if id in s.tables.schemas && s.tables.schemas[id].status == Active {
        DeprecateKeeps(s.tables, id);
        TxnsStay(s.tables, Step(s, m).tables, s.pending);
      }
  }

  lemma {:induction false} AfterKeeps(s: State, moves: seq<Move>)
    requires Inv(s)
    ensures Inv(After(s, moves))
    ensures s.tables.versions <= After(s, moves).tables.versions
  {
    if moves != [] {
      AfterKeeps(s, moves[..|moves| - 1]);
      StepKeeps(After(s, moves[..|moves| - 1]), moves[|moves| - 1]);
    }
  }

  // ---- Main results -------------------------------------------------------------------------

  /** Over every interleaving of transactions, a schema that is no draft has snapshots of
      exactly the versions 1 to its current one, in order and without repeats, a draft
      has none, an active schema has its seeds, and every document's pinned version
      has a snapshot. */
  lemma SnapshotsAreTheVersions(moves: seq<Move>)
    ensures var t := After(Empty, moves).tables;
            && (forall id | id in t.schemas ::
                  && Snapshots(t.versions, id)
                     == (if t.schemas[id].status == Draft then [] else UpTo(t.schemas[id].version))
                  && (t.schemas[id].status == Active ==> t.schemas[id].seeds >= 3))
            && (forall p | p in t.documents :: HasSnapshot(t.versions, p.schema, p.version))
  {
    AfterKeeps(Empty, moves);
    var t := After(Empty, moves).tables;
    assert forall id | id in t.schemas :: SchemaOk(t, id);
  }

  /** The snapshot a document was pinned to is never rewritten: whatever happens to the
      schema later, the row is still there and is still the only one of its number. */
  lemma {:induction false} PinnedSnapshotIsStable(before: seq<Move>, after: seq<Move>, r: VersionRow)
    requires r in After(Empty, before).tables.versions
    ensures var t := After(After(Empty, before), after).tables;
            && r in t.versions
            && forall q | q in t.versions && q.schema == r.schema && q.version == r.version :: q == r
  {
    AfterKeeps(Empty, before);
    var s := After(Empty, before);
    AfterKeeps(s, after);
    var t := After(s, after).tables;
    assert SchemaOk(t, r.schema);
    NumbersAreUnique(t.versions, r.schema, t.schemas[r.schema].version);
  }

  lemma {:induction false} NumbersAreUnique(versions: seq<VersionRow>, id: SchemaId, n: nat)
    requires Snapshots(versions, id) == UpTo(n) || Snapshots(versions, id) == []
    ensures forall q, r | q in versions && r in versions && q.schema == r.schema == id && q.version == r.version ::
              q == r
  {
    if versions != [] {
      var k := |versions| - 1;
      assert forall r | r in versions :: r in versions[..k] || r == versions[k];
      if versions[k].schema == id {
        LastIsNext(versions, id, n);
        NumbersAreUnique(versions[..k], id, n - 1);
        SnapshotsAre(versions[..k], id);
        UpToHas(n - 1, n);
      } else {
        NumbersAreUnique(versions[..k], id, n);
      }
    }
  }

  lemma LastIsNext(versions: seq<VersionRow>, id: SchemaId, n: nat)
    requires versions != [] && versions[|versions| - 1].schema == id && Snapshots(versions, id) == UpTo(n)
    ensures n > 0 && versions[|versions| - 1].version == n && Snapshots(versions[..|versions| - 1], id) == UpTo(n - 1)
  {
    var init := Snapshots(versions[..|versions| - 1], id);
    assert Snapshots(versions, id)[|init|] == versions[|versions| - 1].version;
    assert init == Snapshots(versions, id)[..|init|];
  }
}
