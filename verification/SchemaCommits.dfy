/** What each transaction on schemas needs and writes, column by column. */
module SchemaCommits {
  import opened Wrappers
  import opened SchemaRegistry

  /** A name is taken once; a schema begins as a draft of version 1 without seeds. */
  lemma CreateWrites(t: Tables, id: SchemaId, name: string, d: Definition)
    ensures CommitCreate(t, id, name, d) ==
            if id in t.schemas || (exists other :: other in t.schemas && t.schemas[other].name == name) then None
            else Some(Tables(t.schemas[id := SchemaRow(name, d, Draft, 1, 0)], t.versions, t.documents))
  {
  }

  /** Reads need the row, and an upload an active one. */
  lemma StartedExactlyWhen(t: Tables, id: SchemaId, kind: Kind)
    ensures Started(t, id, kind).Some? <==> id in t.schemas && (kind.Ingest? ==> t.schemas[id].status == Active)
    ensures Started(t, id, kind).Some? ==>
              Started(t, id, kind).value ==
              match kind
              case Update(d) => Updating(id, d)
              case Seed => Seeding(id, t.schemas[id])
              case Activate => Activating(id, t.schemas[id])
              case Ingest => Ingesting(id, t.schemas[id])
  {
  }

  /** The number of the snapshot that an activation inserts. */
  function Numbered(read: SchemaRow): nat {
    match read.status
    case Draft => read.version
    case Active => read.version
    case Deprecated => read.version + 1
  }

  /** When a transaction commits: its schema is there, no row that would be active has fewer
      than three seeds, and an activation has read three seeds and finds its snapshot number free. */
  lemma CommittedExactlyWhen(t: Tables, x: Txn)
    ensures Committed(t, x).Some? <==>
              && x.id in t.schemas
              && var row := t.schemas[x.id];
                 match x
                 case Updating(_, _) => row.status == Active ==> row.seeds >= 3
                 case Seeding(_, read) => row.status == Active ==> read.seeds >= 2
                 case Activating(_, read) =>
                   && read.seeds >= 3
                   && (read.status != Active || row.status == Active ==> row.seeds >= 3)
                   && forall r | r in t.versions :: r.schema == x.id ==> r.version != Numbered(read)
                 case Ingesting(_, _) => true
  {
  }

  /** What it writes then. */
  lemma CommittedWrites(t: Tables, x: Txn)
    requires x.id in t.schemas && Committed(t, x).Some?
    ensures var row := t.schemas[x.id];
            Committed(t, x).value ==
            match x
            case Updating(_, d) =>
              Tables(t.schemas[x.id := SchemaRow(row.name, d, row.status, row.version, row.seeds)],
                     t.versions, t.documents)
            case Seeding(_, read) =>
              Tables(t.schemas[x.id := SchemaRow(row.name, row.definition, row.status, row.version, read.seeds + 1)],
                     t.versions, t.documents)
            case Activating(_, read) =>
              Tables(
                t.schemas[x.id := SchemaRow(
                  row.name, row.definition, if read.status == Active then row.status else Active,
                  if read.status == Deprecated then read.version + 1 else row.version, row.seeds)],
                t.versions + [VersionRow(x.id, Numbered(read), read.definition)],
                t.documents)
            case Ingesting(_, read) => Tables(t.schemas, t.versions, t.documents + [Pin(x.id, read.version)])
  {
  }

  /** A transaction that could start has read its row for good, and one that ends is gone,
      with its writes or without. */
  lemma TransactionsBeginAndEnd(s: State, x: TxnId, id: SchemaId, kind: Kind)
    ensures Step(s, Begin(x, id, kind)) ==
            if || x in s.pending || id !in s.tables.schemas
               || (kind.Ingest? && s.tables.schemas[id].status != Active) then s
            else State(s.tables, s.pending[x := Started(s.tables, id, kind).value])
    ensures x !in s.pending ==> Step(s, Commit(x)) == s
    ensures x in s.pending ==>
              var r := Committed(s.tables, s.pending[x]);
              Step(s, Commit(x)) == State(if r.Some? then r.value else s.tables, s.pending - {x})
  {
  }

  /** Only an active schema is deprecated, and nothing of it changes but its status. */
  lemma DeprecateWrites(s: State, id: SchemaId)
    ensures var t := s.tables;
            Step(s, Deprecate(id)) ==
            if id !in t.schemas || t.schemas[id].status != Active then s
            else
              var row := t.schemas[id];
              State(Tables(t.schemas[id := SchemaRow(row.name, row.definition, Deprecated, row.version, row.seeds)],
                           t.versions, t.documents), s.pending)
  {
  }
}
