/** The API-key cache under concurrent lookups: how old an answer can be. */
module KeyCache {
  import opened Wrappers

  datatype Context = Context(tenant: string, principal: string, scopes: seq<string>)

  /** A row of the key table as the resolving query returns it. */
  datatype KeyRow = KeyRow(context: Context, expiresAt: Option<real>, revoked: bool)

  /** A cached verdict; None is a cached refusal. `readAt` is when the database was read
      for it, kept for the argument only. */
  datatype Entry = Entry(expires: real, value: Option<Context>, readAt: real)

  datatype Settings = Settings(ttl: real, maxsize: nat)

  predicate Expired(expiresAt: Option<real>, now: real) {
    expiresAt.Some? && expiresAt.value <= now
  }

  function Verdict(row: Option<KeyRow>, now: real): Option<Context> {
    if row.None? || row.value.revoked || Expired(row.value.expiresAt, now) then None else Some(row.value.context)
  }

  // ---- The cache -------------------------------------------------------------------------

  predicate Fresh(data: map<string, Entry>, key: string, now: real) {
    key in data && now <= data[key].expires
  }

  /** An expired entry is dropped when it is asked for. */
  function AfterGet(data: map<string, Entry>, key: string, now: real): map<string, Entry> {
    if key in data && now > data[key].expires then data - {key} else data
  }

  /** A full cache is emptied before anything is stored. */
  function AfterSet(data: map<string, Entry>, key: string, e: Entry, maxsize: nat): map<string, Entry> {
    (if |data| >= maxsize then map[] else data)[key := e]
  }

  class TTLCache {
    const settings: Settings
    var data: map<string, Entry>

    constructor (settings: Settings)
      ensures this.settings == settings && data == map[]
    {
      this.settings := settings;
      data := map[];
    }

    method Get(key: string, now: real) returns (found: bool, value: Option<Context>)
      modifies `data
      ensures found <==> Fresh(old(data), key, now)
      ensures value == if found then old(data)[key].value else None
      ensures data == AfterGet(old(data), key, now)
    {
      if key !in data {
        return false, None;
      }
      var item := data[key];
      if now > item.expires {
        data := data - {key};
        return false, None;
      }
      return true, item.value;
    }

    method Set(key: string, value: Option<Context>, now: real, readAt: real)
      modifies `data
      ensures data == AfterSet(old(data), key, Entry(now + settings.ttl, value, readAt), settings.maxsize)
    {
      if |data| >= settings.maxsize {
        data := map[];
      }
      data := data[key := Entry(now + settings.ttl, value, readAt)];
    }
  }

  // ---- Concurrent lookups ------------------------------------------------------------------

  /** A lookup that missed, and one whose query has returned. */
  datatype Lookup = Missed(key: string) | Fetched(key: string, readAt: real, row: Option<KeyRow>)

  /** An answer given to a caller at `at`, from a read of the database at `readAt` that was
      stored at `storedAt`. */
  datatype Answer = Answer(key: string, value: Option<Context>, at: real, readAt: real, storedAt: real)

  datatype Service = Service(now: real, data: map<string, Entry>, lookups: map<nat, Lookup>, answers: seq<Answer>)

  datatype Move = Tick(dt: real) | Ask(id: nat, key: string) | Fetch(id: nat) | Finish(id: nat)

  /** What the database holds at each moment. */
  type Database = (string, real) -> Option<KeyRow>

  datatype World = World(db: Database, settings: Settings, latency: real)

  const Empty := Service(0.0, map[], map[], [])

  /** A lookup that has not finished within the latency never does. */
  function Step(w: World, s: Service, m: Move): Service {
    match m
    case Tick(dt) => if dt < 0.0 then s else s.(now := s.now + dt)
    case Ask(id, key) =>
      if id in s.lookups then s
      else if Fresh(s.data, key, s.now) then
        var e := s.data[key];
        s.(answers := s.answers + [Answer(key, e.value, s.now, e.readAt, e.expires - w.settings.ttl)])
      else
        s.(data := AfterGet(s.data, key, s.now), lookups := s.lookups[id := Missed(key)])
    case Fetch(id) =>
      if id !in s.lookups || !s.lookups[id].Missed? then s
      else
        var key := s.lookups[id].key;
        s.(lookups := s.lookups[id := Fetched(key, s.now, w.db(key, s.now))])
    case Finish(id) =>
      if id !in s.lookups || !s.lookups[id].Fetched? || s.now > s.lookups[id].readAt + w.latency then s
      else
        var l := s.lookups[id];
        var value := Verdict(l.row, s.now);
        s.(data := AfterSet(s.data, l.key, Entry(s.now + w.settings.ttl, value, l.readAt), w.settings.maxsize),
           lookups := s.lookups - {id},
           answers := s.answers + [Answer(l.key, value, s.now, l.readAt, s.now)])
  }

  function Serve(w: World, moves: seq<Move>): Service {
    if moves == [] then Empty else Step(w, Serve(w, moves[..|moves| - 1]), moves[|moves| - 1])
  }

  /** A verdict for the key that the database gave at `readAt`, stored by `storedAt`. */
  ghost predicate FromDatabase(w: World, key: string, value: Option<Context>, readAt: real, storedAt: real) {
    && value == Verdict(w.db(key, readAt), storedAt)
    && readAt <= storedAt <= readAt + w.latency
  }

  ghost predicate Honest(w: World, a: Answer) {
    && FromDatabase(w, a.key, a.value, a.readAt, a.storedAt)
    && a.storedAt <= a.at <= a.storedAt + w.settings.ttl
  }

  ghost predicate EntriesOk(w: World, data: map<string, Entry>, now: real) {
    forall k | k in data ::
      && FromDatabase(w, k, data[k].value, data[k].readAt, data[k].expires - w.settings.ttl)
      && data[k].expires - w.settings.ttl <= now
  }

  ghost predicate LookupsOk(w: World, s: Service) {
    forall id | id in s.lookups && s.lookups[id].Fetched? ::
      s.lookups[id].readAt <= s.now && s.lookups[id].row == w.db(s.lookups[id].key, s.lookups[id].readAt)
  }

  ghost predicate Inv(w: World, s: Service) {
    EntriesOk(w, s.data, s.now) && LookupsOk(w, s) && forall a | a in s.answers :: Honest(w, a)
  }

  lemma AskKeeps(w: World, s: Service, id: nat, key: string)
    requires w.settings.ttl >= 0.0 && Inv(w, s)
    ensures Inv(w, Step(w, s, Ask(id, key)))
  {
    var s' := Step(w, s, Ask(id, key));
    assert EntriesOk(w, AfterGet(s.data, key, s.now), s.now);
    assert forall a | a in s'.answers :: a in s.answers || a == s'.answers[|s'.answers| - 1];
  }

  lemma FinishKeeps(w: World, s: Service, id: nat)
    requires w.settings.ttl >= 0.0 && Inv(w, s)
    requires id in s.lookups && s.lookups[id].Fetched? && s.now <= s.lookups[id].readAt + w.latency
    ensures Inv(w, Step(w, s, Finish(id)))
  {
    var s' := Step(w, s, Finish(id));
    var l := s.lookups[id];
    var value := Verdict(l.row, s.now);
    assert FromDatabase(w, l.key, value, l.readAt, s.now);
    assert EntriesOk(w, s'.data, s.now);
    assert LookupsOk(w, s');
    assert forall a | a in s'.answers :: a in s.answers || a == Answer(l.key, value, s.now, l.readAt, s.now);
  }

  lemma StepKeeps(w: World, s: Service, m: Move)
    requires w.settings.ttl >= 0.0 && Inv(w, s)
    ensures Inv(w, Step(w, s, m))
  {
    match m
    case Ask(id, key) => AskKeeps(w, s, id, key);
    case Finish(id) =>
      if id in s.lookups && s.lookups[id].Fetched? && s.now <= s.lookups[id].readAt + w.latency {
        FinishKeeps(w, s, id);
      }
    case _ =>
  }

  lemma {:induction false} ServeKeeps(w: World, moves: seq<Move>)
    requires w.settings.ttl >= 0.0
    ensures Inv(w, Serve(w, moves))
  {
    if moves != [] {
      ServeKeeps(w, moves[..|moves| - 1]);
      StepKeeps(w, Serve(w, moves[..|moves| - 1]), moves[|moves| - 1]);
    }
  }

  /** Whatever lookups overlap, every answer given at time t comes from a database read for
      that very key, stored no earlier than t less the TTL: the context of its row if there
      was one that was neither revoked nor expired when it was stored, and else a refusal. */
  lemma AnswersAreHonest(w: World, moves: seq<Move>, a: Answer)
    requires w.settings.ttl >= 0.0 && a in Serve(w, moves).answers
    ensures var row := w.db(a.key, a.readAt);
            a.value == if row.Some? && !row.value.revoked
                          && (row.value.expiresAt.None? || a.storedAt < row.value.expiresAt.value)
                       then Some(row.value.context) else None
    ensures a.readAt <= a.storedAt && a.at - w.settings.ttl <= a.storedAt <= a.at
  {
    ServeKeeps(w, moves);
  }

  /** A key that the database no longer honours from some moment on is refused from then
      on, but for at most the TTL and one lookup's latency. */
  lemma RevokedKeysDie(w: World, moves: seq<Move>, a: Answer, revokedAt: real)
    requires w.settings.ttl >= 0.0 && a in Serve(w, moves).answers
    requires forall r: real | r >= revokedAt :: w.db(a.key, r).None? || w.db(a.key, r).value.revoked
    requires a.at >= revokedAt + w.latency + w.settings.ttl
    ensures a.value == None
  {
    ServeKeeps(w, moves);
    assert a.readAt >= revokedAt;
  }

  /** A key past its own expiry is accepted for at most the TTL. */
  lemma ExpiredKeysDie(w: World, moves: seq<Move>, a: Answer, expiry: real)
    requires w.settings.ttl >= 0.0 && a in Serve(w, moves).answers
    requires forall r: real ::
               var row := w.db(a.key, r);
               row.None? || (row.value.expiresAt.Some? && row.value.expiresAt.value <= expiry)
    requires a.at >= expiry + w.settings.ttl
    ensures a.value == None
  {
    ServeKeeps(w, moves);
  }

  /** A lookup that misses drops the entry, if any, and goes on to the database; one that
      hits is answered at once. It hits up to and with the moment of expiry. */
  lemma AskedIs(w: World, s: Service, id: nat, key: string)
    requires id !in s.lookups
    ensures var asked := Step(w, s, Ask(id, key));
            if key in s.data && s.now <= s.data[key].expires then
              var e := s.data[key];
              asked == s.(answers := s.answers + [Answer(key, e.value, s.now, e.readAt, e.expires - w.settings.ttl)])
            else asked == s.(data := s.data - {key}, lookups := s.lookups[id := Missed(key)])
  {
    if key !in s.data {
      assert s.data - {key} == s.data;
    }
  }

  /** What the row that was read says at `now`. */
  function Says(row: Option<KeyRow>, now: real): Option<Context> {
    if row.Some? && !row.value.revoked && (row.value.expiresAt.None? || now < row.value.expiresAt.value)
    then Some(row.value.context) else None
  }

  lemma SetStores(data: map<string, Entry>, key: string, e: Entry, maxsize: nat)
    ensures key in AfterSet(data, key, e, maxsize) && AfterSet(data, key, e, maxsize)[key] == e
  {
  }

  lemma FoundIs(w: World, s: Service, id: nat)
    requires id in s.lookups && s.lookups[id].Fetched? && s.now <= s.lookups[id].readAt + w.latency
    ensures var l := s.lookups[id];
            var found := Step(w, s, Finish(id));
            && found.now == s.now && found.lookups == s.lookups - {id}
            && found.answers == s.answers + [Answer(l.key, Says(l.row, s.now), s.now, l.readAt, s.now)]
            && l.key in found.data
            && found.data[l.key] == Entry(s.now + w.settings.ttl, Says(l.row, s.now), l.readAt)
  {
    var l := s.lookups[id];
    assert Verdict(l.row, s.now) == Says(l.row, s.now);
    SetStores(s.data, l.key, Entry(s.now + w.settings.ttl, Says(l.row, s.now), l.readAt), w.settings.maxsize);
  }

  /** What a lookup finds is the answer to every later one up to the TTL, without a read of
      the database, if no other lookup comes between; after it the entry is gone and the
      next lookup reads again. */
  lemma FoundForTtl(w: World, s: Service, id: nat, dt: real, next: nat)
    requires id in s.lookups && s.lookups[id].Fetched? && s.now <= s.lookups[id].readAt + w.latency
    requires dt >= 0.0 && (next !in s.lookups || next == id)
    ensures var l := s.lookups[id];
            var later := Step(w, Step(w, s, Finish(id)), Tick(dt));
            var asked := Step(w, later, Ask(next, l.key));
            if dt <= w.settings.ttl then
              asked == later.(
                answers := later.answers + [Answer(l.key, Says(l.row, s.now), s.now + dt, l.readAt, s.now)])
            else asked == later.(data := later.data - {l.key}, lookups := later.lookups[next := Missed(l.key)])
  {
    FoundIs(w, s, id);
    AskedIs(w, Step(w, Step(w, s, Finish(id)), Tick(dt)), next, s.lookups[id].key);
  }

  /** The cache never holds more than its maximum size, or one entry if that is 0. */
  lemma {:induction false} SizeIsBounded(w: World, moves: seq<Move>)
    ensures |Serve(w, moves).data| <= if w.settings.maxsize == 0 then 1 else w.settings.maxsize
  {
    if moves != [] {
      SizeIsBounded(w, moves[..|moves| - 1]);
      var s := Serve(w, moves[..|moves| - 1]);
      match moves[|moves| - 1]
      case Ask(id, key) =>
        var d := AfterGet(s.data, key, s.now);
        assert d.Keys <= s.data.Keys;
        SubsetIsSmaller(d.Keys, s.data.Keys);
      case Finish(id) =>
        if Step(w, s, Finish(id)) != s {
          var kept := if |s.data| >= w.settings.maxsize then map[] else s.data;
          var key := s.lookups[id].key;
          assert Step(w, s, Finish(id)).data.Keys == kept.Keys + {key};
        }
      case _ =>
    }
  }
}
