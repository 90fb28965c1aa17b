/** The distributed lease of pkg/lease: three conditional writes on one table row,
    issued by many clients whose clocks differ, with requests in flight and a TTL
    sweeper at work.  Times are integers in nanoseconds; stored times are in whole
    seconds, as the manager truncates them. */
module Lease {
  import opened Wrappers

  const NS: int := 1_000_000_000

  type Token = string
  type Call = nat

  datatype Key = Key(pk: string, sk: string)

  datatype LeaseRecord = LeaseRecord(key: Key, token: Token, expiresAt: int)

  /** The row behind one lock: the token, the expiry second and the optional TTL second. */
  datatype Row = Row(token: Token, expiresAt: int, ttl: Option<int>)

  type Table = map<Key, Row>

  /** The part of the manager's configuration that decides what is written. */
  datatype Config = Config(ttlBuffer: int, includeTTL: bool, ttlAttr: string, validateInput: bool)

  datatype Error = InvalidKey | InvalidToken | InvalidDuration | LeaseHeld | LeaseNotOwned

  datatype Result<T> = Ok(value: T) | Err(error: Error)

  /** time.Time.Unix: the second a time falls in (Dafny's division by a positive number floors). */
  function Unix(t: int): (s: int)
    ensures s * 1_000_000_000 <= t < (s + 1) * 1_000_000_000
  {
    t / NS
  }

  function ExpiryOf(now: int, duration: int): int {
    Unix(now + duration)
  }

  predicate WritesTTL(cfg: Config) {
    cfg.includeTTL && cfg.ttlBuffer > 0 && cfg.ttlAttr != ""
  }

  function TTLFor(cfg: Config, expiresAt: int): Option<int> {
    if WritesTTL(cfg) then Some(expiresAt + cfg.ttlBuffer / NS) else None
  }

  // ----- the three conditional writes, as the table performs them atomically

  /** attribute_not_exists(pk) OR expires_at <= :now */
  predicate MayAcquire(rows: Table, key: Key, now: int) {
    key !in rows || rows[key].expiresAt <= Unix(now)
  }

  /** token = :token AND expires_at > :now */
  predicate MayRefresh(rows: Table, lease: LeaseRecord, now: int) {
    lease.key in rows && rows[lease.key].token == lease.token && rows[lease.key].expiresAt > Unix(now)
  }

  /** token = :token */
  predicate MayRelease(rows: Table, lease: LeaseRecord) {
    lease.key in rows && rows[lease.key].token == lease.token
  }

  function Acquired(cfg: Config, rows: Table, lease: LeaseRecord): Table {
    rows[lease.key := Row(lease.token, lease.expiresAt, TTLFor(cfg, lease.expiresAt))]
  }

  /** SET expires_at = :exp [, ttl = :ttl]: a refresh without TTL leaves the stored TTL alone. */
  function Refreshed(cfg: Config, rows: Table, lease: LeaseRecord): Table
    requires lease.key in rows
  {
    var row := rows[lease.key];
    rows[lease.key := row.(expiresAt := lease.expiresAt,
                           ttl := if WritesTTL(cfg) then TTLFor(cfg, lease.expiresAt) else row.ttl)]
  }

  /** The one row a successful acquire or refresh leaves changed: token and expiry as in the
      lease, and the TTL a whole number of seconds later, or the one given when none is written. */
  ghost predicate Stores(cfg: Config, before: Table, after: Table, lease: LeaseRecord, otherwise: Option<int>) {
    && lease.key in after && after[lease.key].token == lease.token && after[lease.key].expiresAt == lease.expiresAt
    && (if cfg.includeTTL && cfg.ttlBuffer > 0 && cfg.ttlAttr != ""
        then after[lease.key].ttl.Some? && after[lease.key].ttl.value * NS <= lease.expiresAt * NS + cfg.ttlBuffer < (after[lease.key].ttl.value + 1) * NS
        else after[lease.key].ttl == otherwise)
    && (forall k :: k != lease.key ==> (k in after <==> k in before))
    && (forall k :: k != lease.key && k in before ==> after[k] == before[k])
  }

  // ----- the calls themselves, run without interference

  class Store {
    var rows: Table

    constructor ()
      ensures rows == map[]
    {
      rows := map[];
    }
  }

  class Manager {
    const cfg: Config
    const store: Store

    constructor (cfg: Config, store: Store)
      ensures this.cfg == cfg && this.store == store
    {
      this.cfg := cfg;
      this.store := store;
    }

    method AcquireKey(key: Key, duration: int, now: int, token: Token) returns (r: Result<LeaseRecord>)
      modifies store
      ensures r.Ok? <==> && (cfg.validateInput ==> key.pk != "" && key.sk != "" && duration > 0)
                         && (key in old(store.rows) ==> old(store.rows)[key].expiresAt * NS <= now)
      ensures r == Err(LeaseHeld) <==> (cfg.validateInput ==> key.pk != "" && key.sk != "" && duration > 0) && !old(MayAcquire(store.rows, key, now))
      ensures r.Ok? ==> r.value == LeaseRecord(key, token, ExpiryOf(now, duration)) && MayRelease(store.rows, r.value)
      ensures store.rows == if r.Ok? then Acquired(cfg, old(store.rows), r.value) else old(store.rows)
      // the lease ends in the second its duration does, and the row says the same
      ensures r.Ok? ==> r.value.expiresAt * NS <= now + duration < (r.value.expiresAt + 1) * NS
      ensures r.Ok? ==> Stores(cfg, old(store.rows), store.rows, r.value, None)
      // it shuts out every caller whose clock has not reached its expiry, and none from the end of its duration on
      ensures r.Ok? ==> forall c :: (c < r.value.expiresAt * NS ==> !MayAcquire(store.rows, key, c))
                                 && (c >= now + duration ==> MayAcquire(store.rows, key, c))
    {
      if cfg.validateInput {
        if key.pk == "" || key.sk == "" {
          return Err(InvalidKey);
        }
        if duration <= 0 {
          return Err(InvalidDuration);
        }
      }
      var expiresAt := ExpiryOf(now, duration);
      var lease := LeaseRecord(key, token, expiresAt);
      if key in store.rows && store.rows[key].expiresAt > Unix(now) {
        return Err(LeaseHeld);
      }
      store.rows := store.rows[key := Row(token, expiresAt, TTLFor(cfg, expiresAt))];
      return Ok(lease);
    }

    method Refresh(lease: LeaseRecord, duration: int, now: int) returns (r: Result<LeaseRecord>)
      modifies store
      ensures r.Ok? <==> (cfg.validateInput ==> lease.key.pk != "" && lease.key.sk != "" && lease.token != "" && duration > 0)
                         && lease.key in old(store.rows) && old(store.rows)[lease.key].token == lease.token
                         && old(store.rows)[lease.key].expiresAt * NS > now
      ensures r == Err(LeaseNotOwned) <==> (cfg.validateInput ==> lease.key.pk != "" && lease.key.sk != "" && lease.token != "" && duration > 0)
                                           && !old(MayRefresh(store.rows, lease, now))
      ensures r.Ok? ==> r.value == lease.(expiresAt := ExpiryOf(now, duration))
      ensures store.rows == if r.Ok? then Refreshed(cfg, old(store.rows), r.value) else old(store.rows)
      ensures r.Ok? ==> r.value.expiresAt * NS <= now + duration < (r.value.expiresAt + 1) * NS
      ensures r.Ok? ==> Stores(cfg, old(store.rows), store.rows, r.value, old(store.rows)[lease.key].ttl)
      ensures r.Ok? ==> forall c :: (c < r.value.expiresAt * NS ==> !MayAcquire(store.rows, lease.key, c))
                                 && (c >= now + duration ==> MayAcquire(store.rows, lease.key, c))
    {
      if cfg.validateInput {
        if lease.key.pk == "" || lease.key.sk == "" {
          return Err(InvalidKey);
        }
        if lease.token == "" {
          return Err(InvalidToken);
        }
        if duration <= 0 {
          return Err(InvalidDuration);
        }
      }
      if !MayRefresh(store.rows, lease, now) {
        return Err(LeaseNotOwned);
      }
      var out := lease.(expiresAt := ExpiryOf(now, duration));
      var row := store.rows[lease.key].(expiresAt := out.expiresAt);
      if cfg.includeTTL && cfg.ttlBuffer > 0 && cfg.ttlAttr != "" {
        row := row.(ttl := Some(out.expiresAt + cfg.ttlBuffer / NS));
      }
      store.rows := store.rows[lease.key := row];
      return Ok(out);
    }

    method Release(lease: LeaseRecord) returns (r: Result<()>)
      modifies store
      ensures r.Ok? ==> store.rows == if lease.key in old(store.rows) && old(store.rows)[lease.key].token == lease.token then old(store.rows) - {lease.key} else old(store.rows)
      ensures r.Ok? ==> !MayRelease(store.rows, lease)
      ensures r.Err? <==> cfg.validateInput && (lease.key.pk == "" || lease.key.sk == "" || lease.token == "")
      ensures r.Err? ==> store.rows == old(store.rows)
    {
      if cfg.validateInput {
        if lease.key.pk == "" || lease.key.sk == "" {
          return Err(InvalidKey);
        }
        if lease.token == "" {
          return Err(InvalidToken);
        }
      }
      if MayRelease(store.rows, lease) {
        store.rows := store.rows - {lease.key};
      }
      return Ok(());   // a failed condition is not an error: release is best effort
    }
  }

  // ----- many clients: each call is a clock reading, a write and a reply

  /** A call that has read its clock and not yet written, or a success not yet delivered. */
  datatype Pending =
    | Acquiring(key: Key, token: Token, now: int, duration: int)
    | Refreshing(lease: LeaseRecord, now: int, duration: int)
    | Releasing(lease: LeaseRecord)
    | Replying(lease: LeaseRecord)

  /** held maps a token to the lease its client was last returned; released holds the
      tokens whose client has called Release; issued holds every token ever generated. */
  datatype State = State(
    time: int, rows: Table, calls: map<Call, Pending>,
    held: map<Token, LeaseRecord>, released: set<Token>, issued: set<Token>)

  datatype Event =
    | Tick(dt: nat)
    | StartAcquire(id: Call, key: Key, duration: int, token: Token, clock: int)
    | StartRefresh(id: Call, lease: LeaseRecord, duration: int, clock: int)
    | StartRelease(id: Call, lease: LeaseRecord)
    | Write(id: Call)
    | Deliver(id: Call)
    | Lose(id: Call)
    | Sweep(key: Key, clock: int)

  /** One manager configuration, and the bound eps on every clock's distance from true time. */
  datatype World = World(cfg: Config, eps: nat)

  predicate Reads(w: World, s: State, clock: int) {
    s.time - w.eps <= clock <= s.time + w.eps
  }

  predicate Enabled(w: World, s: State, e: Event) {
    match e
    case Tick(_) => true
    case StartAcquire(id, key, duration, token, clock) =>
      && id !in s.calls && Reads(w, s, clock) && token !in s.issued
      && (w.cfg.validateInput ==> key.pk != "" && key.sk != "" && duration > 0)
    case StartRefresh(id, lease, duration, clock) =>
      && id !in s.calls && Reads(w, s, clock) && lease.token in s.held
      && (w.cfg.validateInput ==> lease.key.pk != "" && lease.key.sk != "" && lease.token != "" && duration > 0)
    case StartRelease(id, lease) =>
      && id !in s.calls && lease.token in s.held
      && (w.cfg.validateInput ==> lease.key.pk != "" && lease.key.sk != "" && lease.token != "")
    case Write(id) => id in s.calls && !s.calls[id].Replying?
    case Deliver(id) => id in s.calls && s.calls[id].Replying?
    case Lose(id) => id in s.calls
    case Sweep(key, clock) =>
      && Reads(w, s, clock) && key in s.rows
      && s.rows[key].ttl.Some? && s.rows[key].ttl.value <= Unix(clock)
  }

  function WriteStep(w: World, s: State, id: Call): State
    requires Enabled(w, s, Write(id))
  {
    match s.calls[id]
    case Acquiring(key, token, now, duration) =>
      var lease := LeaseRecord(key, token, ExpiryOf(now, duration));
      if MayAcquire(s.rows, key, now)
      then s.(rows := Acquired(w.cfg, s.rows, lease), calls := s.calls[id := Replying(lease)])
      else s.(calls := s.calls - {id})
    case Refreshing(lease, now, duration) =>
      var out := lease.(expiresAt := ExpiryOf(now, duration));
      if MayRefresh(s.rows, lease, now)
      then s.(rows := Refreshed(w.cfg, s.rows, out), calls := s.calls[id := Replying(out)])
      else s.(calls := s.calls - {id})
    case Releasing(lease) =>
      s.(rows := if MayRelease(s.rows, lease) then s.rows - {lease.key} else s.rows, calls := s.calls - {id})
    case Replying(_) => s
  }

  function Step(w: World, s: State, e: Event): State
    requires Enabled(w, s, e)
  {
    match e
    case Tick(dt) => s.(time := s.time + dt)
    case StartAcquire(id, key, duration, token, clock) =>
      s.(calls := s.calls[id := Acquiring(key, token, clock, duration)], issued := s.issued + {token})
    case StartRefresh(id, lease, duration, clock) =>
      s.(calls := s.calls[id := Refreshing(lease, clock, duration)])
    case StartRelease(id, lease) =>
      s.(calls := s.calls[id := Releasing(lease)], released := s.released + {lease.token})
    case Write(id) => WriteStep(w, s, id)
    case Deliver(id) =>
      var lease := s.calls[id].lease;
      s.(calls := s.calls - {id}, held := s.held[lease.token := lease])
    case Lose(id) => s.(calls := s.calls - {id})
    case Sweep(key, _) => s.(rows := s.rows - {key})
  }

  /** A reply tells its client what the row now says: the expiry is the second in which the
      duration asked for runs out, counted from the clock read, and no other row has changed. */
  ghost predicate Granted(w: World, s: State, id: Call, s': State, key: Key, token: Token, ends: int, otherwise: Option<int>) {
    && id in s'.calls && s'.calls[id].Replying?
    && var l := s'.calls[id].lease;
       l.key == key && l.token == token && l.expiresAt * NS <= ends < (l.expiresAt + 1) * NS && Stores(w.cfg, s.rows, s'.rows, l, otherwise)
  }

  /** What a write does, by the row it finds: a free or expired row is acquired, an owned and
      unexpired one refreshed, an owned one released, and anything else is left alone. */
  lemma WriteMeansCall(w: World, s: State, id: Call)
    requires Enabled(w, s, Write(id))
    ensures var s' := Step(w, s, Write(id));
            match s.calls[id]
            case Acquiring(key, token, now, duration) =>
              if key in s.rows ==> s.rows[key].expiresAt * NS <= now
              then Granted(w, s, id, s', key, token, now + duration, None) else s'.rows == s.rows && id !in s'.calls
            case Refreshing(l, now, duration) =>
              if l.key in s.rows && s.rows[l.key].token == l.token && s.rows[l.key].expiresAt * NS > now
              then Granted(w, s, id, s', l.key, l.token, now + duration, s.rows[l.key].ttl) else s'.rows == s.rows && id !in s'.calls
            case Releasing(l) =>
              id !in s'.calls && s'.rows == if l.key in s.rows && s.rows[l.key].token == l.token then s.rows - {l.key} else s.rows
            case Replying(_) => true
  {
  }

  predicate ValidRun(w: World, s: State, es: seq<Event>)
    decreases |es|
  {
    es == [] || (Enabled(w, s, es[0]) && ValidRun(w, Step(w, s, es[0]), es[1..]))
  }

  function After(w: World, s: State, es: seq<Event>): State
    requires ValidRun(w, s, es)
    decreases |es|
  {
    if es == [] then s else After(w, Step(w, s, es[0]), es[1..])
  }

  function Init(time: int): State {
    State(time, map[], map[], map[], {}, {})
  }

  // ----- holding a lease

  /** A client believes it holds its lease while some clock within eps could still be
      more than 2*eps before the expiry it was last returned, and it has not released it. */
  ghost predicate Holds(w: World, s: State, token: Token, key: Key) {
    && token in s.held && token !in s.released && s.held[token].key == key
    && exists clock :: Reads(w, s, clock) && clock + 2 * w.eps < s.held[token].expiresAt * NS
  }

  ghost predicate MutualExclusion(w: World, s: State) {
    forall t1, t2, key :: Holds(w, s, t1, key) && Holds(w, s, t2, key) ==> t1 == t2
  }

  /** Promised(s, l): l was returned to the client of its token, or is about to be. */
  ghost predicate Promised(s: State, l: LeaseRecord) {
    || (l.token in s.held && s.held[l.token] == l)
    || exists id :: id in s.calls && s.calls[id] == Replying(l)
  }

  /** Not yet run out by any clock. */
  predicate Live(w: World, s: State, l: LeaseRecord) {
    s.time + w.eps < l.expiresAt * NS
  }

  /** The one write that can break a promise: a refresh that stores an earlier expiry
      than one its own client was, or is about to be, told and may still count on. */
  ghost predicate BreaksPromise(w: World, s: State, e: Event)
    requires Enabled(w, s, e)
  {
    e.Write? && s.calls[e.id].Refreshing? &&
    var c := s.calls[e.id];
    && MayRefresh(s.rows, c.lease, c.now) && c.lease.token !in s.released
    && exists l :: Promised(s, l) && Live(w, s, l) && l.token == c.lease.token && l.key == c.lease.key && ExpiryOf(c.now, c.duration) < l.expiresAt
  }

  ghost predicate KeepsPromises(w: World, s: State, es: seq<Event>)
    requires ValidRun(w, s, es)
    decreases |es|
  {
    es == [] || (!BreaksPromise(w, s, es[0]) && KeepsPromises(w, Step(w, s, es[0]), es[1..]))
  }

  // ----- the invariant

  /** Every token in sight was issued, and a lease is filed under its own token. */
  ghost predicate TokensIssued(s: State) {
    && s.released <= s.issued
    && (forall t :: t in s.held ==> t in s.issued && s.held[t].token == t)
    && (forall k :: k in s.rows ==> s.rows[k].token in s.issued)
    && (forall id :: id in s.calls ==> TokenOf(s.calls[id]) in s.issued)
  }

  function TokenOf(p: Pending): Token {
    if p.Acquiring? then p.token else p.lease.token
  }

  /** Only a token already returned is refreshed or released. */
  ghost predicate CallersHold(s: State) {
    forall id :: id in s.calls ==>
      && (s.calls[id].Refreshing? ==> s.calls[id].lease.token in s.held)
      && (s.calls[id].Releasing? ==> s.calls[id].lease.token in s.held && s.calls[id].lease.token in s.released)
  }

  /** The token of a pending acquire is nowhere else yet. */
  ghost predicate Unused(s: State, id: Call)
    requires id in s.calls
  {
    var token := TokenOf(s.calls[id]);
    && token !in s.held
    && (forall k :: k in s.rows ==> s.rows[k].token != token)
    && (forall j :: j in s.calls && j != id ==> TokenOf(s.calls[j]) != token)
  }

  ghost predicate AcquiresFresh(s: State) {
    forall id :: id in s.calls && s.calls[id].Acquiring? ==> Unused(s, id)
  }

  ghost predicate TokensTracked(s: State) {
    TokensIssued(s) && CallersHold(s) && AcquiresFresh(s)
  }

  ghost predicate ClocksBounded(w: World, s: State) {
    forall id :: id in s.calls && s.calls[id].Acquiring? ==> s.calls[id].now <= s.time + w.eps
  }

  ghost predicate RowsWellFormed(w: World, s: State) {
    forall k :: k in s.rows ==>
      && s.rows[k].ttl == TTLFor(w.cfg, s.rows[k].expiresAt)
      && (w.cfg.validateInput ==> k.pk != "" && k.sk != "")
  }

  /** A promise still worth something at true time is backed by the row. */
  ghost predicate PromisesBacked(w: World, s: State) {
    forall l :: Promised(s, l) && l.token !in s.released && s.time + w.eps < l.expiresAt * NS ==>
      && l.key in s.rows && s.rows[l.key].token == l.token && s.rows[l.key].expiresAt >= l.expiresAt
  }

  ghost predicate KeysChecked(w: World, s: State) {
    w.cfg.validateInput ==> forall id :: id in s.calls ==>
      match s.calls[id]
      case Acquiring(key, _, _, _) => key.pk != "" && key.sk != ""
      case _ => true
  }

  ghost predicate Base(w: World, s: State) {
    TokensTracked(s) && ClocksBounded(w, s) && RowsWellFormed(w, s) && KeysChecked(w, s)
  }

  /** A write changes rows under its own token only, and its own call only. */
  lemma WriteTouches(w: World, s: State, id: Call)
    requires Enabled(w, s, Write(id))
    ensures var s' := WriteStep(w, s, id);
            && s'.held == s.held && s'.released == s.released && s'.issued == s.issued
            && (forall k :: k in s'.rows ==> (k in s.rows && s'.rows[k].token == s.rows[k].token) || s'.rows[k].token == TokenOf(s.calls[id]))
            && (forall j :: j in s'.calls ==> j in s.calls && TokenOf(s'.calls[j]) == TokenOf(s.calls[j]))
            && (forall j :: j in s'.calls ==> if j == id then s'.calls[j].Replying? else s'.calls[j] == s.calls[j])
  {
    hide MayAcquire, MayRelease, ExpiryOf, TTLFor;
  }

  lemma WriteKeepsIssued(w: World, s: State, id: Call)
    requires Enabled(w, s, Write(id)) && TokensIssued(s) && CallersHold(s)
    ensures TokensIssued(WriteStep(w, s, id)) && CallersHold(WriteStep(w, s, id))
  {
    WriteTouches(w, s, id);
    hide WriteStep;
  }

  lemma StepKeepsIssued(w: World, s: State, e: Event)
    requires Enabled(w, s, e) && TokensIssued(s) && CallersHold(s)
    ensures TokensIssued(Step(w, s, e)) && CallersHold(Step(w, s, e))
  {
    if e.Write? {
      hide TokensIssued, CallersHold, WriteStep;
      WriteKeepsIssued(w, s, e.id);
    }
  }

  lemma WriteKeepsFresh(w: World, s: State, id: Call, other: Call)
    requires Enabled(w, s, Write(id)) && TokensTracked(s)
    requires other in WriteStep(w, s, id).calls && WriteStep(w, s, id).calls[other].Acquiring?
    ensures Unused(WriteStep(w, s, id), other)
  {
    WriteTouches(w, s, id);
    hide WriteStep;
    assert other in s.calls && Unused(s, other);
  }

  lemma StepKeepsFresh(w: World, s: State, e: Event)
    requires Enabled(w, s, e) && TokensTracked(s)
    ensures AcquiresFresh(Step(w, s, e))
  {
    var s' := Step(w, s, e);
    forall id | id in s'.calls && s'.calls[id].Acquiring? ensures Unused(s', id) {
      if e.Write? {
        hide Unused, TokensTracked, WriteStep;
        WriteKeepsFresh(w, s, e.id, id);
      } else if id in s.calls {
        assert Unused(s, id);
      }
    }
  }

  lemma StepKeepsRows(w: World, s: State, e: Event)
    requires Enabled(w, s, e) && RowsWellFormed(w, s) && KeysChecked(w, s)
    ensures RowsWellFormed(w, Step(w, s, e))
  {
    hide ExpiryOf;
  }

  lemma StepKeepsCalls(w: World, s: State, e: Event)
    requires Enabled(w, s, e) && KeysChecked(w, s) && ClocksBounded(w, s)
    ensures KeysChecked(w, Step(w, s, e)) && ClocksBounded(w, Step(w, s, e))
  {
    hide MayAcquire, MayRefresh, MayRelease, ExpiryOf;
  }

  lemma StepKeepsBase(w: World, s: State, e: Event)
    requires Enabled(w, s, e) && Base(w, s)
    ensures Base(w, Step(w, s, e))
  {
    hide TokensIssued, CallersHold, AcquiresFresh, ClocksBounded, RowsWellFormed, KeysChecked, Enabled, Step;
    StepKeepsIssued(w, s, e);
    StepKeepsFresh(w, s, e);
    StepKeepsRows(w, s, e);
    StepKeepsCalls(w, s, e);
  }

  /** A lease whose row is taken over, or swept, has already run out at true time. */
  lemma TakeoverMeansExpired(w: World, s: State, id: Call)
    requires Enabled(w, s, Write(id)) && Base(w, s) && s.calls[id].Acquiring?
    requires s.calls[id].key in s.rows && MayAcquire(s.rows, s.calls[id].key, s.calls[id].now)
    ensures s.rows[s.calls[id].key].expiresAt * NS <= s.time + w.eps
  {
  }

  lemma SweepMeansExpired(w: World, s: State, key: Key, clock: int)
    requires Enabled(w, s, Sweep(key, clock)) && Base(w, s)
    ensures s.rows[key].expiresAt * NS + (w.cfg.ttlBuffer / NS) * NS <= clock
    ensures Step(w, s, Sweep(key, clock)).rows == s.rows - {key}
  {
  }

  lemma StepKeepsPromises(w: World, s: State, e: Event)
    requires Enabled(w, s, e) && Base(w, s) && PromisesBacked(w, s) && !BreaksPromise(w, s, e)
    ensures PromisesBacked(w, Step(w, s, e))
  {
    var s' := Step(w, s, e);
    forall l | Promised(s', l) && l.token !in s'.released && s'.time + w.eps < l.expiresAt * NS
      ensures l.key in s'.rows && s'.rows[l.key].token == l.token && s'.rows[l.key].expiresAt >= l.expiresAt
    {
      match e
      case Write(id) => WriteKeepsPromise(w, s, id, l);
      case Sweep(key, clock) =>
        assert Promised(s, l);
        SweepMeansExpired(w, s, key, clock);
      case Deliver(id) => assert Promised(s, l);
      case Lose(id) => assert Promised(s, l);
      case _ => assert Promised(s, l);
    }
  }

  lemma WriteKeepsPromise(w: World, s: State, id: Call, l: LeaseRecord)
    requires Enabled(w, s, Write(id)) && Base(w, s) && PromisesBacked(w, s) && !BreaksPromise(w, s, Write(id))
    requires Promised(Step(w, s, Write(id)), l) && l.token !in s.released && s.time + w.eps < l.expiresAt * NS
    ensures var rows := Step(w, s, Write(id)).rows;
            l.key in rows && rows[l.key].token == l.token && rows[l.key].expiresAt >= l.expiresAt
  {
    match s.calls[id]
    case Acquiring(key, token, now, duration) =>
      var lease := LeaseRecord(key, token, ExpiryOf(now, duration));
      if MayAcquire(s.rows, key, now) && key in s.rows {
        TakeoverMeansExpired(w, s, id);
      }
      assert l == lease || Promised(s, l);
    case Refreshing(lease, now, duration) =>
      var out := lease.(expiresAt := ExpiryOf(now, duration));
      assert l == out || Promised(s, l);
    case Releasing(lease) => assert Promised(s, l);
  }

  /** Two leases backed by one row are one lease. */
  lemma BackedPromisesExclude(w: World, s: State)
    requires TokensTracked(s) && PromisesBacked(w, s)
    ensures MutualExclusion(w, s)
  {
    forall t1, t2, key | Holds(w, s, t1, key) && Holds(w, s, t2, key) ensures t1 == t2 {
      assert Promised(s, s.held[t1]) && Promised(s, s.held[t2]);
    }
  }

  // ----- theorems over whole runs

  lemma {:induction false} RunKeepsInvariant(w: World, s: State, es: seq<Event>)
    requires ValidRun(w, s, es) && Base(w, s)
    ensures Base(w, After(w, s, es))
    ensures PromisesBacked(w, s) && KeepsPromises(w, s, es) ==> PromisesBacked(w, After(w, s, es))
    decreases |es|
  {
    if es != [] {
      StepKeepsBase(w, s, es[0]);
      if PromisesBacked(w, s) && KeepsPromises(w, s, es) {
        StepKeepsPromises(w, s, es[0]);
      }
      RunKeepsInvariant(w, Step(w, s, es[0]), es[1..]);
    }
  }

  /** Mutual exclusion under clock skew: in every run from the empty table in which no
      refresh shortens a lease its client still counts on, no two tokens hold one key. */
  lemma ExclusionUnderSkew(w: World, start: int, es: seq<Event>)
    requires ValidRun(w, Init(start), es) && KeepsPromises(w, Init(start), es)
    ensures MutualExclusion(w, After(w, Init(start), es))
  {
    RunKeepsInvariant(w, Init(start), es);
    BackedPromisesExclude(w, After(w, Init(start), es));
  }

  ghost predicate Reachable(w: World, s: State) {
    exists start, es :: ValidRun(w, Init(start), es) && s == After(w, Init(start), es)
  }

  lemma ReachableBase(w: World, s: State)
    requires Reachable(w, s)
    ensures Base(w, s)
  {
    var start, es :| ValidRun(w, Init(start), es) && s == After(w, Init(start), es);
    RunKeepsInvariant(w, Init(start), es);
  }

  /** The events a second client needs to take the key at true time t. */
  function TakeOver(w: World, s: State, t: int, id: Call, key: Key, token: Token): seq<Event>
    requires t >= s.time
  {
    [Tick(t - s.time), StartAcquire(id, key, NS, token, t + w.eps), Write(id), Deliver(id)]
  }

  lemma TakeOverRuns(w: World, s: State, t: int, id: Call, key: Key, token: Token)
    requires t >= s.time && id !in s.calls && token !in s.issued
    requires w.cfg.validateInput ==> key.pk != "" && key.sk != ""
    requires key !in s.rows || s.rows[key].expiresAt * NS <= t + w.eps
    ensures var es := TakeOver(w, s, t, id, key, token);
            && ValidRun(w, s, es) && KeepsPromises(w, s, es)
            && var s' := After(w, s, es);
               && s'.time == t && s'.released == s.released
               && s'.held == s.held[token := LeaseRecord(key, token, ExpiryOf(t + w.eps, NS))]
  {
    var es := TakeOver(w, s, t, id, key, token);
    var s1 := Step(w, s, es[0]);
    var s2 := Step(w, s1, es[1]);
    var s3 := Step(w, s2, es[2]);
    var s4 := Step(w, s3, es[3]);
    assert es[1..][1..] == es[2..] && es[2..][1..] == es[3..] && es[3..][1..] == [];
    assert ValidRun(w, s4, []) && After(w, s4, []) == s4 && KeepsPromises(w, s4, []);
    assert ValidRun(w, s3, es[3..]) && After(w, s3, es[3..]) == s4 && KeepsPromises(w, s3, es[3..]);
    assert ValidRun(w, s2, es[2..]) && After(w, s2, es[2..]) == s4 && KeepsPromises(w, s2, es[2..]);
    assert ValidRun(w, s1, es[1..]) && After(w, s1, es[1..]) == s4 && KeepsPromises(w, s1, es[1..]);
  }

  /** A holder whose row runs out earlier than it was told: another client can take the key
      while the holder still counts on it. */
  lemma ShortRowLetsAnotherIn(w: World, s: State, l: LeaseRecord, other: Call, t2: Token)
    requires l.token in s.held && s.held[l.token] == l && l.token !in s.released && l.token in s.issued && Live(w, s, l)
    requires l.key in s.rows && s.rows[l.key].expiresAt < l.expiresAt
    requires w.cfg.validateInput ==> l.key.pk != "" && l.key.sk != ""
    requires other !in s.calls && t2 !in s.issued && t2 !in s.released
    ensures exists es :: ValidRun(w, s, es) && KeepsPromises(w, s, es) && HoldBoth(w, After(w, s, es), l.token, t2, l.key)
  {
    var early := s.rows[l.key].expiresAt;
    var t := if s.time >= early * NS - w.eps then s.time else early * NS - w.eps;
    TakeOverRuns(w, s, t, other, l.key, t2);
    var es := TakeOver(w, s, t, other, l.key, t2);
    var s2 := After(w, s, es);
    assert Holds(w, s2, l.token, l.key) by { assert Reads(w, s2, t - w.eps); }
    assert Holds(w, s2, t2, l.key) by { assert Reads(w, s2, t - w.eps); }
    assert HoldBoth(w, s2, l.token, t2, l.key);
  }

  ghost predicate HoldBoth(w: World, s: State, t1: Token, t2: Token, key: Key) {
    t1 != t2 && Holds(w, s, t1, key) && Holds(w, s, t2, key)
  }

  /** The side condition is needed, in every case: whenever a refresh stores an earlier expiry
      than a live one its client was returned, or than one in a reply still to be delivered,
      some continuation in which nothing else goes wrong lets a second token hold the key. */
  lemma ShorteningRefreshBreaksExclusion(w: World, s: State, id: Call, other: Call, t2: Token)
    requires Reachable(w, s) && Enabled(w, s, Write(id)) && BreaksPromise(w, s, Write(id))
    requires other !in s.calls && t2 !in s.issued
    ensures var s1 := Step(w, s, Write(id));
            var lease := s.calls[id].lease;
            exists es :: ValidRun(w, s1, es) && KeepsPromises(w, s1, es) && HoldBoth(w, After(w, s1, es), lease.token, t2, lease.key)
  {
    ReachableBase(w, s);
    var c := s.calls[id];
    var s1 := Step(w, s, Write(id));
    var l :| Promised(s, l) && Live(w, s, l) && l.token == c.lease.token && l.key == c.lease.key && ExpiryOf(c.now, c.duration) < l.expiresAt;
    assert s1.rows[l.key].expiresAt == ExpiryOf(c.now, c.duration);
    if l.token in s.held && s.held[l.token] == l {
      ShortRowLetsAnotherIn(w, s1, l, other, t2);
    } else {
      var late :| late in s.calls && s.calls[late] == Replying(l);
      var s2 := Step(w, s1, Deliver(late));
      assert !BreaksPromise(w, s1, Deliver(late));
      ShortRowLetsAnotherIn(w, s2, l, other, t2);
      var es :| ValidRun(w, s2, es) && KeepsPromises(w, s2, es) && HoldBoth(w, After(w, s2, es), l.token, t2, l.key);
      AfterDelivery(w, s1, late, es);
    }
  }

  lemma AfterDelivery(w: World, s: State, id: Call, es: seq<Event>)
    requires Enabled(w, s, Deliver(id)) && ValidRun(w, Step(w, s, Deliver(id)), es) && KeepsPromises(w, Step(w, s, Deliver(id)), es)
    ensures var all := [Deliver(id)] + es; ValidRun(w, s, all) && KeepsPromises(w, s, all) && After(w, s, all) == After(w, Step(w, s, Deliver(id)), es)
  {
    assert ([Deliver(id)] + es)[1..] == es;
  }

  // ----- a discipline a client can follow

  /** One refresh at a time per token, never asking for an earlier expiry than the one held. */
  predicate Disciplined(s: State, e: Event) {
    e.StartRefresh? && e.lease.token in s.held ==>
      && s.held[e.lease.token] == e.lease
      && e.lease.expiresAt <= ExpiryOf(e.clock, e.duration)
      && forall id :: id in s.calls ==> !Concerns(s.calls[id], e.lease.token)
  }

  predicate Concerns(p: Pending, token: Token) {
    (p.Refreshing? || p.Replying?) && p.lease.token == token
  }

  ghost predicate DisciplinedRun(w: World, s: State, es: seq<Event>)
    requires ValidRun(w, s, es)
    decreases |es|
  {
    es == [] || (Disciplined(s, es[0]) && DisciplinedRun(w, Step(w, s, es[0]), es[1..]))
  }

  ghost predicate RefreshesExtend(s: State) {
    forall id :: id in s.calls && s.calls[id].Refreshing? ==>
      var c := s.calls[id];
      && c.lease.token in s.held && s.held[c.lease.token] == c.lease
      && c.lease.expiresAt <= ExpiryOf(c.now, c.duration)
      && forall j :: j in s.calls && j != id ==> !Concerns(s.calls[j], c.lease.token)
  }

  lemma DisciplineStep(w: World, s: State, e: Event)
    requires Enabled(w, s, e) && Base(w, s) && RefreshesExtend(s) && Disciplined(s, e)
    ensures RefreshesExtend(Step(w, s, e)) && !BreaksPromise(w, s, e)
  {
    if e.Write? {
      NoShorteningWrite(w, s, e.id);
      WriteTouches(w, s, e.id);
      hide WriteStep, BreaksPromise, Base, ExpiryOf;
    } else {
      hide Base, ExpiryOf;
    }
  }

  lemma NoShorteningWrite(w: World, s: State, id: Call)
    requires Enabled(w, s, Write(id)) && Base(w, s) && RefreshesExtend(s)
    ensures !BreaksPromise(w, s, Write(id))
  {
    hide ExpiryOf, MayRefresh;
  }

  lemma {:induction false} DisciplineKeepsPromises(w: World, s: State, es: seq<Event>)
    requires ValidRun(w, s, es) && Base(w, s) && RefreshesExtend(s) && DisciplinedRun(w, s, es)
    ensures KeepsPromises(w, s, es)
    decreases |es|
  {
    if es != [] {
      DisciplineStep(w, s, es[0]);
      StepKeepsBase(w, s, es[0]);
      DisciplineKeepsPromises(w, Step(w, s, es[0]), es[1..]);
    }
  }

  /** Clients that refresh one call at a time and never ask for less are mutually exclusive. */
  lemma DisciplinedExclusion(w: World, start: int, es: seq<Event>)
    requires ValidRun(w, Init(start), es) && DisciplinedRun(w, Init(start), es)
    ensures MutualExclusion(w, After(w, Init(start), es))
  {
    DisciplineKeepsPromises(w, Init(start), es);
    ExclusionUnderSkew(w, start, es);
  }

  /** With true clocks nothing is lost to skew: a client may count on its lease up to the
      very second it was told, however long a request spent between clock and table. */
  lemma ExclusionWithoutSkew(w: World, start: int, es: seq<Event>, t1: Token, t2: Token)
    requires w.eps == 0 && ValidRun(w, Init(start), es) && KeepsPromises(w, Init(start), es)
    requires var s := After(w, Init(start), es);
             && t1 in s.held && t2 in s.held && t1 !in s.released && t2 !in s.released
             && s.held[t1].key == s.held[t2].key
             && s.time < s.held[t1].expiresAt * NS && s.time < s.held[t2].expiresAt * NS
    ensures t1 == t2
  {
    ExclusionUnderSkew(w, start, es);
    var s := After(w, Init(start), es);
    assert Reads(w, s, s.time);
    assert Holds(w, s, t1, s.held[t1].key) && Holds(w, s, t2, s.held[t1].key);
  }

  // ----- fencing

  predicate Owns(s: State, token: Token, key: Key) {
    key in s.rows && s.rows[key].token == token
  }

  /** A token that no pending acquire carries can only lose rows. */
  ghost predicate Spent(s: State, token: Token) {
    token in s.issued && forall id :: id in s.calls ==> !(s.calls[id].Acquiring? && s.calls[id].token == token)
  }

  lemma SpentStays(w: World, s: State, e: Event, token: Token)
    requires Enabled(w, s, e) && Spent(s, token)
    ensures Spent(Step(w, s, e), token)
    ensures forall key :: Owns(Step(w, s, e), token, key) ==> Owns(s, token, key)
  {
  }

  lemma {:induction false} SpentNeverRegains(w: World, s: State, es: seq<Event>, token: Token, key: Key)
    requires ValidRun(w, s, es) && Spent(s, token)
    ensures Spent(After(w, s, es), token)
    ensures Owns(After(w, s, es), token, key) ==> Owns(s, token, key)
    decreases |es|
  {
    if es != [] {
      SpentStays(w, s, es[0], token);
      SpentNeverRegains(w, Step(w, s, es[0]), es[1..], token, key);
    }
  }

  /** A token owns a key for one contiguous stretch of any run, on any clocks: once it has
      been taken over, released or swept it never owns the key again, and no refresh or
      release it still has in flight changes the table. */
  lemma OwnershipIsOneInterval(w: World, s: State, lost: seq<Event>, later: seq<Event>, token: Token, key: Key)
    requires Reachable(w, s) && Owns(s, token, key)
    requires ValidRun(w, s, lost) && !Owns(After(w, s, lost), token, key)
    requires ValidRun(w, After(w, s, lost), later)
    ensures var s' := After(w, After(w, s, lost), later);
            && !Owns(s', token, key)
            && forall id :: Enabled(w, s', Write(id)) && !s'.calls[id].Acquiring?
                            && s'.calls[id].lease.token == token && s'.calls[id].lease.key == key
                            ==> Step(w, s', Write(id)).rows == s'.rows
  {
    ReachableBase(w, s);
    SpentNeverRegains(w, s, lost, token, key);
    SpentNeverRegains(w, After(w, s, lost), later, token, key);
  }

  /** A sweep removes no lease that any clock still takes for live, once the TTL buffer
      covers twice the skew; on a shared clock every buffer will do. */
  lemma SweepSparesLiveLeases(w: World, s: State, key: Key, sweeper: int, clock: int)
    requires Reachable(w, s) && Enabled(w, s, Sweep(key, sweeper)) && Reads(w, s, clock)
    requires 2 * w.eps <= (w.cfg.ttlBuffer / NS) * NS
    ensures s.rows[key].expiresAt <= Unix(clock)
    ensures MayAcquire(s.rows, key, clock)
  {
    ReachableBase(w, s);
    SweepMeansExpired(w, s, key, sweeper);
  }
}
