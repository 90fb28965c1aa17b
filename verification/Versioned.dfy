/** Optimistic locking through Query.Update: the guard it sends, and runs in which many
    clients read one item, possibly stale, and write it back under that guard. */
module Versioned {
  import opened Wrappers
  import opened AttributeValues
  import opened Expressions
  import opened Builder
  import opened Compile
  import opened Reads
  import opened Guards

  // ----- the version guard of Query.Update

  function SetRequests(d: Dialect, sets: seq<(string, Option<AV>)>): (r: seq<Request>)
    ensures |r| == |sets| && forall i :: 0 <= i < |sets| ==> r[i] == SetRequest(d, sets[i].0, sets[i].1)
  {
    seq(|sets|, i requires 0 <= i < |sets| => SetRequest(d, sets[i].0, sets[i].1))
  }

  function VersionIs(field: string, current: AV): Condition {
    Condition(field, "=", Arg(true, Some(current), None))
  }

  /** The calls Query.Update makes on its builder: the sets, the version condition, the
      version increment, then the remaining conditions. */
  function UpdateRequests(d: Dialect, sets: seq<(string, Option<AV>)>, field: string, current: AV, cs: seq<Condition>): seq<Request> {
    SetRequests(d, sets) + CondRequests([VersionIs(field, current)], [And]) + [AddRequest(d, field, Some(N("1")))] + CondRequests(cs, Ands(|cs|))
  }

  method UpdateVersioned(b: Builder, sets: seq<(string, Option<AV>)>, field: string, current: AV, q: Query, writes: seq<Condition>, raws: seq<Raw>)
    returns (r: Option<(Text, Env)>)
    modifies b
    ensures Collects(q, writes, raws, Mode(true, true, false), GuardConditions(q, writes, raws, Mode(true, true, false)))
    ensures r.Some? ==> var cs := GuardConditions(q, writes, raws, Mode(true, true, false));
              && Takes(b.d, [VersionIs(field, current)]) && Takes(b.d, cs)
              && Run(b.d, old(b.State()), UpdateRequests(b.d, sets, field, current, cs), b.State())
              && Some(r.value) == Merge(Text(b.conditions, b.conditionOperators), b.Env(), raws)
    ensures r.None? ==> var cs := GuardConditions(q, writes, raws, Mode(true, true, false));
              || !SetsTaken(b.d, sets) || !Takes(b.d, [VersionIs(field, current)]) || !b.d.valid(field) || !Takes(b.d, cs)
              || Merge(Text(b.conditions, b.conditionOperators), b.Env(), raws).None?
  {
    ghost var start := b.State();
    GuardConditionsCollect(q, writes, raws, Mode(true, true, false));
    hide Run, Stepped, Takes, SetsTaken, Asked, Merge, Collects;
    IncrementAsked(b.d, field);
    var ok := ApplySets(b, sets);
    if !ok { return None; }
    ghost var m1 := b.State();
    ok := ApplyConditions(b, [VersionIs(field, current)], [And]);
    if !ok { return None; }
    ghost var m2 := b.State();
    ok := b.AddUpdateAdd(field, Some(N("1")));
    if !ok { return None; }
    ghost var m3 := b.State();
    r := BuildConditionExpression(b, q, writes, raws, Mode(true, true, false));
    if r.Some? {
      ghost var cs := GuardConditions(q, writes, raws, Mode(true, true, false));
      RunConcat(b.d, start, SetRequests(b.d, sets), m1, CondRequests([VersionIs(field, current)], [And]), m2);
      RunAppend(b.d, start, SetRequests(b.d, sets) + CondRequests([VersionIs(field, current)], [And]), m2, AddRequest(b.d, field, Some(N("1"))), m3);
      RunConcat(b.d, start, SetRequests(b.d, sets) + CondRequests([VersionIs(field, current)], [And]) + [AddRequest(b.d, field, Some(N("1")))], m3,
                CondRequests(cs, Ands(|cs|)), b.State());
    }
  }

  lemma SetRequestsSnoc(d: Dialect, sets: seq<(string, Option<AV>)>, i: nat)
    requires i < |sets|
    ensures SetRequests(d, sets[..i + 1]) == SetRequests(d, sets[..i]) + [SetRequest(d, sets[i].0, sets[i].1)]
  {
    assert sets[..i + 1] == sets[..i] + [sets[i]];
  }

  predicate SetsTaken(d: Dialect, sets: seq<(string, Option<AV>)>) {
    forall i :: 0 <= i < |sets| ==> SetTaken(d, sets[i].0, sets[i].1)
  }

  predicate SetTaken(d: Dialect, field: string, v: Option<AV>) {
    d.valid(field) && !ParseIndex(field).BadIndex? && v.Some?
  }

  lemma SetsTakenTo(d: Dialect, sets: seq<(string, Option<AV>)>, i: nat)
    requires i < |sets| && SetsTaken(d, sets[..i])
    ensures SetTaken(d, sets[i].0, sets[i].1) ==> SetsTaken(d, sets[..i + 1])
    ensures !SetTaken(d, sets[i].0, sets[i].1) ==> !SetsTaken(d, sets)
  {
    hide SetTaken;
    assert sets[..i + 1] == sets[..i] + [sets[i]];
  }

  lemma SetAsked(d: Dialect, field: string, v: Option<AV>)
    ensures Asked(d, SetRequest(d, field, v)).Some? <==> SetTaken(d, field, v)
  {
    hide ParseIndex;
    if v.Some? { AllConverted([v], [v.value]); } else { NotConverted([v], 0); }
  }

  lemma IncrementAsked(d: Dialect, field: string)
    ensures Asked(d, AddRequest(d, field, Some(N("1")))) == if d.valid(field) then Some(Says(Split(field), AddTo, [N("1")])) else None
  {
    AllConverted([Some(N("1"))], [N("1")]);
  }

  method ApplySets(b: Builder, sets: seq<(string, Option<AV>)>) returns (ok: bool)
    modifies b
    ensures ok <==> SetsTaken(b.d, sets)
    ensures ok ==> Run(b.d, old(b.State()), SetRequests(b.d, sets), b.State())
  {
    ghost var start := b.State();
    assert Run(b.d, start, SetRequests(b.d, sets[..0]), start) && SetsTaken(b.d, sets[..0]);
    hide Stepped, Run, Asked, SetRequests, SetTaken, SetsTaken;
    for i := 0 to |sets|
      invariant Run(b.d, start, SetRequests(b.d, sets[..i]), b.State()) && SetsTaken(b.d, sets[..i])
    {
      ghost var before := b.State();
      SetAsked(b.d, sets[i].0, sets[i].1);
      SetsTakenTo(b.d, sets, i);
      ok := b.AddUpdateSet(sets[i].0, sets[i].1);
      if !ok { return; }
      RunAppend(b.d, start, SetRequests(b.d, sets[..i]), before, SetRequest(b.d, sets[i].0, sets[i].1), b.State());
      SetRequestsSnoc(b.d, sets, i);
    }
    assert sets[..|sets|] == sets;
    return true;
  }

  lemma UpdateAsksFor(d: Dialect, sets: seq<(string, Option<AV>)>, field: string, current: AV, cs: seq<Condition>)
    requires Takes(d, [VersionIs(field, current)]) && Takes(d, cs)
    ensures AllAsked(d, UpdateRequests(d, sets, field, current, cs), Conditions) == Meanings(d, [VersionIs(field, current)]) + Meanings(d, cs)
  {
    var v := [VersionIs(field, current)];
    var qs, add, qv, qc := SetRequests(d, sets), [AddRequest(d, field, Some(N("1")))], CondRequests(v, [And]), CondRequests(cs, Ands(|cs|));
    assert UpdateRequests(d, sets, field, current, cs) == qs + qv + add + qc;
    AskedNone(d, qs, Conditions);
    AskedNone(d, add, Conditions);
    CondsAsk(d, v, [And]);
    CondsAsk(d, cs, Ands(|cs|));
    hide Takes, CondRequests, SetRequests, AllAsked, UpdateRequests;
    AskedAppend(d, qs + qv + add, qc, Conditions);
    AskedAppend(d, qs + qv, add, Conditions);
    AskedAppend(d, qs, qv, Conditions);
    Reassociate(Meanings(d, v), [], []);
  }

  lemma UpdatesDoNotJoin(d: Dialect, sets: seq<(string, Option<AV>)>, field: string)
    ensures Joins(d, SetRequests(d, sets)) == [] && Joins(d, [AddRequest(d, field, Some(N("1")))]) == []
  {
    hide Joins, ParseIndex;
    NoJoins(d, SetRequests(d, sets));
    NoJoins(d, [AddRequest(d, field, Some(N("1")))]);
  }

  lemma {:induction false} UpdateJoins(d: Dialect, sets: seq<(string, Option<AV>)>, field: string, current: AV, cs: seq<Condition>)
    requires Takes(d, [VersionIs(field, current)]) && Takes(d, cs)
    ensures Joins(d, UpdateRequests(d, sets, field, current, cs)) == Ands(1 + |cs|)
  {
    var v := [VersionIs(field, current)];
    var qs, add, qv, qc := SetRequests(d, sets), [AddRequest(d, field, Some(N("1")))], CondRequests(v, [And]), CondRequests(cs, Ands(|cs|));
    hide Takes, Joins, Asked, Wanted, CondRequests, SetRequests;
    assert UpdateRequests(d, sets, field, current, cs) == qs + qv + add + qc;
    hide UpdateRequests, VersionIs;
    UpdatesDoNotJoin(d, sets, field);
    CondsJoin(d, v, [And]);
    CondsJoin(d, cs, Ands(|cs|));
    hide AddRequest;
    JoinsAppend(d, qs + qv + add, qc);
    JoinsAppend(d, qs + qv, add);
    JoinsAppend(d, qs, qv);
    assert [] + [And] + [] + Ands(|cs|) == Ands(1 + |cs|);
  }

  lemma UpdateAsks(d: Dialect, sets: seq<(string, Option<AV>)>, field: string, current: AV, cs: seq<Condition>)
    requires Takes(d, [VersionIs(field, current)]) && Takes(d, cs)
    ensures var qs := UpdateRequests(d, sets, field, current, cs);
            var all := [VersionIs(field, current)] + cs;
            Takes(d, all) && AllAsked(d, qs, Conditions) == Meanings(d, all) && Joins(d, qs) == Ands(|all|)
  {
    UpdateAsksFor(d, sets, field, current, cs);
    UpdateJoins(d, sets, field, current, cs);
    MeaningsConcat(d, [VersionIs(field, current)], cs);
  }

  lemma {:induction false} NoJoins(d: Dialect, qs: seq<Request>)
    requires forall i :: 0 <= i < |qs| ==> !qs[i].AddCondition?
    ensures Joins(d, qs) == []
    decreases |qs|
  {
    if qs != [] {
      NoJoins(d, qs[1..]);
    }
  }

  lemma VersionAndOthers(d: Dialect, sem: Semantics, item: Item, field: string, current: AV, cs: seq<Condition>)
    requires EqualityIsExact(sem) && d.valid(field)
    ensures MeetsAll(d, sem, item, [VersionIs(field, current)] + cs) <==>
            Split(field) in item && item[Split(field)] == current && MeetsAll(d, sem, item, cs)
  {
    var v := VersionIs(field, current);
    KeyConditionMeans(d, sem, item, v);
    hide Meets, Split;
    var all := [v] + cs;
    assert forall c :: c in all <==> c == v || c in cs;
  }

  /** The version guard: an update of a versioned model goes through exactly when the stored
      version is the one the caller read and every other condition holds, so no write
      condition, Where or hand-written expression can weaken it. */
  lemma VersionGuardNeverWeakens(d: Dialect, sem: Semantics, item: Item, b: Draft, sets: seq<(string, Option<AV>)>, field: string, current: AV,
                                 cs: seq<Condition>, raws: seq<Raw>, b': Draft, parts: set<string>)
    requires EqualityIsExact(sem) && d.valid(field) && Takes(d, [VersionIs(field, current)]) && Takes(d, cs) && Blank(d, b, parts)
    requires var qs := UpdateRequests(d, sets, field, current, cs); Run(d, b, qs, b') && Uses(d, qs, parts)
    requires var r := Merge(Text(b'.conditions, b'.conditionOps), b'.env, raws); r.Some? && RawsReadable(r.value.1, raws)
    ensures var (t, e) := Merge(Text(b'.conditions, b'.conditionOps), b'.env, raws).value;
            EvalText(sem, item, e, t) <==>
              && Split(field) in item && item[Split(field)] == current
              && MeetsAll(d, sem, item, cs) && RawsHold(sem, item, e, raws)
  {
    var qs := UpdateRequests(d, sets, field, current, cs);
    var all := [VersionIs(field, current)] + cs;
    VersionAndOthers(d, sem, item, field, current, cs);
    hide Run, Uses, UpdateRequests, AllAsked, Joins, MeetsAll, Takes, Merge, EvalText, RawsReadable, RawsHold, VersionIs, Split;
    UpdateAsks(d, sets, field, current, cs);
    RunConditionsSay(d, b, qs, b', parts);
    var base := Text(b'.conditions, b'.conditionOps);
    AndTextMeans(d, sem, item, b'.env, base, all);
    MergeMeansAll(sem, item, base, b'.env, raws);
  }

  /** The same, read off the query: the stored version is the one read, and every write
      condition, every Where condition that names no key and every expression holds. */
  lemma VersionedGuardHoldsIff(d: Dialect, sem: Semantics, item: Item, b: Draft, sets: seq<(string, Option<AV>)>, field: string, current: AV,
                               q: Query, writes: seq<Condition>, raws: seq<Raw>, cs: seq<Condition>, b': Draft, parts: set<string>)
    requires EqualityIsExact(sem) && AbsenceIsExact(sem) && d.valid(field) && Takes(d, [VersionIs(field, current)]) && Takes(d, cs) && Blank(d, b, parts)
    requires Collects(q, writes, raws, Mode(true, true, false), cs)
    requires var qs := UpdateRequests(d, sets, field, current, cs); Run(d, b, qs, b') && Uses(d, qs, parts)
    requires var r := Merge(Text(b'.conditions, b'.conditionOps), b'.env, raws); r.Some? && RawsReadable(r.value.1, raws)
    ensures var (t, e) := Merge(Text(b'.conditions, b'.conditionOps), b'.env, raws).value;
            EvalText(sem, item, e, t) <==>
              && Split(field) in item && item[Split(field)] == current
              && GuardAsks(d, sem, item, q, writes, raws, Mode(true, true, false)) && RawsHold(sem, item, e, raws)
  {
    hide *;
    CollectedMeet(d, sem, item, q, writes, raws, Mode(true, true, false), cs);
    VersionGuardNeverWeakens(d, sem, item, b, sets, field, current, cs, raws, b', parts);
  }

  // ----- what the update says

  lemma {:induction false} AskedPaths(d: Dialect, qs: seq<Request>, slot: Slot, m: Meaning)
    requires m in AllAsked(d, qs, slot)
    ensures m.Says? && exists i :: 0 <= i < |qs| && m.path == Split(qs[i].field)
    decreases |qs|
  {
    AskedPath(d, qs[0]);
    if m !in Extra(d, qs[0], slot) {
      AskedPaths(d, qs[1..], slot, m);
      var i :| 0 <= i < |qs[1..]| && m.path == Split(qs[1..][i].field);
      assert qs[i + 1] == qs[1..][i];
    }
  }

  /** The sets, and then the increment. */
  lemma UpdateSays(d: Dialect, sets: seq<(string, Option<AV>)>, field: string, current: AV, cs: seq<Condition>)
    requires d.valid(field)
    ensures AllAsked(d, UpdateRequests(d, sets, field, current, cs), Updates) ==
            AllAsked(d, SetRequests(d, sets), Updates) + [Says(Split(field), AddTo, [N("1")])]
  {
    var v := [VersionIs(field, current)];
    var qs, add, qv, qc := SetRequests(d, sets), [AddRequest(d, field, Some(N("1")))], CondRequests(v, [And]), CondRequests(cs, Ands(|cs|));
    assert UpdateRequests(d, sets, field, current, cs) == qs + qv + add + qc;
    AskedNone(d, qv, Updates);
    AskedNone(d, qc, Updates);
    IncrementAsked(d, field);
    var inc := Says(Split(field), AddTo, [N("1")]);
    assert add[1..] == [] && AllAsked(d, add, Updates) == [inc] + [];
    hide CondRequests, SetRequests, AllAsked, UpdateRequests, Asked, Split;
    AskedAppend(d, qs + qv + add, qc, Updates);
    AskedAppend(d, qs + qv, add, Updates);
    AskedAppend(d, qs, qv, Updates);
    Reassociate(AllAsked(d, qs, Updates), [], []);
    Reassociate(AllAsked(d, qs, Updates) + [inc], [], []);
  }

  // ----- runs

  type Client = nat

  function Num(n: nat): AV {
    N(Digits(n))
  }

  /** How the table carries out one action on an item: left open, except that an action
      touches no other top-level attribute and that adding one to a number counts. */
  type Carry = (Item, Meaning) -> Item

  ghost predicate HonestCarry(carry: Carry) {
    && (forall item, m: Meaning, name: string :: m.Says? && m.path != [] && m.path[0] != name ==> Same(item, carry(item, m), [name]))
    && (forall item: Item, name: string, n: nat :: [name] in item && item[[name]] == Num(n) ==> Counts(carry(item, Says([name], AddTo, [N("1")])), name, n + 1))
  }

  predicate Same(x: Item, y: Item, path: seq<string>) {
    (path in x <==> path in y) && (path in x ==> x[path] == y[path])
  }

  predicate Counts(item: Item, name: string, n: nat) {
    [name] in item && item[[name]] == Num(n)
  }

  function Carried(carry: Carry, item: Item, ms: seq<Meaning>): Item
    decreases |ms|
  {
    if ms == [] then item else Carried(carry, carry(item, ms[0]), ms[1..])
  }

  /** The dialect, the table's ways, and the model's version and partition key attributes. */
  datatype World = World(d: Dialect, sem: Semantics, carry: Carry, version: string, pk: string)

  ghost predicate WorldOk(w: World) {
    && EqualityIsExact(w.sem) && AbsenceIsExact(w.sem) && HonestCarry(w.carry)
    && w.d.valid(w.version) && '.' !in w.version && w.d.valid(w.pk) && '.' !in w.pk && w.pk != w.version
  }

  /** What IfNotExists adds to the write conditions. */
  function AbsentKey(w: World): Condition {
    Condition(w.pk, "attribute_not_exists", Arg(true, None, None))
  }

  /** One IfNotExists().Create(): its conditions, and its builder before and after. */
  datatype Creation = Creation(cs: seq<Condition>, raws: seq<Raw>, b: Draft, b': Draft, parts: set<string>)

  ghost predicate SendsCreate(w: World, make: Creation) {
    && Blank(w.d, make.b, make.parts) && Takes(w.d, make.cs) && AbsentKey(w) in make.cs
    && (var qs := CondRequests(make.cs, Ands(|make.cs|)); Run(w.d, make.b, qs, make.b') && Uses(w.d, qs, make.parts))
    && Sendable(make.b', make.raws)
  }

  /** The guard that is sent can be read. */
  ghost predicate Sendable(b: Draft, raws: seq<Raw>) {
    match Merge(Text(b.conditions, b.conditionOps), b.env, raws)
    case None => false
    case Some((_, e)) => RawsReadable(e, raws)
  }

  /** The table evaluates the guard that was sent on the stored item; where there is none,
      on an item without attributes. */
  ghost predicate Passes(w: World, b: Draft, raws: seq<Raw>, item: Item)
    requires Sendable(b, raws)
  {
    var (t, e) := Merge(Text(b.conditions, b.conditionOps), b.env, raws).value;
    EvalText(w.sem, item, e, t)
  }

  /** One Query.Update: what it sets, its other conditions, and its builder before and after. */
  datatype Call = Call(sets: seq<(string, Option<AV>)>, cs: seq<Condition>, raws: seq<Raw>, b: Draft, b': Draft, parts: set<string>)

  /** The builder did what UpdateVersioned does for a model that carries this version, and
      sets no part of the version attribute itself. */
  ghost predicate Sends(w: World, call: Call, current: AV) {
    && Blank(w.d, call.b, call.parts) && call.b.updates == []
    && Takes(w.d, [VersionIs(w.version, current)]) && Takes(w.d, call.cs)
    && (var qs := UpdateRequests(w.d, call.sets, w.version, current, call.cs); Run(w.d, call.b, qs, call.b') && Uses(w.d, qs, call.parts))
    && Sendable(call.b', call.raws)
    && (forall i :: 0 <= i < |call.sets| ==> SetHead(w, call, i) != w.version && SetHead(w, call, i) != w.pk)
  }

  /** The top-level attribute the i-th set writes. */
  function SetHead(w: World, call: Call, i: nat): string
    requires i < |call.sets|
  {
    Split(SetRequest(w.d, call.sets[i].0, call.sets[i].1).field)[0]
  }

  ghost predicate GoesThrough(w: World, call: Call, item: Item)
    requires Sendable(call.b', call.raws)
  {
    Passes(w, call.b', call.raws, item)
  }

  /** An update that went through: what its client had read, and what it said. */
  datatype Success = Success(read: Item, said: seq<Meaning>)

  /** history lists every state the item has had, oldest first; it is empty before creation. */
  datatype State = State(history: seq<Item>, snapshots: map<Client, Item>, log: seq<Success>)

  datatype Event =
    | Create(item: Item, version: nat, make: Creation)     // IfNotExists().Create()
    | Read(client: Client, at: nat)                        // any state so far may be returned
    | Update(client: Client, call: Call)

  const INIT: State := State([], map[], [])

  ghost predicate Enabled(w: World, s: State, e: Event) {
    match e
    case Create(item, version, make) => Counts(item, w.version, version) && [w.pk] in item && SendsCreate(w, make)
    case Read(_, at) => at < |s.history|
    case Update(c, call) => c in s.snapshots && [w.version] in s.snapshots[c] && Sends(w, call, s.snapshots[c][[w.version]])
  }

  /** The stored item; without one, no attribute is there. */
  function Stored(s: State): Item {
    if s.history == [] then map[] else Current(s)
  }

  function Current(s: State): Item
    requires s.history != []
  {
    s.history[|s.history| - 1]
  }

  ghost function Step(w: World, s: State, e: Event): State
    requires Enabled(w, s, e)
  {
    match e
    case Create(item, _, make) => if Passes(w, make.b', make.raws, Stored(s)) then s.(history := s.history + [item]) else s
    case Read(c, at) => s.(snapshots := s.snapshots[c := s.history[at]])
    case Update(c, call) =>
      if s.history != [] && GoesThrough(w, call, Current(s)) && Said(call.b', Updates).Some?
      then
        var said := Said(call.b', Updates).value;
        s.(history := s.history + [Carried(w.carry, Current(s), said)], log := s.log + [Success(s.snapshots[c], said)])
      else s
  }

  ghost predicate ValidRun(w: World, s: State, es: seq<Event>)
    decreases |es|
  {
    es == [] || (Enabled(w, s, es[0]) && ValidRun(w, Step(w, s, es[0]), es[1..]))
  }

  ghost function After(w: World, s: State, es: seq<Event>): State
    requires ValidRun(w, s, es)
    decreases |es|
  {
    if es == [] then s else After(w, Step(w, s, es[0]), es[1..])
  }

  // ----- the invariant

  /** The i-th state carries version first + i. */
  ghost predicate Numbered(w: World, history: seq<Item>, first: nat) {
    forall i :: 0 <= i < |history| ==> Counts(history[i], w.version, first + i)
  }

  ghost predicate Keyed(w: World, history: seq<Item>) {
    forall i :: 0 <= i < |history| ==> [w.pk] in history[i]
  }

  /** Whatever a client has read is a state the item has had. */
  ghost predicate Seen(history: seq<Item>, snapshots: map<Client, Item>) {
    forall c :: c in snapshots ==> snapshots[c] in history
  }

  /** The i-th success was computed from the i-th state and left the next one. */
  ghost predicate Chained(w: World, history: seq<Item>, log: seq<Success>) {
    && (if history == [] then log == [] else |history| == |log| + 1)
    && (forall i :: 0 <= i < |log| ==> log[i].read == history[i] && history[i + 1] == Carried(w.carry, log[i].read, log[i].said))
  }

  ghost predicate Inv(w: World, s: State) {
    (exists first: nat :: Numbered(w, s.history, first)) && Keyed(w, s.history) && Seen(s.history, s.snapshots) && Chained(w, s.history, s.log)
  }

  /** Equal versions mean equal states, since every state has its own version. */
  lemma VersionsTell(w: World, history: seq<Item>, first: nat, read: Item)
    requires history != [] && Numbered(w, history, first) && read in history
    requires [w.version] in read && [w.version] in history[|history| - 1] && read[[w.version]] == history[|history| - 1][[w.version]]
    ensures read == history[|history| - 1]
  {
    var j :| 0 <= j < |history| && history[j] == read;
    assert Counts(history[j], w.version, first + j) && Counts(history[|history| - 1], w.version, first + (|history| - 1));
    DigitsInjective(first + j, first + (|history| - 1));
  }

  lemma {:induction false} CarriedKeeps(carry: Carry, item: Item, ms: seq<Meaning>, name: string)
    requires HonestCarry(carry) && forall i :: 0 <= i < |ms| ==> ms[i].Says? && ms[i].path != [] && ms[i].path[0] != name
    ensures Same(item, Carried(carry, item, ms), [name])
    decreases |ms|
  {
    if ms != [] {
      assert Same(item, carry(item, ms[0]), [name]);
      CarriedKeeps(carry, carry(item, ms[0]), ms[1..], name);
    }
  }

  lemma {:induction false} CarriedThen(carry: Carry, item: Item, ms: seq<Meaning>, m: Meaning)
    ensures Carried(carry, item, ms + [m]) == carry(Carried(carry, item, ms), m)
    decreases |ms|
  {
    if ms == [] {
      assert ms + [m] == [m] && [m][1..] == [];
      assert Carried(carry, carry(item, m), []) == carry(item, m);
    } else {
      assert (ms + [m])[0] == ms[0] && (ms + [m])[1..] == ms[1..] + [m];
      CarriedThen(carry, carry(item, ms[0]), ms[1..], m);
    }
  }

  /** The table reads the version guard out of what was sent. */
  lemma SentGuard(w: World, call: Call, current: AV, item: Item)
    requires WorldOk(w) && Sends(w, call, current) && GoesThrough(w, call, item)
    ensures [w.version] in item && item[[w.version]] == current
  {
    SplitPlain(w.version);
    hide Run, Uses, Blank, Takes, Merge, EvalText, MeetsAll, RawsHold, RawsReadable, UpdateRequests, Split;
    VersionGuardNeverWeakens(w.d, w.sem, item, call.b, call.sets, w.version, current, call.cs, call.raws, call.b', call.parts);
  }

  /** What was sent adds one to the version. */
  lemma SentIncrement(w: World, call: Call, current: AV, item: Item, n: nat)
    requires WorldOk(w) && Sends(w, call, current) && Counts(item, w.version, n)
    ensures Said(call.b', Updates).Some? && Counts(Carried(w.carry, item, Said(call.b', Updates).value), w.version, n + 1)
  {
    var sets := AllAsked(w.d, SetRequests(w.d, call.sets), Updates);
    var inc := Says([w.version], AddTo, [N("1")]);
    SentSays(w, call, current);
    SetsSpare(w, call, w.version);
    hide Sends, AllAsked, HonestCarry, Counts, SetRequests, Said;
    CarriedThen(w.carry, item, sets, inc);
    CarriedKeeps(w.carry, item, sets, w.version);
    SameCounts(item, Carried(w.carry, item, sets), w.version, n);
    Increments(w, Carried(w.carry, item, sets), n);
  }

  lemma SameCounts(x: Item, y: Item, name: string, n: nat)
    requires Same(x, y, [name]) && Counts(x, name, n)
    ensures Counts(y, name, n)
  {
  }

  lemma SentSays(w: World, call: Call, current: AV)
    requires WorldOk(w) && Sends(w, call, current)
    ensures Said(call.b', Updates) == Some(AllAsked(w.d, SetRequests(w.d, call.sets), Updates) + [Says([w.version], AddTo, [N("1")])])
  {
    var qs := UpdateRequests(w.d, call.sets, w.version, current, call.cs);
    assert Said(call.b, Updates) == Some([]);
    SplitPlain(w.version);
    hide Run, Uses, UpdateRequests, AllAsked, Takes, Split, NoVariants, NamesFrom, Fresh, HonestCarry, Merge, RawsReadable, SetRequests, DecodeAll;
    UpdateSays(w.d, call.sets, w.version, current, call.cs);
    RunSays(w.d, call.b, qs, call.b', call.parts, Updates);
    Reassociate(AllAsked(w.d, qs, Updates), [], []);
  }

  lemma Increments(w: World, item: Item, n: nat)
    requires HonestCarry(w.carry) && Counts(item, w.version, n)
    ensures Counts(w.carry(item, Says([w.version], AddTo, [N("1")])), w.version, n + 1)
  {
  }

  lemma SetsSpare(w: World, call: Call, name: string)
    requires forall i :: 0 <= i < |call.sets| ==> SetHead(w, call, i) != name
    ensures var sets := AllAsked(w.d, SetRequests(w.d, call.sets), Updates);
            forall i :: 0 <= i < |sets| ==> sets[i].Says? && sets[i].path != [] && sets[i].path[0] != name
  {
    var qs := SetRequests(w.d, call.sets);
    var sets := AllAsked(w.d, qs, Updates);
    hide AllAsked, SetRequest;
    forall i | 0 <= i < |sets| ensures sets[i].Says? && sets[i].path != [] && sets[i].path[0] != name {
      AskedPaths(w.d, qs, Updates, sets[i]);
      var j :| 0 <= j < |qs| && sets[i].path == Split(qs[j].field);
      assert SetHead(w, call, j) != name;
    }
  }

  /** What was sent leaves the key alone. */
  lemma SentKeepsKey(w: World, call: Call, current: AV, item: Item)
    requires WorldOk(w) && Sends(w, call, current) && [w.pk] in item
    ensures Said(call.b', Updates).Some? && [w.pk] in Carried(w.carry, item, Said(call.b', Updates).value)
  {
    var sets := AllAsked(w.d, SetRequests(w.d, call.sets), Updates);
    var inc := Says([w.version], AddTo, [N("1")]);
    SentSays(w, call, current);
    SetsSpare(w, call, w.pk);
    hide Sends, AllAsked, HonestCarry, SetRequests, Said;
    var said := sets + [inc];
    assert forall i :: 0 <= i < |said| ==> said[i] == if i < |sets| then sets[i] else inc;
    CarriedKeeps(w.carry, item, said, w.pk);
  }

  /** The guard of a create passes only where there is no item. */
  lemma CreatePassesOnce(w: World, make: Creation, item: Item)
    requires WorldOk(w) && SendsCreate(w, make) && Passes(w, make.b', make.raws, item)
    ensures [w.pk] !in item
  {
    hide Run, Uses, Blank, Takes, Merge, EvalText, RawsHold, RawsReadable, CondRequests;
    GuardMeansAll(w.d, w.sem, item, make.b, make.cs, make.b', make.raws, make.parts);
    AbsenceAsked(w.d, w.pk);
    hide Wanted;
    SplitPlain(w.pk);
    assert Meets(w.d, w.sem, item, AbsentKey(w));
  }

  lemma SuccessChains(w: World, history: seq<Item>, first: nat, log: seq<Success>, x: Success)
    requires history != [] && Numbered(w, history, first) && Chained(w, history, log) && x.read == history[|history| - 1]
    requires Counts(Carried(w.carry, x.read, x.said), w.version, first + |history|)
    ensures Numbered(w, history + [Carried(w.carry, x.read, x.said)], first) && Chained(w, history + [Carried(w.carry, x.read, x.said)], log + [x])
  {
    var next := Carried(w.carry, x.read, x.said);
    hide Counts, Carried;
    assert forall i :: 0 <= i < |history| ==> (history + [next])[i] == history[i];
    assert forall i :: 0 <= i < |log| ==> (log + [x])[i] == log[i];
  }

  lemma StillSeen(history: seq<Item>, x: Item, snapshots: map<Client, Item>)
    requires Seen(history, snapshots)
    ensures Seen(history + [x], snapshots)
  {
  }

  /** An update that goes through read the last state, and leaves the next one. */
  lemma UpdateChains(w: World, history: seq<Item>, first: nat, log: seq<Success>, read: Item, call: Call)
    requires WorldOk(w) && history != [] && Numbered(w, history, first) && Chained(w, history, log)
    requires read in history && [w.version] in read && Sends(w, call, read[[w.version]]) && GoesThrough(w, call, history[|history| - 1])
    ensures Said(call.b', Updates).Some?
    ensures var said := Said(call.b', Updates).value;
            var next := Carried(w.carry, history[|history| - 1], said);
            ([w.pk] in history[|history| - 1] ==> [w.pk] in next) && Numbered(w, history + [next], first) && Chained(w, history + [next], log + [Success(read, said)])
  {
    var now := history[|history| - 1];
    var current := read[[w.version]];
    assert Counts(now, w.version, first + (|history| - 1));
    hide WorldOk, Sends, GoesThrough, Said, Numbered, Chained, Carried, Merge;
    SentGuard(w, call, current, now);
    VersionsTell(w, history, first, read);
    hide Counts;
    SentIncrement(w, call, current, now, first + (|history| - 1));
    SuccessChains(w, history, first, log, Success(read, Said(call.b', Updates).value));
    if [w.pk] in now { SentKeepsKey(w, call, current, now); }
  }

  lemma UpdateKeepsInv(w: World, s: State, c: Client, call: Call)
    requires WorldOk(w) && Enabled(w, s, Update(c, call)) && Inv(w, s) && s.history != [] && GoesThrough(w, call, Current(s))
    ensures Inv(w, Step(w, s, Update(c, call)))
  {
    hide WorldOk, Sends, GoesThrough, Said, Numbered, Chained, Carried, Merge, Step;
    var first: nat :| Numbered(w, s.history, first);
    assert s.snapshots[c] in s.history && [w.pk] in Current(s);
    UpdateChains(w, s.history, first, s.log, s.snapshots[c], call);
    StepUpdateIs(w, s, c, call);
    hide Enabled;
    var next := Carried(w.carry, Current(s), Said(call.b', Updates).value);
    StillSeen(s.history, next, s.snapshots);
    StillKeyed(w, s.history, next);
    hide Seen, Keyed;
  }

  lemma StillKeyed(w: World, history: seq<Item>, x: Item)
    requires Keyed(w, history) && [w.pk] in x
    ensures Keyed(w, history + [x])
  {
  }

  lemma CreateKeepsInv(w: World, s: State, item: Item, version: nat, make: Creation)
    requires WorldOk(w) && Enabled(w, s, Create(item, version, make)) && Inv(w, s)
    ensures Inv(w, Step(w, s, Create(item, version, make)))
  {
    assert Sendable(make.b', make.raws);
    hide WorldOk, SendsCreate, Passes, Numbered, Seen, Chained, Counts, Sendable;
    if Passes(w, make.b', make.raws, Stored(s)) {
      CreatePassesOnce(w, make, Stored(s));
      assert s.history == [] && s.history + [item] == [item];
      Created(w, s, item, version);
    }
  }

  lemma Created(w: World, s: State, item: Item, version: nat)
    requires s.history == [] && Inv(w, s) && Counts(item, w.version, version) && [w.pk] in item
    ensures Inv(w, s.(history := [item]))
  {
    assert Numbered(w, [item], version);
  }

  lemma StepUpdateIs(w: World, s: State, c: Client, call: Call)
    requires Enabled(w, s, Update(c, call)) && s.history != [] && GoesThrough(w, call, Current(s)) && Said(call.b', Updates).Some?
    ensures var said := Said(call.b', Updates).value;
            Step(w, s, Update(c, call)) == s.(history := s.history + [Carried(w.carry, Current(s), said)], log := s.log + [Success(s.snapshots[c], said)])
  {
    hide Sends, GoesThrough, Said, Carried, Merge;
  }

  lemma StepKeepsInv(w: World, s: State, e: Event)
    requires WorldOk(w) && Enabled(w, s, e) && Inv(w, s)
    ensures Inv(w, Step(w, s, e))
  {
    assert e.Update? ==> Sendable(e.call.b', e.call.raws);
    hide WorldOk, Sends, SendsCreate, GoesThrough, Passes, Numbered, Chained, Carried, Counts, Sendable;
    match e
    case Create(item, version, make) => CreateKeepsInv(w, s, item, version, make);
    case Read(_, _) =>
    case Update(c, call) =>
      if s.history != [] && GoesThrough(w, call, Current(s)) {
        hide Inv, Enabled, Step;
        UpdateKeepsInv(w, s, c, call);
      }
  }

  lemma {:induction false} RunKeepsInv(w: World, s: State, es: seq<Event>)
    requires WorldOk(w) && ValidRun(w, s, es) && Inv(w, s)
    ensures Inv(w, After(w, s, es))
    decreases |es|
  {
    if es != [] {
      hide WorldOk, Inv, Enabled, Step;
      StepKeepsInv(w, s, es[0]);
      RunKeepsInv(w, Step(w, s, es[0]), es[1..]);
    }
  }

  ghost predicate NothingLost(w: World, s: State)
    requires s.history != []
  {
    && |s.history| == |s.log| + 1
    && (exists first: nat :: Counts(s.history[0], w.version, first) && Counts(Current(s), w.version, first + |s.log|))
    && (forall i :: 0 <= i < |s.log| ==> s.log[i].read == s.history[i] && s.history[i + 1] == Carried(w.carry, s.log[i].read, s.log[i].said))
    && (forall i, j :: 0 <= i < j < |s.log| && [w.version] in s.log[i].read && [w.version] in s.log[j].read ==>
          s.log[i].read[[w.version]] != s.log[j].read[[w.version]])
  }

  lemma InvSays(w: World, s: State)
    requires Inv(w, s) && s.history != []
    ensures NothingLost(w, s)
  {
    hide Carried, Numbered, Counts, Keyed, Seen;
    var first: nat :| Numbered(w, s.history, first);
    FirstAndLast(w, s.history, first);
    forall i, j | 0 <= i < j < |s.log| && [w.version] in s.log[i].read && [w.version] in s.log[j].read
      ensures s.log[i].read[[w.version]] != s.log[j].read[[w.version]]
    {
      VersionsDiffer(w, s.history, first, i, j);
    }
  }

  lemma FirstAndLast(w: World, history: seq<Item>, first: nat)
    requires history != [] && Numbered(w, history, first)
    ensures Counts(history[0], w.version, first) && Counts(history[|history| - 1], w.version, first + (|history| - 1))
  {
    assert Counts(history[0], w.version, first + 0);
  }

  lemma VersionsDiffer(w: World, history: seq<Item>, first: nat, i: nat, j: nat)
    requires Numbered(w, history, first) && i < j < |history|
    ensures [w.version] in history[i] && [w.version] in history[j] && history[i][[w.version]] != history[j][[w.version]]
  {
    assert Counts(history[i], w.version, first + i) && Counts(history[j], w.version, first + j);
    hide Digits;
    if Digits(first + i) == Digits(first + j) { DigitsInjective(first + i, first + j); }
  }

  /** Versioned updates lose nothing.  In every run of guarded creates, stale reads and
      updates, each of which goes through exactly when the guard its builder sent evaluates to
      true on the stored item, whatever other conditions and hand-written expressions are in
      it: the stored version has risen by exactly the number of updates that went through; the
      i-th of them was computed from the very state its predecessor left, and what it said was
      carried out on that state; and no two consumed the same version. */
  lemma UpdatesLoseNothing(w: World, es: seq<Event>)
    requires WorldOk(w) && ValidRun(w, INIT, es) && After(w, INIT, es).history != []
    ensures NothingLost(w, After(w, INIT, es))
  {
    assert Numbered(w, [], 0);
    assert Inv(w, INIT);
    hide Inv, ValidRun, Counts, Carried;
    RunKeepsInv(w, INIT, es);
    InvSays(w, After(w, INIT, es));
  }
}
