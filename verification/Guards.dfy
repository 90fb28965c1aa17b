/** Write conditions: how pkg/query and pkg/transaction join a builder's own conditions,
    the query's write conditions and hand-written expressions into one guard. */
module Guards {
  import opened Wrappers
  import opened AttributeValues
  import opened Expressions
  import opened Builder
  import opened Compile
  import opened Reads

  /** An expression text; no fragments is the empty string. */
  datatype Text = Text(frags: seq<Frag>, ops: seq<Logic>)

  predicate Readable(e: Env, t: Text) {
    DecodeAll(e, t.frags).Some?
  }

  predicate EvalText(sem: Semantics, item: Item, e: Env, t: Text) {
    Readable(e, t) && EvalChain(sem, item, DecodeAll(e, t.frags).value, t.ops)
  }

  /** "(a) AND (b)" */
  function Conj(a: Text, b: Text): Text {
    Text([Group(a.frags, a.ops), Group(b.frags, b.ops)], [And])
  }

  lemma ConjMeans(sem: Semantics, item: Item, e: Env, a: Text, b: Text)
    requires Readable(e, a) && Readable(e, b)
    ensures Readable(e, Conj(a, b))
    ensures EvalText(sem, item, e, Conj(a, b)) <==> EvalText(sem, item, e, a) && EvalText(sem, item, e, b)
  {
    var ga, gb := Group(a.frags, a.ops), Group(b.frags, b.ops);
    var ma, mb := Decode(e, ga).value, Decode(e, gb).value;
    DecodeSingle(e, ga);
    DecodeAppend(e, [ga], gb);
    assert [ga] + [gb] == [ga, gb] && [ma] + [mb] == [ma, mb];
    AndsMeanAll(sem, item, [ma, mb]);
    assert Ands(1) == [And];
    assert EvalEvery(sem, item, [ma, mb]) <==> Eval(sem, item, [ma, mb][0]) && Eval(sem, item, [ma, mb][1]);
  }

  // ----- hand-written expressions

  /** An expression with its values, some of which may not convert. */
  datatype Raw = Raw(text: Text, values: map<string, Option<AV>>)

  predicate Acceptable(e: Env, raw: Raw) {
    forall k :: k in raw.values ==> k !in e.values && raw.values[k].Some?
  }

  function WithValues(e: Env, raw: Raw): Env
    requires Acceptable(e, raw)
  {
    e.(values := e.values + map k | k in raw.values :: raw.values[k].value)
  }

  function Joined(t: Text, raw: Text): Text {
    if t.frags == [] then raw else Conj(t, raw)
  }

  /** mergeConditionExpressions and mergeRawConditions: an empty expression is skipped with
      its values; a placeholder already in use, or a value that does not convert, is an error. */
  function Merge(t: Text, e: Env, raws: seq<Raw>): Option<(Text, Env)>
    decreases |raws|
  {
    if raws == [] then Some((t, e))
    else if raws[0].text.frags == [] then Merge(t, e, raws[1..])
    else if !Acceptable(e, raws[0]) then None
    else Merge(Joined(t, raws[0].text), WithValues(e, raws[0]), raws[1..])
  }

  method MergeConditionExpressions(t: Text, e: Env, raws: seq<Raw>) returns (r: Option<(Text, Env)>)
    ensures r == Merge(t, e, raws)
  {
    var merged, env := t, e;
    var i := 0;
    while i < |raws|
      invariant 0 <= i <= |raws|
      invariant Merge(t, e, raws) == Merge(merged, env, raws[i..])
    {
      var raw := raws[i];
      assert raws[i..][0] == raw && raws[i..][1..] == raws[i + 1..];
      i := i + 1;
      if raw.text.frags == [] {
        continue;
      }
      if exists k :: k in raw.values && (k in env.values || raw.values[k].None?) {
        return None;
      }
      env := WithValues(env, raw);
      if merged.frags == [] {
        merged := raw.text;
      } else {
        merged := Conj(merged, raw.text);
      }
    }
    return Some((merged, env));
  }

  ghost predicate RawsReadable(e: Env, raws: seq<Raw>) {
    forall i :: 0 <= i < |raws| ==> Readable(e, raws[i].text)
  }

  ghost predicate RawsHold(sem: Semantics, item: Item, e: Env, raws: seq<Raw>) {
    forall i :: 0 <= i < |raws| && raws[i].text.frags != [] ==> EvalText(sem, item, e, raws[i].text)
  }

  lemma JoinedMeans(sem: Semantics, item: Item, e: Env, t: Text, raw: Text)
    requires Readable(e, t) && Readable(e, raw)
    ensures Readable(e, Joined(t, raw))
    ensures EvalText(sem, item, e, Joined(t, raw)) <==> EvalText(sem, item, e, t) && EvalText(sem, item, e, raw)
  {
    if t.frags != [] {
      ConjMeans(sem, item, e, t, raw);
    } else {
      assert DecodeAll(e, t.frags) == Some([]);
    }
  }

  lemma TextStable(sem: Semantics, item: Item, e: Env, e': Env, t: Text)
    requires Extends(e, e') && Readable(e, t)
    ensures Readable(e', t) && EvalText(sem, item, e', t) == EvalText(sem, item, e, t)
  {
    DecodeAllStable(e, e', t.frags);
  }

  lemma {:induction false} MergeExtends(t: Text, e: Env, raws: seq<Raw>)
    requires Merge(t, e, raws).Some?
    ensures Extends(e, Merge(t, e, raws).value.1)
    decreases |raws|
  {
    if raws != [] {
      if raws[0].text.frags == [] {
        MergeExtends(t, e, raws[1..]);
      } else {
        MergeExtends(Joined(t, raws[0].text), WithValues(e, raws[0]), raws[1..]);
      }
    }
  }

  lemma RawsCons(sem: Semantics, item: Item, e: Env, raws: seq<Raw>)
    requires raws != []
    ensures RawsHold(sem, item, e, raws) <==>
            (raws[0].text.frags != [] ==> EvalText(sem, item, e, raws[0].text)) && RawsHold(sem, item, e, raws[1..])
    ensures RawsReadable(e, raws) ==> RawsReadable(e, raws[1..])
  {
    var rest := raws[1..];
    assert forall i :: 0 <= i < |rest| ==> rest[i] == raws[i + 1];
    if (raws[0].text.frags != [] ==> EvalText(sem, item, e, raws[0].text)) && RawsHold(sem, item, e, rest) {
      forall i | 0 <= i < |raws| && raws[i].text.frags != [] ensures EvalText(sem, item, e, raws[i].text) {
        if i > 0 { assert raws[i] == rest[i - 1]; }
      }
    }
  }

  /** In any environment that reads all the pieces, the merged text means all of them. */
  lemma {:induction false} MergedText(sem: Semantics, item: Item, full: Env, t: Text, e: Env, raws: seq<Raw>)
    requires Merge(t, e, raws).Some? && Readable(full, t) && RawsReadable(full, raws)
    ensures Readable(full, Merge(t, e, raws).value.0)
    ensures EvalText(sem, item, full, Merge(t, e, raws).value.0) <==> EvalText(sem, item, full, t) && RawsHold(sem, item, full, raws)
    decreases |raws|
  {
    if raws != [] {
      RawsCons(sem, item, full, raws);
      if raws[0].text.frags == [] {
        MergedText(sem, item, full, t, e, raws[1..]);
      } else {
        JoinedMeans(sem, item, full, t, raws[0].text);
        MergedText(sem, item, full, Joined(t, raws[0].text), WithValues(e, raws[0]), raws[1..]);
      }
    }
  }

  /** A merged guard holds exactly when the base holds, as it did before any value was
      merged, and every hand-written expression does. */
  lemma MergeMeansAll(sem: Semantics, item: Item, t: Text, e: Env, raws: seq<Raw>)
    requires Merge(t, e, raws).Some? && Readable(e, t)
    requires RawsReadable(Merge(t, e, raws).value.1, raws)
    ensures var (t', e') := Merge(t, e, raws).value;
            && Readable(e', t')
            && (EvalText(sem, item, e', t') <==> EvalText(sem, item, e, t) && RawsHold(sem, item, e', raws))
  {
    var e' := Merge(t, e, raws).value.1;
    MergeExtends(t, e, raws);
    TextStable(sem, item, e, e', t);
    MergedText(sem, item, e', t, e, raws);
  }

  predicate Brings(raw: Raw, k: string) {
    raw.text.frags != [] && k in raw.values
  }

  ghost predicate Taken(e: Env, raws: seq<Raw>, i: int, k: string)
    requires 0 <= i <= |raws|
  {
    k in e.values || exists j :: 0 <= j < i && Brings(raws[j], k)
  }

  /** A placeholder is used twice when a non-empty expression brings one that the builder,
      or an earlier non-empty expression, already bound. */
  ghost predicate DuplicatePlaceholder(e: Env, raws: seq<Raw>) {
    exists i, k :: 0 <= i < |raws| && Brings(raws[i], k) && Taken(e, raws, i, k)
  }

  ghost predicate Unconvertible(raws: seq<Raw>) {
    exists i, k :: 0 <= i < |raws| && Brings(raws[i], k) && raws[i].values[k].None?
  }

  /** Merging fails exactly on a duplicate placeholder or a value that does not convert. */
  lemma {:induction false} MergeRejectsExactly(t: Text, e: Env, raws: seq<Raw>)
    ensures Merge(t, e, raws).None? <==> DuplicatePlaceholder(e, raws) || Unconvertible(raws)
    decreases |raws|
  {
    if raws != [] {
      if raws[0].text.frags == [] {
        MergeRejectsExactly(t, e, raws[1..]);
        RejectsNext(e, raws, e);
      } else if Acceptable(e, raws[0]) {
        MergeRejectsExactly(Joined(t, raws[0].text), WithValues(e, raws[0]), raws[1..]);
        RejectsNext(e, raws, WithValues(e, raws[0]));
      } else {
        var k :| k in raws[0].values && (k in e.values || raws[0].values[k].None?);
        assert Brings(raws[0], k) && (k in e.values ==> Taken(e, raws, 0, k));
      }
    }
  }

  lemma TakenShift(e: Env, raws: seq<Raw>, e1: Env, i: nat, k: string)
    requires i < |raws| && (k in e1.values <==> k in e.values || Brings(raws[0], k))
    ensures Taken(e, raws, i + 1, k) <==> Taken(e1, raws[1..], i, k)
  {
    var rest := raws[1..];
    if j :| 0 <= j < i + 1 && Brings(raws[j], k) {
      if j > 0 { assert Brings(rest[j - 1], k); }
    }
    if j :| 0 <= j < i && Brings(rest[j], k) {
      assert Brings(raws[j + 1], k);
    }
  }

  /** What the first expression leaves behind decides the rest alike. */
  lemma RejectsNext(e: Env, raws: seq<Raw>, e1: Env)
    requires raws != [] && forall k :: k in e1.values <==> k in e.values || Brings(raws[0], k)
    requires forall k :: Brings(raws[0], k) ==> k !in e.values && raws[0].values[k].Some?
    ensures DuplicatePlaceholder(e, raws) == DuplicatePlaceholder(e1, raws[1..])
    ensures Unconvertible(raws) == Unconvertible(raws[1..])
  {
    var rest := raws[1..];
    if i, k :| 0 <= i < |raws| && Brings(raws[i], k) && Taken(e, raws, i, k) {
      assert i > 0 && rest[i - 1] == raws[i];
      TakenShift(e, raws, e1, i - 1, k);
    }
    if i, k :| 0 <= i < |rest| && Brings(rest[i], k) && Taken(e1, rest, i, k) {
      TakenShift(e, raws, e1, i, k);
      assert Brings(raws[i + 1], k);
    }
    if i, k :| 0 <= i < |raws| && Brings(raws[i], k) && raws[i].values[k].None? {
      assert i > 0 && rest[i - 1] == raws[i];
    }
    if i, k :| 0 <= i < |rest| && Brings(rest[i], k) && rest[i].values[k].None? {
      assert Brings(raws[i + 1], k);
    }
  }

  // ----- adding conditions to a builder

  function CondRequests(cs: seq<Condition>, ls: seq<Logic>): (r: seq<Request>)
    requires |ls| == |cs|
    ensures |r| == |cs| && forall i :: 0 <= i < |cs| ==> r[i] == AddCondition(ls[i], cs[i].field, cs[i].op, cs[i].arg)
  {
    seq(|cs|, i requires 0 <= i < |cs| => AddCondition(ls[i], cs[i].field, cs[i].op, cs[i].arg))
  }

  lemma CondRequestsSnoc(d: Dialect, cs: seq<Condition>, ls: seq<Logic>, i: nat)
    requires |ls| == |cs| && i < |cs|
    ensures CondRequests(cs[..i + 1], ls[..i + 1]) == CondRequests(cs[..i], ls[..i]) + [AddCondition(ls[i], cs[i].field, cs[i].op, cs[i].arg)]
    ensures Takes(d, cs[..i]) && Wanted(d, cs[i].field, cs[i].op, cs[i].arg).Some? ==> Takes(d, cs[..i + 1])
  {
    assert cs[..i + 1] == cs[..i] + [cs[i]];
  }

  method ApplyConditions(b: Builder, cs: seq<Condition>, ls: seq<Logic>) returns (ok: bool)
    requires |ls| == |cs|
    modifies b
    ensures ok <==> Takes(b.d, cs)
    ensures ok ==> Run(b.d, old(b.State()), CondRequests(cs, ls), b.State())
  {
    ghost var start := b.State();
    assert Run(b.d, start, CondRequests(cs[..0], ls[..0]), start) && Takes(b.d, cs[..0]);
    hide Stepped, Run, Wanted, Takes, CondRequests;
    for i := 0 to |cs|
      invariant Run(b.d, start, CondRequests(cs[..i], ls[..i]), b.State()) && Takes(b.d, cs[..i])
    {
      ghost var before := b.State();
      ok := b.AddConditionExpressionWithOp(ls[i], cs[i].field, cs[i].op, cs[i].arg);
      if !ok {
        NotTaken(b.d, cs, i);
        return;
      }
      RunAppend(b.d, start, CondRequests(cs[..i], ls[..i]), before, AddCondition(ls[i], cs[i].field, cs[i].op, cs[i].arg), b.State());
      CondRequestsSnoc(b.d, cs, ls, i);
    }
    assert cs[..|cs|] == cs && ls[..|ls|] == ls;
    return true;
  }

  /** isKeyField of the write path, against the table's own key. */
  predicate IsKeyField(m: Metadata, c: Condition) {
    || (m.partitionKey != "" && (EqualFold(GoField(m, c), m.partitionKey) || EqualFold(AttrName(m, c), ResolveAttr(m, m.partitionKey))))
    || (m.sortKey != "" && (EqualFold(GoField(m, c), m.sortKey) || EqualFold(AttrName(m, c), ResolveAttr(m, m.sortKey))))
  }

  function KeyFieldTest(m: Metadata, skipKeys: bool): Condition -> bool {
    c => skipKeys && IsKeyField(m, c)
  }

  datatype Mode = Mode(includeWhere: bool, skipKeys: bool, defaultIfEmpty: bool)

  /** The conditions a write adds, in order: the write conditions, then the Where conditions
      off the key, then the default when nothing else guards the write. */
  function GuardConditions(q: Query, writes: seq<Condition>, raws: seq<Raw>, mode: Mode): seq<Condition> {
    var wheres := if mode.includeWhere then Select(q.meta, q.conditions, KeyFieldTest(q.meta, mode.skipKeys), false) else [];
    var given := writes + wheres;
    if mode.defaultIfEmpty && given == [] && raws == []
    then [Condition(ResolveAttr(q.meta, q.meta.partitionKey), "attribute_not_exists", Arg(true, None, None))]
    else given
  }

  // what is listed, read off the conditions and the key's names

  /** A Where condition that a guard leaves out: keys are skipped and its field names one. */
  ghost predicate LeftOut(q: Query, mode: Mode, c: Condition) {
    mode.skipKeys && (NamesKey(q.meta, c.field, q.meta.partitionKey) || NamesKey(q.meta, c.field, q.meta.sortKey))
  }

  lemma LeftOutIff(q: Query, mode: Mode, c: Condition)
    ensures KeyFieldTest(q.meta, mode.skipKeys)(c) <==> LeftOut(q, mode, c)
  {
    NamesKeyIff(q.meta, c, q.meta.partitionKey);
    NamesKeyIff(q.meta, c, q.meta.sortKey);
    hide NamesKey, EqualFold;
  }

  /** The i-th Where condition is part of the guard, as stored. */
  ghost predicate Kept(q: Query, mode: Mode, i: int, stored: Condition) {
    0 <= i < |q.conditions| && mode.includeWhere && !LeftOut(q, mode, q.conditions[i]) && StandsFor(q.meta, q.conditions[i], stored)
  }

  /** Nothing else guards the write, and the mode wants a default. */
  ghost predicate Defaulted(q: Query, writes: seq<Condition>, raws: seq<Raw>, mode: Mode) {
    && mode.defaultIfEmpty && writes == [] && raws == []
    && (mode.includeWhere ==> forall i :: 0 <= i < |q.conditions| ==> LeftOut(q, mode, q.conditions[i]))
  }

  /** cs lists the write conditions, the Where conditions that are not left out, and the
      default if there is nothing else: these, and no others. */
  ghost predicate Collects(q: Query, writes: seq<Condition>, raws: seq<Raw>, mode: Mode, cs: seq<Condition>) {
    forall c :: c in cs <==>
      || c in writes
      || (exists i :: Kept(q, mode, i, c))
      || (Defaulted(q, writes, raws, mode) && c.op == "attribute_not_exists" && c.arg == Arg(true, None, None) && KeyStoredIn(q.meta, q.meta.partitionKey, c.field))
  }

  lemma KeptIff(q: Query, mode: Mode, c: Condition)
    ensures (exists i :: Kept(q, mode, i, c)) <==> mode.includeWhere && c in Select(q.meta, q.conditions, KeyFieldTest(q.meta, mode.skipKeys), false)
  {
    var p := KeyFieldTest(q.meta, mode.skipKeys);
    SelectMembers(q.meta, q.conditions, p, false, c);
    forall i | 0 <= i < |q.conditions|
      ensures Kept(q, mode, i, c) <==> mode.includeWhere && !p(q.conditions[i]) && c == Normalized(q.meta, q.conditions[i])
    {
      LeftOutIff(q, mode, q.conditions[i]);
      StandsForNormalized(q.meta, q.conditions[i], c);
    }
    hide LeftOut, StandsFor, Select, KeyFieldTest, Normalized;
  }

  lemma DefaultedIff(q: Query, writes: seq<Condition>, raws: seq<Raw>, mode: Mode)
    ensures Defaulted(q, writes, raws, mode) ==
            (mode.defaultIfEmpty && writes == [] && raws == []
             && (mode.includeWhere ==> Select(q.meta, q.conditions, KeyFieldTest(q.meta, mode.skipKeys), false) == []))
  {
    var p := KeyFieldTest(q.meta, mode.skipKeys);
    forall i | 0 <= i < |q.conditions| ensures p(q.conditions[i]) <==> LeftOut(q, mode, q.conditions[i]) { LeftOutIff(q, mode, q.conditions[i]); }
    hide LeftOut, KeyFieldTest;
    NoneKept(q, q.conditions, p);
  }

  /** The list a write's guard is built from holds exactly what its mode says. */
  lemma GuardConditionsCollect(q: Query, writes: seq<Condition>, raws: seq<Raw>, mode: Mode)
    ensures Collects(q, writes, raws, mode, GuardConditions(q, writes, raws, mode))
  {
    var kept := if mode.includeWhere then Select(q.meta, q.conditions, KeyFieldTest(q.meta, mode.skipKeys), false) else [];
    var cs := GuardConditions(q, writes, raws, mode);
    DefaultedIff(q, writes, raws, mode);
    NamesKeyIff(q.meta, Condition("", "", Arg(true, None, None)), q.meta.partitionKey);
    var key := ResolveAttr(q.meta, q.meta.partitionKey);
    assert forall attr :: KeyStoredIn(q.meta, q.meta.partitionKey, attr) ==> attr == key;
    assert forall c :: c in cs <==>
      || c in writes || c in kept
      || (Defaulted(q, writes, raws, mode) && c == Condition(key, "attribute_not_exists", Arg(true, None, None)));
    hide GuardConditions, Defaulted, Select, KeyFieldTest, NamesKey, ResolveAttr, KeyStoredIn, Kept;
    forall c ensures (exists i :: Kept(q, mode, i, c)) <==> c in kept { KeptIff(q, mode, c); }
  }

  lemma {:induction false} NoneKept(q: Query, cs: seq<Condition>, p: Condition -> bool)
    ensures Select(q.meta, cs, p, false) == [] <==> forall i :: 0 <= i < |cs| ==> p(cs[i])
    decreases |cs|
  {
    if cs != [] {
      NoneKept(q, cs[1..], p);
      assert forall i :: 0 <= i < |cs[1..]| ==> cs[1..][i] == cs[i + 1];
    }
  }

  /** What the guard of a write asks of the stored item: every write condition, every Where
      condition whose field names no key (or every one, when keys are not skipped), and, when
      there is nothing else to ask, that no item has the partition key. */
  ghost predicate GuardAsks(d: Dialect, sem: Semantics, item: Item, q: Query, writes: seq<Condition>, raws: seq<Raw>, mode: Mode) {
    && MeetsAll(d, sem, item, writes)
    && (forall i, stored :: Kept(q, mode, i, stored) ==> Meets(d, sem, item, stored))
    && (Defaulted(q, writes, raws, mode) ==> forall attr :: KeyStoredIn(q.meta, q.meta.partitionKey, attr) ==> Split(attr) !in item)
  }

  /** How the table treats attribute_not_exists. */
  ghost predicate AbsenceIsExact(sem: Semantics) {
    forall a: Option<AV>, args: seq<AV> :: sem(NotExists, a, args) <==> a.None?
  }

  lemma AbsenceAsked(d: Dialect, field: string)
    requires d.valid(field)
    ensures Wanted(d, field, "attribute_not_exists", Arg(true, None, None)) == Some(Says(Split(field), NotExists, []))
  {
    UpperAbsent();
    hide Upper, Trim;
  }

  lemma UpperAbsent()
    ensures Upper("attribute_not_exists") == "ATTRIBUTE_NOT_EXISTS" && Trim("attribute_not_exists") == "attribute_not_exists"
  {
    var s := "attribute_not_exists";
    assert TrimLeft(s) == s && TrimRight(s) == s;
    hide TrimLeft, TrimRight;
  }

  lemma AbsenceMeets(d: Dialect, sem: Semantics, item: Item, c: Condition)
    requires AbsenceIsExact(sem) && c.op == "attribute_not_exists" && c.arg == Arg(true, None, None) && Wanted(d, c.field, c.op, c.arg).Some?
    ensures Meets(d, sem, item, c) <==> Split(c.field) !in item
  {
    AbsenceAsked(d, c.field);
    hide Wanted, Split;
  }

  lemma CollectedMeet(d: Dialect, sem: Semantics, item: Item, q: Query, writes: seq<Condition>, raws: seq<Raw>, mode: Mode, cs: seq<Condition>)
    requires Collects(q, writes, raws, mode, cs) && Takes(d, cs) && AbsenceIsExact(sem)
    ensures MeetsAll(d, sem, item, cs) <==> GuardAsks(d, sem, item, q, writes, raws, mode)
  {
    forall c | c in cs && c.op == "attribute_not_exists" && c.arg == Arg(true, None, None)
      ensures Meets(d, sem, item, c) <==> Split(c.field) !in item
    {
      var i :| 0 <= i < |cs| && cs[i] == c;
      AbsenceMeets(d, sem, item, c);
    }
    hide Meets, Kept, Defaulted, KeyStoredIn, Takes, AbsenceIsExact, Split;
    if MeetsAll(d, sem, item, cs) {
      forall attr | Defaulted(q, writes, raws, mode) && KeyStoredIn(q.meta, q.meta.partitionKey, attr) ensures Split(attr) !in item {
        assert Condition(attr, "attribute_not_exists", Arg(true, None, None)) in cs;
      }
    }
  }

  /** The guard of Query.Update and Query.Delete, and of every other write: it holds exactly
      when every write condition, every Where condition that names no key attribute, and every
      hand-written expression does. */
  lemma GuardHoldsIff(d: Dialect, sem: Semantics, item: Item, q: Query, writes: seq<Condition>, raws: seq<Raw>, mode: Mode,
                      b: Draft, cs: seq<Condition>, b': Draft, parts: set<string>)
    requires Collects(q, writes, raws, mode, cs) && Takes(d, cs) && AbsenceIsExact(sem) && Blank(d, b, parts)
    requires Run(d, b, CondRequests(cs, Ands(|cs|)), b') && Uses(d, CondRequests(cs, Ands(|cs|)), parts)
    requires var r := Merge(Text(b'.conditions, b'.conditionOps), b'.env, raws); r.Some? && RawsReadable(r.value.1, raws)
    ensures var (t, e) := Merge(Text(b'.conditions, b'.conditionOps), b'.env, raws).value;
            EvalText(sem, item, e, t) <==> GuardAsks(d, sem, item, q, writes, raws, mode) && RawsHold(sem, item, e, raws)
  {
    hide *;
    CollectedMeet(d, sem, item, q, writes, raws, mode, cs);
    GuardMeansAll(d, sem, item, b, cs, b', raws, parts);
  }

  /** buildConditionExpression */
  method BuildConditionExpression(b: Builder, q: Query, writes: seq<Condition>, raws: seq<Raw>, mode: Mode)
    returns (r: Option<(Text, Env)>)
    modifies b
    ensures Collects(q, writes, raws, mode, GuardConditions(q, writes, raws, mode))
    ensures r.Some? ==> var cs := GuardConditions(q, writes, raws, mode);
              && Takes(b.d, cs) && Run(b.d, old(b.State()), CondRequests(cs, Ands(|cs|)), b.State())
              && Some(r.value) == Merge(Text(b.conditions, b.conditionOperators), b.Env(), raws)
    ensures r.None? ==> var cs := GuardConditions(q, writes, raws, mode);
              || !Takes(b.d, cs) || (mode.defaultIfEmpty && q.meta.partitionKey == "")
              || (Run(b.d, old(b.State()), CondRequests(cs, Ands(|cs|)), b.State())
                  && Merge(Text(b.conditions, b.conditionOperators), b.Env(), raws).None?)
  {
    ghost var start := b.State();
    var ok := ApplyConditions(b, writes, Ands(|writes|));
    ghost var all := GuardConditions(q, writes, raws, mode);
    GuardConditionsCollect(q, writes, raws, mode);
    hide Collects;
    if !ok {
      PartsTaken(b.d, writes, all[|writes|..], all);
      return None;
    }
    var wheres: seq<Condition> := [];
    if mode.includeWhere {
      var test := KeyFieldTest(q.meta, mode.skipKeys);
      var _, kept := SplitConditions(q.meta, q.conditions, test);
      wheres := kept;
    }
    ghost var m1 := b.State();
    ok := ApplyConditions(b, wheres, Ands(|wheres|));
    if !ok {
      assert wheres != [] && all == writes + wheres;
      PartsTaken(b.d, writes, wheres, all);
      return None;
    }
    ghost var m2 := b.State();
    var fallback: seq<Condition> := [];
    if mode.defaultIfEmpty && writes == [] && wheres == [] && raws == [] {
      if q.meta.partitionKey == "" { return None; }
      fallback := [Condition(ResolveAttr(q.meta, q.meta.partitionKey), "attribute_not_exists", Arg(true, None, None))];
    }
    ok := ApplyConditions(b, fallback, Ands(|fallback|));
    if !ok { return None; }
    ThreeRuns(b.d, start, writes, m1, wheres, m2, fallback, b.State());
    assert GuardConditions(q, writes, raws, mode) == writes + wheres + fallback;
    r := MergeConditionExpressions(Text(b.conditions, b.conditionOperators), Env(b.names, b.values, b.nameCounter, b.valueCounter), raws);
  }

  lemma PartsTaken(d: Dialect, xs: seq<Condition>, ys: seq<Condition>, all: seq<Condition>)
    requires all == xs + ys
    ensures Takes(d, all) ==> Takes(d, xs) && Takes(d, ys)
  {
    hide Wanted;
    assert forall i :: 0 <= i < |xs| ==> all[i] == xs[i];
    assert forall i :: 0 <= i < |ys| ==> all[|xs| + i] == ys[i];
  }

  lemma ThreeRuns(d: Dialect, b: Draft, xs: seq<Condition>, m1: Draft, ys: seq<Condition>, m2: Draft, zs: seq<Condition>, b': Draft)
    requires Run(d, b, CondRequests(xs, Ands(|xs|)), m1) && Run(d, m1, CondRequests(ys, Ands(|ys|)), m2) && Run(d, m2, CondRequests(zs, Ands(|zs|)), b')
    requires Takes(d, xs) && Takes(d, ys) && Takes(d, zs)
    ensures var cs := xs + ys + zs; Takes(d, cs) && Run(d, b, CondRequests(cs, Ands(|cs|)), b')
  {
    MeaningsConcat(d, xs, ys);
    MeaningsConcat(d, xs + ys, zs);
    CondRequestsConcat(xs, ys);
    CondRequestsConcat(xs + ys, zs);
    hide Run, Takes, CondRequests;
    RunConcat(d, b, CondRequests(xs, Ands(|xs|)), m1, CondRequests(ys, Ands(|ys|)), m2);
    RunConcat(d, b, CondRequests(xs + ys, Ands(|xs + ys|)), m2, CondRequests(zs, Ands(|zs|)), b');
  }

  lemma CondRequestsConcat(xs: seq<Condition>, ys: seq<Condition>)
    ensures CondRequests(xs + ys, Ands(|xs + ys|)) == CondRequests(xs, Ands(|xs|)) + CondRequests(ys, Ands(|ys|))
  {
  }

  // ----- what the conditions say

  function OpsAfter(n: nat, ops: seq<Logic>, ls: seq<Logic>): seq<Logic> {
    if n == 0 && ls != [] then ops + ls[1..] else ops + ls
  }

  /** The operators of the accepted conditions of a run. */
  function Joins(d: Dialect, qs: seq<Request>): seq<Logic> {
    if qs == [] then []
    else (if qs[0].AddCondition? && Asked(d, qs[0]).Some? then [qs[0].logic] else []) + Joins(d, qs[1..])
  }

  lemma StepConditionOps(d: Dialect, b: Draft, q: Request, m: Draft)
    requires Stepped(d, b, q, m)
    ensures m.conditionOps == OpsAfter(|b.conditions|, b.conditionOps, Joins(d, [q])) && |m.conditions| == |b.conditions| + |Joins(d, [q])|
  {
    var e, r :| Built(d, b.env, q.field, Asked(d, q), e, r) && m == Put(b, e, q, r);
    assert b.conditionOps + [] == b.conditionOps && [q][1..] == [];
  }

  lemma {:induction false} RunConditionOps(d: Dialect, b: Draft, qs: seq<Request>, b': Draft)
    requires Run(d, b, qs, b')
    ensures b'.conditionOps == OpsAfter(|b.conditions|, b.conditionOps, Joins(d, qs))
    decreases |qs|
  {
    if qs == [] {
      assert b.conditionOps + [] == b.conditionOps;
    } else {
      hide Stepped, Run, Asked;
      assert qs == [qs[0]] + qs[1..];
      JoinsAppend(d, [qs[0]], qs[1..]);
      hide Joins, OpsAfter;
      var m := RunFirst(d, b, qs, b');
      StepConditionOps(d, b, qs[0], m);
      RunConditionOps(d, m, qs[1..], b');
      OpsTogether(|b.conditions|, b.conditionOps, Joins(d, [qs[0]]), Joins(d, qs[1..]));
    }
  }

  lemma OpsTogether(n: nat, ops: seq<Logic>, ks: seq<Logic>, ls: seq<Logic>)
    ensures OpsAfter(n + |ks|, OpsAfter(n, ops, ks), ls) == OpsAfter(n, ops, ks + ls)
  {
    if ks == [] {
      assert ks + ls == ls && ops + [] == ops;
    } else if n == 0 {
      assert (ks + ls)[1..] == ks[1..] + ls;
      assert (ops + ks[1..]) + ls == ops + (ks[1..] + ls);
    } else {
      assert (ops + ks) + ls == ops + (ks + ls);
    }
  }

  lemma {:induction false} JoinsAppend(d: Dialect, a: seq<Request>, b: seq<Request>)
    ensures Joins(d, a + b) == Joins(d, a) + Joins(d, b)
    decreases |a|
  {
    hide Asked;
    if a == [] {
      assert a + b == b;
    } else {
      assert (a + b)[1..] == a[1..] + b && (a + b)[0] == a[0];
      JoinsAppend(d, a[1..], b);
      var first := if a[0].AddCondition? && Asked(d, a[0]).Some? then [a[0].logic] else [];
      assert first + (Joins(d, a[1..]) + Joins(d, b)) == (first + Joins(d, a[1..])) + Joins(d, b);
    }
  }

  lemma {:induction false} CondsJoin(d: Dialect, cs: seq<Condition>, ls: seq<Logic>)
    requires |ls| == |cs| && Takes(d, cs)
    ensures Joins(d, CondRequests(cs, ls)) == ls
    decreases |cs|
  {
    if cs != [] {
      assert CondRequests(cs, ls)[1..] == CondRequests(cs[1..], ls[1..]);
      CondsJoin(d, cs[1..], ls[1..]);
    }
  }

  lemma CondsAsk(d: Dialect, cs: seq<Condition>, ls: seq<Logic>)
    requires |ls| == |cs| && Takes(d, cs)
    ensures AllAsked(d, CondRequests(cs, ls), Conditions) == Meanings(d, cs)
  {
    AskedConditions(d, cs, CondRequests(cs, ls), Conditions);
  }

  /** A builder in good order with no conditions yet. */
  ghost predicate Blank(d: Dialect, b: Draft, parts: set<string>) {
    Fresh(b.env) && NamesFrom(b.env.names, parts) && NoVariants(d, parts) && b.conditions == [] && b.conditionOps == []
  }

  /** What any run leaves on a builder without conditions: a chain that says exactly the
      conditions asked for, joined as asked. */
  lemma RunConditionsSay(d: Dialect, b: Draft, qs: seq<Request>, b': Draft, parts: set<string>)
    requires Blank(d, b, parts) && Run(d, b, qs, b') && Uses(d, qs, parts)
    ensures Said(b', Conditions) == Some(AllAsked(d, qs, Conditions))
    ensures b'.conditionOps == if Joins(d, qs) == [] then [] else Joins(d, qs)[1..]
    ensures Fresh(b'.env) && Extends(b.env, b'.env) && NamesFrom(b'.env.names, parts)
  {
    assert Said(b, Conditions) == Some([]);
    hide Run, Fresh, NamesFrom, Uses, NoVariants, DecodeAll, AllAsked, Extends;
    RunSays(d, b, qs, b', parts, Conditions);
    RunConditionOps(d, b, qs, b');
    Reassociate(AllAsked(d, qs, Conditions), [], []);
  }

  lemma ConditionsSay(d: Dialect, b: Draft, cs: seq<Condition>, ls: seq<Logic>, b': Draft, parts: set<string>)
    requires Blank(d, b, parts) && |ls| == |cs| && Takes(d, cs)
    requires Run(d, b, CondRequests(cs, ls), b') && Uses(d, CondRequests(cs, ls), parts)
    ensures Said(b', Conditions) == Some(Meanings(d, cs))
    ensures b'.conditionOps == if ls == [] then [] else ls[1..]
    ensures Fresh(b'.env) && Extends(b.env, b'.env) && NamesFrom(b'.env.names, parts)
  {
    hide Run, Blank, Uses, Said, Fresh, Extends, NamesFrom, CondRequests;
    RunConditionsSay(d, b, CondRequests(cs, ls), b', parts);
    CondsAsk(d, cs, ls);
    CondsJoin(d, cs, ls);
  }

  lemma AndTextMeans(d: Dialect, sem: Semantics, item: Item, e: Env, t: Text, cs: seq<Condition>)
    requires Takes(d, cs) && DecodeAll(e, t.frags) == Some(Meanings(d, cs))
    requires t.ops == if cs == [] then [] else Ands(|cs|)[1..]
    ensures EvalText(sem, item, e, t) == MeetsAll(d, sem, item, cs)
  {
    EveryMeets(d, sem, item, cs);
    var ms := Meanings(d, cs);
    assert |ms| == |cs| && EvalText(sem, item, e, t) == EvalChain(sem, item, ms, t.ops);
    hide EvalText, DecodeAll, MeetsAll, Takes, Meanings;
    if cs != [] {
      assert Ands(|cs|)[1..] == Ands(|cs| - 1);
      hide EvalChain, EvalEvery, Ands;
      AndsMeanAll(sem, item, ms);
    }
  }

  /** The guard buildConditionExpression returns, for any mode: every listed condition and
      every hand-written expression, all of them and nothing else. */
  lemma GuardMeansAll(d: Dialect, sem: Semantics, item: Item, b: Draft, cs: seq<Condition>, b': Draft, raws: seq<Raw>, parts: set<string>)
    requires Blank(d, b, parts) && Takes(d, cs)
    requires Run(d, b, CondRequests(cs, Ands(|cs|)), b') && Uses(d, CondRequests(cs, Ands(|cs|)), parts)
    requires var r := Merge(Text(b'.conditions, b'.conditionOps), b'.env, raws); r.Some? && RawsReadable(r.value.1, raws)
    ensures var (t, e) := Merge(Text(b'.conditions, b'.conditionOps), b'.env, raws).value;
            && Readable(e, t) && Extends(b.env, e)
            && (EvalText(sem, item, e, t) <==> MeetsAll(d, sem, item, cs) && RawsHold(sem, item, e, raws))
  {
    hide Run, Uses, Blank, Fresh, NamesFrom, Takes, MeetsAll, Meanings, CondRequests, EvalText, Merge, RawsReadable, RawsHold, Extends, DecodeAll;
    ConditionsSay(d, b, cs, Ands(|cs|), b', parts);
    var base := Text(b'.conditions, b'.conditionOps);
    AndTextMeans(d, sem, item, b'.env, base, cs);
    hide Said;
    MergeMeansAll(sem, item, base, b'.env, raws);
    MergeExtends(base, b'.env, raws);
    ExtendsTrans(b.env, b'.env, Merge(base, b'.env, raws).value.1);
  }

  // ----- UpdateBuilder.Execute and ExecuteWithResult

  function Logics(ls: seq<Logic>, keepLogic: bool): (r: seq<Logic>)
    ensures |r| == |ls|
  {
    if keepLogic then ls else Ands(|ls|)
  }

  function BothOf(own: Text, query: Text): Text {
    if own.frags != [] && query.frags != [] then Conj(own, query)
    else if own.frags != [] then own else query
  }

  /** The two stages of an update's guard: the builder's own conditions, and the query's on a
      clone whose conditions were reset. */
  ghost predicate Staged(d: Dialect, start: Draft, cs: seq<Condition>, ls: seq<Logic>, writes: seq<Condition>, mid: Draft, end: Draft)
    requires |ls| == |cs|
  {
    && Takes(d, cs) && Run(d, start, CondRequests(cs, ls), mid)
    && Takes(d, writes) && Run(d, mid.(conditions := [], conditionOps := []), CondRequests(writes, Ands(|writes|)), end)
  }

  /** The text and the maps sent with the update. */
  ghost predicate Guarded(d: Dialect, start: Draft, cs: seq<Condition>, ls: seq<Logic>, writes: seq<Condition>, raws: seq<Raw>, mid: Draft, end: Draft, t: Text, e: Env)
    requires |ls| == |cs|
  {
    && Staged(d, start, cs, ls, writes, mid, end)
    && match Merge(Text(end.conditions, end.conditionOps), end.env, raws)
       case None => false
       case Some((qt, qe)) =>
         && t == BothOf(Text(mid.conditions, mid.conditionOps), qt)
         && e == qe.(names := mid.env.names + qe.names, values := mid.env.values + qe.values)
  }

  /** The final guard of an update: the builder's own conditions on one text, the query's on
      another built on a clone whose conditions were reset, then both, and the clone's maps
      over the builder's.  Execute passes keepLogic = false, ExecuteWithResult true. */
  method FinalCondition(ub: Builder, cs: seq<Condition>, ls: seq<Logic>, q: Query, writes: seq<Condition>, raws: seq<Raw>, keepLogic: bool)
    returns (r: Option<(Text, Env)>, ghost mid: Draft, ghost end: Draft)
    requires |ls| == |cs|
    modifies ub
    ensures r.Some? ==> Guarded(ub.d, old(ub.State()), cs, Logics(ls, keepLogic), writes, raws, mid, end, r.value.0, r.value.1)
    ensures r.None? ==>
              || !Takes(ub.d, cs) || !Takes(ub.d, writes)
              || (Staged(ub.d, old(ub.State()), cs, Logics(ls, keepLogic), writes, mid, end) && Merge(Text(end.conditions, end.conditionOps), end.env, raws).None?)
  {
    mid, end := ub.State(), ub.State();
    var ok := ApplyConditions(ub, cs, Logics(ls, keepLogic));
    if !ok { return None, mid, end; }
    mid := ub.State();
    var own := Text(ub.conditions, ub.conditionOperators);
    var clone := new Builder.Clone(ub);
    clone.ResetConditions();
    var query := BuildConditionExpression(clone, q, writes, raws, Mode(false, false, false));
    end := clone.State();
    assert GuardConditions(q, writes, raws, Mode(false, false, false)) == writes;
    if query.None? { return None, mid, end; }
    var (qt, qe) := query.value;
    r := Some((BothOf(own, qt), qe.(names := ub.names + qe.names, values := ub.values + qe.values)));
  }

  lemma MergedMapsAreLater(mid: Env, e: Env)
    requires Extends(mid, e)
    ensures e.(names := mid.names + e.names, values := mid.values + e.values) == e
  {
    assert mid.names + e.names == e.names && mid.values + e.values == e.values;
  }

  /** Guard composition: the update goes through exactly when the builder's own conditions,
      combined as their operators say, all write conditions and every hand-written
      expression hold; the second stage never rebinds a placeholder of the first. */
  lemma GuardComposition(d: Dialect, sem: Semantics, item: Item, start: Draft, cs: seq<Condition>, ls: seq<Logic>, mid: Draft,
                         writes: seq<Condition>, end: Draft, raws: seq<Raw>, t: Text, e: Env, parts: set<string>)
    requires Blank(d, start, parts) && |ls| == |cs| && Guarded(d, start, cs, ls, writes, raws, mid, end, t, e)
    requires Uses(d, CondRequests(cs, ls), parts) && Uses(d, CondRequests(writes, Ands(|writes|)), parts) && RawsReadable(e, raws)
    ensures Extends(mid.env, e) && Extends(end.env, e)
    ensures EvalText(sem, item, e, t) <==>
              && EvalChain(sem, item, Meanings(d, cs), if ls == [] then [] else ls[1..])
              && MeetsAll(d, sem, item, writes) && RawsHold(sem, item, e, raws)
  {
    hide Run, Uses, Blank, Takes, MeetsAll, Meanings, CondRequests, EvalText, Readable, EvalChain, Merge, RawsReadable, RawsHold, BothOf, Extends;
    var own := Text(mid.conditions, mid.conditionOps);
    OwnMeans(d, sem, item, start, cs, ls, mid, parts);
    var reset := mid.(conditions := [], conditionOps := []);
    var (qt, qe) := Merge(Text(end.conditions, end.conditionOps), end.env, raws).value;
    SecondStage(d, reset, writes, end, raws, parts);
    MergedMapsAreLater(mid.env, qe);
    GuardMeansAll(d, sem, item, reset, writes, end, raws, parts);
    TextStable(sem, item, mid.env, qe, own);
    BothMeans(sem, item, qe, own, qt);
  }

  lemma SecondStage(d: Dialect, b: Draft, writes: seq<Condition>, end: Draft, raws: seq<Raw>, parts: set<string>)
    requires Blank(d, b, parts) && Takes(d, writes) && Run(d, b, CondRequests(writes, Ands(|writes|)), end)
    requires Uses(d, CondRequests(writes, Ands(|writes|)), parts) && Merge(Text(end.conditions, end.conditionOps), end.env, raws).Some?
    ensures var qe := Merge(Text(end.conditions, end.conditionOps), end.env, raws).value.1; Extends(b.env, qe) && Extends(end.env, qe)
  {
    hide Run, Uses, Blank, Takes, CondRequests, Merge, Extends;
    ConditionsSay(d, b, writes, Ands(|writes|), end, parts);
    var base := Text(end.conditions, end.conditionOps);
    MergeExtends(base, end.env, raws);
    ExtendsTrans(b.env, end.env, Merge(base, end.env, raws).value.1);
  }

  lemma OwnMeans(d: Dialect, sem: Semantics, item: Item, start: Draft, cs: seq<Condition>, ls: seq<Logic>, mid: Draft, parts: set<string>)
    requires Blank(d, start, parts) && |ls| == |cs| && Takes(d, cs)
    requires Run(d, start, CondRequests(cs, ls), mid) && Uses(d, CondRequests(cs, ls), parts)
    ensures var own := Text(mid.conditions, mid.conditionOps);
            && Readable(mid.env, own) && Blank(d, mid.(conditions := [], conditionOps := []), parts)
            && (EvalText(sem, item, mid.env, own) <==> EvalChain(sem, item, Meanings(d, cs), if ls == [] then [] else ls[1..]))
  {
    ConditionsSay(d, start, cs, ls, mid, parts);
    hide Run, Uses, Fresh, NamesFrom, NoVariants, Takes, CondRequests, EvalChain;
  }

  lemma BothMeans(sem: Semantics, item: Item, e: Env, own: Text, query: Text)
    requires Readable(e, own) && Readable(e, query)
    ensures EvalText(sem, item, e, BothOf(own, query)) <==> EvalText(sem, item, e, own) && EvalText(sem, item, e, query)
  {
    if own.frags != [] && query.frags != [] {
      ConjMeans(sem, item, e, own, query);
    } else {
      assert DecodeAll(e, []) == Some([]);
    }
  }

  // ----- Execute against ExecuteWithResult

  /** The maps after adding conditions do not depend on their operators. */
  lemma {:induction false} EnvIgnoresLogic(d: Dialect, e: Env, cs: seq<Condition>, ls: seq<Logic>, ks: seq<Logic>)
    requires |ls| == |cs| == |ks|
    ensures EnvAfter(d, e, CondRequests(cs, ls)) == EnvAfter(d, e, CondRequests(cs, ks))
    decreases |cs|
  {
    if cs != [] {
      var q, r := CondRequests(cs, ls), CondRequests(cs, ks);
      assert q[1..] == CondRequests(cs[1..], ls[1..]) && r[1..] == CondRequests(cs[1..], ks[1..]);
      assert Args(d, q[0]) == Args(d, r[0]) && q[0].field == r[0].field;
      hide NameEnv, ValuesEnv, Args;
      EnvIgnoresLogic(d, ValuesEnv(NameEnv(d, e, q[0].field), Args(d, q[0])), cs[1..], ls[1..], ks[1..]);
    }
  }

  lemma CondsTaken(d: Dialect, cs: seq<Condition>, ls: seq<Logic>)
    requires |ls| == |cs| && Takes(d, cs)
    ensures AllTaken(d, CondRequests(cs, ls))
  {
  }

  lemma {:induction false} MergeIgnoresText(t: Text, t': Text, e: Env, raws: seq<Raw>)
    ensures Merge(t, e, raws).Some? <==> Merge(t', e, raws).Some?
    ensures Merge(t, e, raws).Some? ==> Merge(t, e, raws).value.1 == Merge(t', e, raws).value.1
    decreases |raws|
  {
    if raws != [] {
      if raws[0].text.frags == [] {
        MergeIgnoresText(t, t', e, raws[1..]);
      } else if Acceptable(e, raws[0]) {
        MergeIgnoresText(Joined(t, raws[0].text), Joined(t', raws[0].text), WithValues(e, raws[0]), raws[1..]);
      }
    }
  }

  lemma StagesShareMaps(d: Dialect, start: Draft, cs: seq<Condition>, ls: seq<Logic>, ks: seq<Logic>, writes: seq<Condition>,
                        mid: Draft, end: Draft, mid': Draft, end': Draft)
    requires |ls| == |cs| == |ks| && Staged(d, start, cs, ls, writes, mid, end) && Staged(d, start, cs, ks, writes, mid', end')
    ensures mid.env == mid'.env && end.env == end'.env
  {
    CondsTaken(d, cs, ls);
    CondsTaken(d, cs, ks);
    CondsTaken(d, writes, Ands(|writes|));
    hide Run, Takes, CondRequests, AllTaken, EnvAfter;
    TakenRunEnv(d, start, CondRequests(cs, ls), mid);
    TakenRunEnv(d, start, CondRequests(cs, ks), mid');
    EnvIgnoresLogic(d, start.env, cs, ls, ks);
    TakenRunEnv(d, mid.(conditions := [], conditionOps := []), CondRequests(writes, Ands(|writes|)), end);
    TakenRunEnv(d, mid'.(conditions := [], conditionOps := []), CondRequests(writes, Ands(|writes|)), end');
  }

  lemma SameMapsSent(d: Dialect, start: Draft, cs: seq<Condition>, ls: seq<Logic>, ks: seq<Logic>, writes: seq<Condition>, raws: seq<Raw>,
                     mid: Draft, end: Draft, t: Text, e: Env, mid': Draft, end': Draft, t': Text, e': Env)
    requires |ls| == |cs| == |ks| && Guarded(d, start, cs, ls, writes, raws, mid, end, t, e) && Guarded(d, start, cs, ks, writes, raws, mid', end', t', e')
    ensures e == e' && Takes(d, cs)
  {
    hide Run, Takes, CondRequests, Merge, BothOf;
    StagesShareMaps(d, start, cs, ls, ks, writes, mid, end, mid', end');
    MergeIgnoresText(Text(end.conditions, end.conditionOps), Text(end'.conditions, end'.conditionOps), end.env, raws);
  }

  /** What Execute (e, t) and ExecuteWithResult (e', t') send for one update builder. */
  ghost predicate BothSent(d: Dialect, start: Draft, cs: seq<Condition>, ls: seq<Logic>, writes: seq<Condition>, raws: seq<Raw>, parts: set<string>,
                           t: Text, e: Env, t': Text, e': Env)
    requires |ls| == |cs|
  {
    && Blank(d, start, parts) && RawsReadable(e, raws)
    && Uses(d, CondRequests(cs, ls), parts) && Uses(d, CondRequests(cs, Ands(|cs|)), parts) && Uses(d, CondRequests(writes, Ands(|writes|)), parts)
    && (exists mid, end :: Guarded(d, start, cs, Logics(ls, false), writes, raws, mid, end, t, e))
    && (exists mid, end :: Guarded(d, start, cs, Logics(ls, true), writes, raws, mid, end, t', e'))
  }

  /** Both send the same maps, and their guards are the conjunction, or the chain, of the
      builder's own conditions, with the same rest. */
  lemma BothMean(d: Dialect, sem: Semantics, item: Item, start: Draft, cs: seq<Condition>, ls: seq<Logic>, writes: seq<Condition>, raws: seq<Raw>, parts: set<string>,
                 t: Text, e: Env, t': Text, e': Env)
    requires |ls| == |cs| && BothSent(d, start, cs, ls, writes, raws, parts, t, e, t', e')
    ensures e == e' && Takes(d, cs)
    ensures var rest := MeetsAll(d, sem, item, writes) && RawsHold(sem, item, e, raws);
            && (EvalText(sem, item, e, t) <==> rest && EvalChain(sem, item, Meanings(d, cs), if ls == [] then [] else Ands(|ls| - 1)))
            && (EvalText(sem, item, e', t') <==> rest && EvalChain(sem, item, Meanings(d, cs), if ls == [] then [] else ls[1..]))
  {
    hide Guarded, Blank, Uses, RawsReadable, EvalText, EvalChain, MeetsAll, RawsHold, Meanings, CondRequests;
    var mid, end :| Guarded(d, start, cs, Logics(ls, false), writes, raws, mid, end, t, e);
    var mid', end' :| Guarded(d, start, cs, Logics(ls, true), writes, raws, mid', end', t', e');
    SameMapsSent(d, start, cs, Logics(ls, false), Logics(ls, true), writes, raws, mid, end, t, e, mid', end', t', e');
    assert ls != [] ==> Ands(|ls|)[1..] == Ands(|ls| - 1);
    GuardComposition(d, sem, item, start, cs, Logics(ls, false), mid, writes, end, raws, t, e, parts);
    GuardComposition(d, sem, item, start, cs, Logics(ls, true), mid', writes, end', raws, t', e', parts);
  }

  /** Without an OrCondition after the first condition the two executions send guards that
      agree on every item. */
  lemma ExecutesAgree(d: Dialect, sem: Semantics, item: Item, start: Draft, cs: seq<Condition>, ls: seq<Logic>, writes: seq<Condition>, raws: seq<Raw>, parts: set<string>,
                      t: Text, e: Env, t': Text, e': Env)
    requires |ls| == |cs| && BothSent(d, start, cs, ls, writes, raws, parts, t, e, t', e')
    requires forall i :: 1 <= i < |ls| ==> ls[i] == And
    ensures e == e' && (EvalText(sem, item, e, t) <==> EvalText(sem, item, e', t'))
  {
    assert ls != [] ==> ls[1..] == Ands(|ls| - 1);
    hide BothSent, EvalText, EvalChain;
    BothMean(d, sem, item, start, cs, ls, writes, raws, parts, t, e, t', e');
  }

  /** Execute is the stricter of the two: what it lets through, ExecuteWithResult does too. */
  lemma ExecuteIsStricter(d: Dialect, sem: Semantics, item: Item, start: Draft, cs: seq<Condition>, ls: seq<Logic>, writes: seq<Condition>, raws: seq<Raw>, parts: set<string>,
                          t: Text, e: Env, t': Text, e': Env)
    requires |ls| == |cs| && BothSent(d, start, cs, ls, writes, raws, parts, t, e, t', e')
    ensures EvalText(sem, item, e, t) ==> EvalText(sem, item, e', t')
  {
    hide BothSent, EvalText;
    BothMean(d, sem, item, start, cs, ls, writes, raws, parts, t, e, t', e');
    var ms := Meanings(d, cs);
    if ms != [] && EvalChain(sem, item, ms, Ands(|ls| - 1)) {
      AndsMeanAll(sem, item, ms);
      EveryOfAll(sem, item, ms);
      var vs := EvalAll(sem, item, ms);
      AllTrueCons(vs);
      AllTrueChains(vs[0], ls[1..], vs[1..]);
    }
  }

  function AllPresent(fields: seq<string>): (cs: seq<Condition>)
    ensures |cs| == |fields| && forall i :: 0 <= i < |fields| ==> cs[i] == Present(fields[i])
  {
    seq(|fields|, i requires 0 <= i < |fields| => Present(fields[i]))
  }

  /** The item that has the fields from position j on. */
  function HasFrom(fields: seq<string>, j: nat): Item {
    map path | path in PathsFrom(fields, j) :: NULL
  }

  function PathsFrom(fields: seq<string>, j: nat): set<seq<string>> {
    set i | 0 <= i < |fields| && j <= i :: Split(fields[i])
  }

  lemma HasFromEvals(d: Dialect, sem: Semantics, fields: seq<string>, j: nat)
    requires ExistenceIsExact(sem) && (forall i :: 0 <= i < |fields| ==> d.valid(fields[i]))
    requires forall i, k :: 0 <= i < k < |fields| ==> fields[i] != fields[k]
    ensures Takes(d, AllPresent(fields)) && EvalAll(sem, HasFrom(fields, j), Meanings(d, AllPresent(fields))) == TrueFrom(|fields|, j)
  {
    var cs, item := AllPresent(fields), HasFrom(fields, j);
    forall i | 0 <= i < |cs| ensures Wanted(d, cs[i].field, cs[i].op, cs[i].arg) == Some(Says(Split(fields[i]), Exists, [])) {
      PresentAsked(d, fields[i]);
    }
    assert Takes(d, cs);
    hide Wanted;
    var vs := EvalAll(sem, item, Meanings(d, cs));
    forall i | 0 <= i < |fields| ensures vs[i] == (j <= i) {
      assert vs[i] == Eval(sem, item, Says(Split(fields[i]), Exists, []));
      if i < j && Split(fields[i]) in item {
        var k :| 0 <= k < |fields| && j <= k && Split(fields[k]) == Split(fields[i]);
        SplitInjective(fields[k], fields[i]);
      }
    }
  }

  /** And for every other list of operators the two can be told apart: on existence conditions
      over any distinct fields the validator takes, the item that has exactly the fields from
      an OrCondition on passes ExecuteWithResult and is refused by Execute. */
  lemma ExecutesSeparate(d: Dialect, sem: Semantics, start: Draft, fields: seq<string>, ls: seq<Logic>, j: nat, parts: set<string>, t: Text, e: Env, t': Text, e': Env)
    requires ExistenceIsExact(sem) && |ls| == |fields| && 1 <= j < |ls| && ls[j] == Or
    requires (forall i :: 0 <= i < |fields| ==> d.valid(fields[i])) && forall i, k :: 0 <= i < k < |fields| ==> fields[i] != fields[k]
    requires BothSent(d, start, AllPresent(fields), ls, [], [], parts, t, e, t', e')
    ensures !EvalText(sem, HasFrom(fields, j), e, t) && EvalText(sem, HasFrom(fields, j), e', t')
  {
    var cs, item := AllPresent(fields), HasFrom(fields, j);
    HasFromEvals(d, sem, fields, j);
    hide BothSent, EvalText, HasFrom, TrueFrom, Ands;
    BothMean(d, sem, item, start, cs, ls, [], [], parts, t, e, t', e');
    OrSeparates(ls, j);
  }

  /** The smallest case: Condition(a exists) then OrCondition(b exists), on an item with b only. */
  lemma ExecuteDropsOr(d: Dialect, sem: Semantics, start: Draft, parts: set<string>, t: Text, e: Env, t': Text, e': Env)
    requires ExistenceIsExact(sem) && d.valid("a") && d.valid("b")
    requires BothSent(d, start, [Present("a"), Present("b")], [And, Or], [], [], parts, t, e, t', e')
    ensures var item: Item := map[["b"] := NULL]; !EvalText(sem, item, e, t) && EvalText(sem, item, e', t')
  {
    var fields := ["a", "b"];
    hide BothSent, EvalText;
    assert AllPresent(fields) == [Present("a"), Present("b")];
    OnlyB(fields);
    assert "a"[0] != "b"[0];
    hide HasFrom, AllPresent;
    ExecutesSeparate(d, sem, start, fields, [And, Or], 1, parts, t, e, t', e');
  }

  lemma OnlyB(fields: seq<string>)
    requires fields == ["a", "b"]
    ensures HasFrom(fields, 1) == map[["b"] := NULL]
  {
    SplitPlain("b");
    hide Split;
    assert fields[1] == "b" && Split(fields[1]) == ["b"];
    assert PathsFrom(fields, 1) == {["b"]};
  }

  // ----- the conditions of a transaction operation

  /** The model a transaction operation is about: how a field resolves, its key attributes,
      and its version attribute. */
  datatype Model = Model(resolve: string -> Option<string>, pk: Option<string>, sk: Option<string>, version: Option<string>)

  datatype TransactCondition =
    | OnField(field: string, op: string, arg: Arg)
    | KeyExists
    | KeyNotExists
    | VersionEquals(arg: Arg)
    | Expression(raw: Raw)
    | Unsupported

  function KeyConditions(m: Model, op: string): Option<seq<Condition>> {
    if m.pk.None? then None
    else if m.sk.None? then Some([Condition(m.pk.value, op, Arg(true, None, None))])
    else Some([Condition(m.pk.value, op, Arg(true, None, None)), Condition(m.sk.value, op, Arg(true, None, None))])
  }

  /** The builder conditions one of them stands for; None is an error. */
  function Expanded(m: Model, tc: TransactCondition): Option<seq<Condition>> {
    match tc
    case OnField(field, op, arg) => if m.resolve(field).None? || op == "" then None else Some([Condition(m.resolve(field).value, op, arg)])
    case KeyExists => KeyConditions(m, "attribute_exists")
    case KeyNotExists => KeyConditions(m, "attribute_not_exists")
    case VersionEquals(arg) => if m.version.None? then None else Some([Condition(m.version.value, "=", arg)])
    case Expression(raw) => if raw.text.frags == [] || exists k :: k in raw.values && raw.values[k].None? then None else Some([])
    case Unsupported => None
  }

  function ExpandedAll(m: Model, tcs: seq<TransactCondition>): Option<seq<Condition>> {
    if tcs == [] then Some([])
    else match (ExpandedAll(m, tcs[..|tcs| - 1]), Expanded(m, tcs[|tcs| - 1]))
      case (Some(cs), Some(ds)) => Some(cs + ds)
      case _ => None
  }

  function RawsOf(tcs: seq<TransactCondition>): seq<Raw> {
    if tcs == [] then [] else RawsOf(tcs[..|tcs| - 1]) + if tcs[|tcs| - 1].Expression? then [tcs[|tcs| - 1].raw] else []
  }

  // what they ask, read off the conditions themselves

  /** What one of them asks of the stored item. */
  ghost predicate Satisfies(d: Dialect, sem: Semantics, item: Item, e: Env, m: Model, tc: TransactCondition) {
    match tc
    case OnField(field, op, arg) => m.resolve(field).Some? && Meets(d, sem, item, Condition(m.resolve(field).value, op, arg))
    case KeyExists => m.pk.Some? && Split(m.pk.value) in item && (m.sk.Some? ==> Split(m.sk.value) in item)
    case KeyNotExists => m.pk.Some? && Split(m.pk.value) !in item && (m.sk.Some? ==> Split(m.sk.value) !in item)
    case VersionEquals(arg) => m.version.Some? && Split(m.version.value) in item && Some(item[Split(m.version.value)]) == arg.whole
    case Expression(raw) => EvalText(sem, item, e, raw.text)
    case Unsupported => false
  }

  /** When one of them is taken. */
  ghost predicate Offered(d: Dialect, m: Model, tc: TransactCondition) {
    match tc
    case OnField(field, op, arg) => m.resolve(field).Some? && op != "" && Wanted(d, m.resolve(field).value, op, arg).Some?
    case KeyExists => m.pk.Some? && d.valid(m.pk.value) && (m.sk.Some? ==> d.valid(m.sk.value))
    case KeyNotExists => m.pk.Some? && d.valid(m.pk.value) && (m.sk.Some? ==> d.valid(m.sk.value))
    case VersionEquals(arg) => m.version.Some? && d.valid(m.version.value) && arg.accepted && arg.whole.Some?
    case Expression(raw) => raw.text.frags != [] && forall k :: k in raw.values ==> raw.values[k].Some?
    case Unsupported => false
  }

  lemma KeyWordsAsked(d: Dialect, field: string)
    ensures Wanted(d, field, "attribute_exists", Arg(true, None, None)) == if d.valid(field) then Some(Says(Split(field), Exists, [])) else None
    ensures Wanted(d, field, "attribute_not_exists", Arg(true, None, None)) == if d.valid(field) then Some(Says(Split(field), NotExists, [])) else None
  {
    if d.valid(field) {
      hide Wanted;
      PresenceAsked(d, field);
      AbsenceAsked(d, field);
    }
  }

  lemma PresenceAsked(d: Dialect, field: string)
    requires d.valid(field)
    ensures Wanted(d, field, "attribute_exists", Arg(true, None, None)) == Some(Says(Split(field), Exists, []))
  {
    UpperPresent();
    hide Upper, Trim;
  }

  lemma UpperPresent()
    ensures Upper("attribute_exists") == "ATTRIBUTE_EXISTS" && Trim("attribute_exists") == "attribute_exists"
  {
    var s := "attribute_exists";
    assert TrimLeft(s) == s && TrimRight(s) == s;
    hide TrimLeft, TrimRight;
  }

  lemma EqualityAsked(d: Dialect, field: string, arg: Arg)
    ensures Wanted(d, field, "=", arg).Some? <==> d.valid(field) && arg.accepted && arg.whole.Some?
  {
    assert Upper("=") == "=" && Trim("=") == "=";
    if arg.whole.Some? { AllConverted([arg.whole], [arg.whole.value]); } else { NotConverted([arg.whole], 0); }
  }

  predicate Asks(d: Dialect, c: Condition) {
    Wanted(d, c.field, c.op, c.arg).Some?
  }

  lemma FewTaken(d: Dialect, x: Condition, y: Condition)
    ensures Takes(d, [x]) <==> Asks(d, x)
    ensures Takes(d, [x, y]) <==> Asks(d, x) && Asks(d, y)
  {
    hide Wanted;
    assert [x][0] == x && [x, y][0] == x && [x, y][1] == y;
  }

  lemma FewMeet(d: Dialect, sem: Semantics, item: Item, x: Condition, y: Condition)
    ensures MeetsAll(d, sem, item, [x]) <==> Meets(d, sem, item, x)
    ensures MeetsAll(d, sem, item, [x, y]) <==> Meets(d, sem, item, x) && Meets(d, sem, item, y)
  {
    hide Meets;
    assert forall c :: c in [x] <==> c == x;
    assert forall c :: c in [x, y] <==> c == x || c == y;
  }

  lemma KeyTaken(d: Dialect, m: Model, op: string)
    requires op == "attribute_exists" || op == "attribute_not_exists"
    ensures var cs := KeyConditions(m, op); cs.Some? && Takes(d, cs.value) <==> m.pk.Some? && d.valid(m.pk.value) && (m.sk.Some? ==> d.valid(m.sk.value))
  {
    if m.pk.Some? {
      var x, y := Condition(m.pk.value, op, Arg(true, None, None)), Condition(if m.sk.Some? then m.sk.value else "", op, Arg(true, None, None));
      KeyWordsAsked(d, x.field);
      KeyWordsAsked(d, y.field);
      FewTaken(d, x, y);
      hide Wanted, Takes;
    }
  }

  lemma OneOffered(d: Dialect, m: Model, tc: TransactCondition)
    ensures Expanded(m, tc).Some? && Takes(d, Expanded(m, tc).value) <==> Offered(d, m, tc)
  {
    match tc
    case KeyExists => KeyTaken(d, m, "attribute_exists");
    case KeyNotExists => KeyTaken(d, m, "attribute_not_exists");
    case VersionEquals(arg) =>
      if m.version.Some? {
        var c := Condition(m.version.value, "=", arg);
        EqualityAsked(d, m.version.value, arg);
        FewTaken(d, c, c);
      }
      hide Wanted, Takes;
    case OnField(field, op, arg) =>
      if m.resolve(field).Some? {
        var c := Condition(m.resolve(field).value, op, arg);
        FewTaken(d, c, c);
      }
      hide Wanted, Takes;
    case Expression(_) =>
    case Unsupported =>
  }

  lemma KeyMeets(d: Dialect, sem: Semantics, item: Item, m: Model, op: string)
    requires ExistenceIsExact(sem) && AbsenceIsExact(sem) && KeyConditions(m, op).Some? && Takes(d, KeyConditions(m, op).value)
    requires op == "attribute_exists" || op == "attribute_not_exists"
    ensures MeetsAll(d, sem, item, KeyConditions(m, op).value) <==>
            if op == "attribute_exists" then Split(m.pk.value) in item && (m.sk.Some? ==> Split(m.sk.value) in item)
            else Split(m.pk.value) !in item && (m.sk.Some? ==> Split(m.sk.value) !in item)
  {
    KeyTaken(d, m, op);
    var x, y := Condition(m.pk.value, op, Arg(true, None, None)), Condition(if m.sk.Some? then m.sk.value else "", op, Arg(true, None, None));
    hide Takes;
    FewMeet(d, sem, item, x, y);
    hide MeetsAll;
    KeyWordMeets(d, sem, item, x);
    if m.sk.Some? { KeyWordMeets(d, sem, item, y); }
    hide Meets, Split;
  }

  lemma KeyWordMeets(d: Dialect, sem: Semantics, item: Item, c: Condition)
    requires ExistenceIsExact(sem) && AbsenceIsExact(sem) && c.arg == Arg(true, None, None) && d.valid(c.field)
    ensures c.op == "attribute_exists" ==> (Meets(d, sem, item, c) <==> Split(c.field) in item)
    ensures c.op == "attribute_not_exists" ==> (Meets(d, sem, item, c) <==> Split(c.field) !in item)
  {
    KeyWordsAsked(d, c.field);
    hide Wanted, Split;
  }

  /** The conditions one stands for mean what it asks. */
  lemma OneSatisfied(d: Dialect, sem: Semantics, item: Item, e: Env, m: Model, tc: TransactCondition)
    requires EqualityIsExact(sem) && ExistenceIsExact(sem) && AbsenceIsExact(sem) && Expanded(m, tc).Some? && Takes(d, Expanded(m, tc).value)
    ensures Satisfies(d, sem, item, e, m, tc) <==>
            MeetsAll(d, sem, item, Expanded(m, tc).value) && (tc.Expression? ==> EvalText(sem, item, e, tc.raw.text))
  {
    OneOffered(d, m, tc);
    match tc
    case KeyExists =>
      hide EvalText, Takes, MeetsAll;
      KeyMeets(d, sem, item, m, "attribute_exists");
    case KeyNotExists =>
      hide EvalText, Takes, MeetsAll;
      KeyMeets(d, sem, item, m, "attribute_not_exists");
    case VersionEquals(arg) =>
      hide EvalText, Takes, MeetsAll;
      VersionMeets(d, sem, item, Condition(m.version.value, "=", arg));
    case OnField(field, op, arg) =>
      var c := Condition(m.resolve(field).value, op, arg);
      hide EvalText, Takes, MeetsAll, Meets;
      FewMeet(d, sem, item, c, c);
    case Expression(_) =>
      hide EvalText, Takes, Meets;
  }

  lemma VersionMeets(d: Dialect, sem: Semantics, item: Item, c: Condition)
    requires EqualityIsExact(sem) && c.op == "=" && d.valid(c.field) && c.arg.accepted && c.arg.whole.Some?
    ensures MeetsAll(d, sem, item, [c]) <==> Split(c.field) in item && Some(item[Split(c.field)]) == c.arg.whole
  {
    KeyConditionMeans(d, sem, item, c);
    FewMeet(d, sem, item, c, c);
    hide Meets, MeetsAll, Split;
  }

  ghost predicate AllTakeable(d: Dialect, m: Model, tcs: seq<TransactCondition>) {
    forall tc :: tc in tcs ==> Offered(d, m, tc)
  }

  lemma {:induction false} AllOffered(d: Dialect, m: Model, tcs: seq<TransactCondition>)
    ensures ExpandedAll(m, tcs).Some? && Takes(d, ExpandedAll(m, tcs).value) <==> AllTakeable(d, m, tcs)
    decreases |tcs|
  {
    if tcs != [] {
      var init, last := tcs[..|tcs| - 1], tcs[|tcs| - 1];
      AllOffered(d, m, init);
      OneOffered(d, m, last);
      assert forall tc :: tc in tcs <==> tc in init || tc == last;
      hide Expanded, Offered;
      if ExpandedAll(m, init).Some? && Expanded(m, last).Some? {
        TakesConcat(d, ExpandedAll(m, init).value, Expanded(m, last).value);
      }
    }
  }

  lemma TakesConcat(d: Dialect, xs: seq<Condition>, ys: seq<Condition>)
    ensures Takes(d, xs + ys) <==> Takes(d, xs) && Takes(d, ys)
  {
    PartsTaken(d, xs, ys, xs + ys);
    if Takes(d, xs) && Takes(d, ys) { MeaningsConcat(d, xs, ys); }
  }

  ghost predicate AllHold(sem: Semantics, item: Item, e: Env, raws: seq<Raw>) {
    forall raw :: raw in raws ==> EvalText(sem, item, e, raw.text)
  }

  ghost predicate AllSatisfy(d: Dialect, sem: Semantics, item: Item, e: Env, m: Model, tcs: seq<TransactCondition>) {
    forall tc :: tc in tcs ==> Satisfies(d, sem, item, e, m, tc)
  }

  lemma {:induction false} AllSatisfied(d: Dialect, sem: Semantics, item: Item, e: Env, m: Model, tcs: seq<TransactCondition>)
    requires EqualityIsExact(sem) && ExistenceIsExact(sem) && AbsenceIsExact(sem) && ExpandedAll(m, tcs).Some? && Takes(d, ExpandedAll(m, tcs).value)
    ensures MeetsAll(d, sem, item, ExpandedAll(m, tcs).value) && AllHold(sem, item, e, RawsOf(tcs)) <==> AllSatisfy(d, sem, item, e, m, tcs)
    decreases |tcs|
  {
    hide EvalText, Satisfies, Takes, Expanded, EqualityIsExact, ExistenceIsExact, AbsenceIsExact, Meets;
    if tcs != [] {
      var init, last := tcs[..|tcs| - 1], tcs[|tcs| - 1];
      var xs, ys := ExpandedAll(m, init).value, Expanded(m, last).value;
      assert ExpandedAll(m, tcs).value == xs + ys;
      var more := if last.Expression? then [last.raw] else [];
      assert RawsOf(tcs) == RawsOf(init) + more && tcs == init + [last];
      hide ExpandedAll, RawsOf, MeetsAll, AllHold, AllSatisfy;
      TakesConcat(d, xs, ys);
      MeetsConcat(d, sem, item, xs, ys);
      HoldConcat(sem, item, e, RawsOf(init), more);
      SatisfyConcat(d, sem, item, e, m, init, last);
      AllSatisfied(d, sem, item, e, m, init);
      OneSatisfied(d, sem, item, e, m, last);
      OneHolds(sem, item, e, last);
    }
  }

  lemma OneHolds(sem: Semantics, item: Item, e: Env, tc: TransactCondition)
    ensures AllHold(sem, item, e, if tc.Expression? then [tc.raw] else []) <==> (tc.Expression? ==> EvalText(sem, item, e, tc.raw.text))
  {
    hide EvalText;
  }

  lemma HoldConcat(sem: Semantics, item: Item, e: Env, xs: seq<Raw>, ys: seq<Raw>)
    ensures AllHold(sem, item, e, xs + ys) <==> AllHold(sem, item, e, xs) && AllHold(sem, item, e, ys)
  {
    hide EvalText;
    assert forall x :: x in xs + ys <==> x in xs || x in ys;
  }

  lemma SatisfyConcat(d: Dialect, sem: Semantics, item: Item, e: Env, m: Model, init: seq<TransactCondition>, last: TransactCondition)
    ensures AllSatisfy(d, sem, item, e, m, init + [last]) <==> AllSatisfy(d, sem, item, e, m, init) && Satisfies(d, sem, item, e, m, last)
  {
    hide Satisfies;
    assert forall x :: x in init + [last] <==> x in init || x == last;
  }

  lemma MeetsConcat(d: Dialect, sem: Semantics, item: Item, xs: seq<Condition>, ys: seq<Condition>)
    ensures MeetsAll(d, sem, item, xs + ys) <==> MeetsAll(d, sem, item, xs) && MeetsAll(d, sem, item, ys)
  {
    hide Meets;
    assert forall c :: c in xs + ys <==> c in xs || c in ys;
  }

  /** applyConditionsToBuilder: the field, key and version conditions go to the builder, in
      order, the hand-written ones are returned; it fails exactly on a condition that stands
      for nothing or that the builder refuses. */
  method ApplyTransactConditions(b: Builder, m: Model, tcs: seq<TransactCondition>) returns (r: Option<seq<Raw>>)
    modifies b
    ensures r.Some? <==> AllTakeable(b.d, m, tcs)
    ensures r.Some? ==> ExpandedAll(m, tcs).Some? && Takes(b.d, ExpandedAll(m, tcs).value)
    ensures r.Some? ==> var cs := ExpandedAll(m, tcs).value;
              r.value == RawsOf(tcs) && Run(b.d, old(b.State()), CondRequests(cs, Ands(|cs|)), b.State())
  {
    ghost var start := b.State();
    ghost var done: seq<Condition> := [];
    var raws: seq<Raw> := [];
    NothingApplied(b.d, m, tcs, start);
    AllOffered(b.d, m, tcs);
    hide Expanded, ExpandedAll, RawsOf, Run, Takes, CondRequests, AllTakeable, Applied;
    for i := 0 to |tcs|
      invariant Applied(b.d, m, tcs, i, start, done, raws, b.State())
    {
      NextApplied(b.d, m, tcs, i, start, done, raws, b.State());
      var cs := Expanded(m, tcs[i]);
      if cs.None? {
        return None;
      }
      var ok := ApplyConditions(b, cs.value, Ands(|cs.value|));
      if !ok {
        return None;
      }
      done := done + cs.value;
      if tcs[i].Expression? {
        raws := raws + [tcs[i].raw];
      }
    }
    AllApplied(b.d, m, tcs, start, done, raws, b.State());
    return Some(raws);
  }

  /** The first i are on the builder, and the expressions among them set aside. */
  ghost predicate Applied(d: Dialect, m: Model, tcs: seq<TransactCondition>, i: int, start: Draft, done: seq<Condition>, raws: seq<Raw>, now: Draft) {
    && 0 <= i <= |tcs| && ExpandedAll(m, tcs[..i]) == Some(done) && raws == RawsOf(tcs[..i])
    && Takes(d, done) && Run(d, start, CondRequests(done, Ands(|done|)), now)
  }

  lemma NothingApplied(d: Dialect, m: Model, tcs: seq<TransactCondition>, start: Draft)
    ensures Applied(d, m, tcs, 0, start, [], [], start)
  {
    assert tcs[..0] == [];
    assert CondRequests([], Ands(0)) == [];
    hide Wanted;
  }

  lemma AllApplied(d: Dialect, m: Model, tcs: seq<TransactCondition>, start: Draft, done: seq<Condition>, raws: seq<Raw>, now: Draft)
    requires Applied(d, m, tcs, |tcs|, start, done, raws, now)
    ensures ExpandedAll(m, tcs) == Some(done) && raws == RawsOf(tcs) && Takes(d, done) && Run(d, start, CondRequests(done, Ands(|done|)), now)
  {
    assert tcs[..|tcs|] == tcs;
    hide ExpandedAll, RawsOf, Takes, Run, CondRequests;
  }

  /** One more: it goes on exactly when its conditions are taken; otherwise the whole fails. */
  lemma NextApplied(d: Dialect, m: Model, tcs: seq<TransactCondition>, i: int, start: Draft, done: seq<Condition>, raws: seq<Raw>, now: Draft)
    requires 0 <= i < |tcs| && Applied(d, m, tcs, i, start, done, raws, now)
    ensures !(Expanded(m, tcs[i]).Some? && Takes(d, Expanded(m, tcs[i]).value)) ==> !(ExpandedAll(m, tcs).Some? && Takes(d, ExpandedAll(m, tcs).value))
    ensures Expanded(m, tcs[i]).Some? && Takes(d, Expanded(m, tcs[i]).value) ==>
              var cs := Expanded(m, tcs[i]).value;
              forall next :: Run(d, now, CondRequests(cs, Ands(|cs|)), next) ==>
                Applied(d, m, tcs, i + 1, start, done + cs, raws + (if tcs[i].Expression? then [tcs[i].raw] else []), next)
  {
    assert tcs[..i + 1][..i] == tcs[..i] && tcs[..i + 1][i] == tcs[i];
    ExpandedPrefix(d, m, tcs, i + 1);
    hide Expanded, Run, CondRequests, Takes;
    if Expanded(m, tcs[i]).Some? {
      var cs := Expanded(m, tcs[i]).value;
      TakesConcat(d, done, cs);
      CondRequestsConcat(done, cs);
      forall next | Run(d, now, CondRequests(cs, Ands(|cs|)), next)
        ensures Run(d, start, CondRequests(done + cs, Ands(|done + cs|)), next)
      {
        RunConcat(d, start, CondRequests(done, Ands(|done|)), now, CondRequests(cs, Ands(|cs|)), next);
      }
    }
  }

  /** The guard of a transaction operation: it holds exactly when every condition its field,
      key and version conditions stand for, and every expression, does. */
  lemma TransactGuardMeansAll(d: Dialect, sem: Semantics, item: Item, m: Model, tcs: seq<TransactCondition>, b: Draft, b': Draft, parts: set<string>)
    requires Blank(d, b, parts) && ExpandedAll(m, tcs).Some? && Takes(d, ExpandedAll(m, tcs).value)
    requires var qs := CondRequests(ExpandedAll(m, tcs).value, Ands(|ExpandedAll(m, tcs).value|)); Run(d, b, qs, b') && Uses(d, qs, parts)
    requires var r := Merge(Text(b'.conditions, b'.conditionOps), b'.env, RawsOf(tcs)); r.Some? && RawsReadable(r.value.1, RawsOf(tcs))
    ensures var (t, e) := Merge(Text(b'.conditions, b'.conditionOps), b'.env, RawsOf(tcs)).value;
            EvalText(sem, item, e, t) <==> MeetsAll(d, sem, item, ExpandedAll(m, tcs).value) && forall raw :: raw in RawsOf(tcs) ==> EvalText(sem, item, e, raw.text)
  {
    hide Run, Uses, Blank, Takes, MeetsAll, CondRequests, EvalText, Merge, RawsReadable;
    var raws := RawsOf(tcs);
    GuardMeansAll(d, sem, item, b, ExpandedAll(m, tcs).value, b', raws, parts);
    RawsNotEmpty(m, tcs);
    hide RawsOf, ExpandedAll;
    var e := Merge(Text(b'.conditions, b'.conditionOps), b'.env, raws).value.1;
    if RawsHold(sem, item, e, raws) {
      forall raw | raw in raws ensures EvalText(sem, item, e, raw.text) {
        var i :| 0 <= i < |raws| && raws[i] == raw;
      }
    }
  }

  /** The guard of a transaction operation, whatever is mixed in it: it passes an item exactly
      when every condition is satisfied.  So one with KeyNotExists passes no item that has a
      key attribute, one with KeyExists only items that have them all, and one with
      VersionEquals only items with that version. */
  lemma TransactGuardSays(d: Dialect, sem: Semantics, item: Item, m: Model, tcs: seq<TransactCondition>, b: Draft, b': Draft, parts: set<string>)
    requires EqualityIsExact(sem) && ExistenceIsExact(sem) && AbsenceIsExact(sem)
    requires Blank(d, b, parts) && ExpandedAll(m, tcs).Some? && Takes(d, ExpandedAll(m, tcs).value)
    requires var qs := CondRequests(ExpandedAll(m, tcs).value, Ands(|ExpandedAll(m, tcs).value|)); Run(d, b, qs, b') && Uses(d, qs, parts)
    requires var r := Merge(Text(b'.conditions, b'.conditionOps), b'.env, RawsOf(tcs)); r.Some? && RawsReadable(r.value.1, RawsOf(tcs))
    ensures var (t, e) := Merge(Text(b'.conditions, b'.conditionOps), b'.env, RawsOf(tcs)).value;
            EvalText(sem, item, e, t) <==> forall tc :: tc in tcs ==> Satisfies(d, sem, item, e, m, tc)
  {
    hide Run, Uses, Blank, Takes, MeetsAll, CondRequests, EvalText, Merge, RawsReadable, RawsOf, ExpandedAll, Satisfies, EqualityIsExact, ExistenceIsExact, AbsenceIsExact;
    var e := Merge(Text(b'.conditions, b'.conditionOps), b'.env, RawsOf(tcs)).value.1;
    TransactGuardMeansAll(d, sem, item, m, tcs, b, b', parts);
    AllSatisfied(d, sem, item, e, m, tcs);
  }

  lemma {:induction false} RawsNotEmpty(m: Model, tcs: seq<TransactCondition>)
    requires ExpandedAll(m, tcs).Some?
    ensures forall i :: 0 <= i < |RawsOf(tcs)| ==> RawsOf(tcs)[i].text.frags != []
    decreases |tcs|
  {
    if tcs != [] {
      RawsNotEmpty(m, tcs[..|tcs| - 1]);
    }
  }

  /** What fails for a prefix fails for the whole. */
  lemma {:induction false} ExpandedPrefix(d: Dialect, m: Model, tcs: seq<TransactCondition>, n: nat)
    requires n <= |tcs|
    ensures ExpandedAll(m, tcs).Some? ==> ExpandedAll(m, tcs[..n]).Some?
    ensures ExpandedAll(m, tcs).Some? && Takes(d, ExpandedAll(m, tcs).value) ==> Takes(d, ExpandedAll(m, tcs[..n]).value)
    decreases |tcs|
  {
    if n == |tcs| {
      assert tcs[..n] == tcs;
    } else {
      var init := tcs[..|tcs| - 1];
      assert init[..n] == tcs[..n];
      ExpandedPrefix(d, m, init, n);
      if ExpandedAll(m, tcs).Some? {
        PartsTaken(d, ExpandedAll(m, init).value, Expanded(m, tcs[|tcs| - 1]).value, ExpandedAll(m, tcs).value);
      }
    }
  }

  lemma MeaningsConcat(d: Dialect, xs: seq<Condition>, ys: seq<Condition>)
    requires Takes(d, xs) && Takes(d, ys)
    ensures Takes(d, xs + ys) && Meanings(d, xs + ys) == Meanings(d, xs) + Meanings(d, ys)
  {
    hide Wanted;
    assert forall i :: 0 <= i < |xs + ys| ==> (xs + ys)[i] == if i < |xs| then xs[i] else ys[i - |xs|];
  }
}
