/** What a read finds: the automatically chosen index against the whole table, and First by
    GetItem against First by a compiled Query. */
module Reads {
  import opened Wrappers
  import opened AttributeValues
  import opened Expressions
  import opened Builder
  import opened Compile

  // ----- what a query on an index can see

  /** How the table compares: equality needs a present, equal attribute. */
  ghost predicate EqualityIsExact(sem: Semantics) {
    && (forall v: AV, w: AV :: sem(Eq, Some(v), [w]) == (v == w))
    && (forall args: seq<AV> :: !sem(Eq, None, args))
  }

  /** An index holds the items that carry its key attributes. */
  predicate InIndex(m: Metadata, idx: IndexSchema, item: Item) {
    Split(ResolveAttr(m, idx.partitionKey)) in item && (idx.sortKey != "" ==> Split(ResolveAttr(m, idx.sortKey)) in item)
  }

  lemma EqualityParses(op: string)
    requires IsEquality(op)
    ensures ParseOperator(op) == Some(Eq)
  {
    assert Upper("=") == "=" && Upper("eq") == "EQ";
  }

  /** Where the partition attribute of the index is, its sort attribute is too. */
  predicate Complete(m: Metadata, idx: IndexSchema, item: Item) {
    Split(ResolveAttr(m, idx.partitionKey)) in item && idx.sortKey != "" ==> Split(ResolveAttr(m, idx.sortKey)) in item
  }

  /** What a Query on the chosen index reads; a scan reads everything. */
  predicate Visible(m: Metadata, chosen: Option<IndexSchema>, item: Item) {
    chosen.Some? ==> InIndex(m, chosen.value, item)
  }

  predicate AllComplete(m: Metadata, chosen: Option<IndexSchema>, table: seq<Item>) {
    chosen.Some? ==> forall i :: 0 <= i < |table| ==> Complete(m, chosen.value, table[i])
  }

  /** An automatically chosen index misses nothing: where every item with the index's
      partition attribute also has its sort attribute, each item meeting all Where
      conditions is in the index. */
  lemma ChosenIndexSeesEverything(d: Dialect, q: Query, p: Plan, idx: IndexSchema, sem: Semantics, item: Item)
    requires Planned(q, p) && FixesPartition(q.meta, idx, p.keys) && EqualityIsExact(sem) && Complete(q.meta, idx, item)
    requires MeetsAll(d, sem, item, NormalizedSeq(q.meta, q.conditions))
    ensures InIndex(q.meta, idx, item)
  {
    SplitMeets(d, sem, item, q, p);
    hide Planned;
    var i :| 0 <= i < |p.keys| && IsEquality(p.keys[i].op) && p.keys[i].field == ResolveAttr(q.meta, idx.partitionKey);
    var c := p.keys[i];
    EqualityParses(c.op);
    assert Meets(d, sem, item, c);
  }

  lemma IntendedIsVisible(d: Dialect, q: Query, p: Plan, chosen: Option<IndexSchema>, sem: Semantics, item: Item)
    requires PlanFor(q, p, chosen) && q.index == "" && Consistent(q.meta) && EqualityIsExact(sem)
    requires (chosen.Some? ==> Complete(q.meta, chosen.value, item)) && MeetsAll(d, sem, item, NormalizedSeq(q.meta, q.conditions))
    ensures Visible(q.meta, chosen, item)
  {
    if chosen.Some? {
      var r :| PlannedBy(q, p, chosen, r);
      ChosenIndexSeesEverything(d, q, p, chosen.value, sem, item);
    }
  }

  /** Compilation preserves meaning, over tables.  For every query without an explicit index,
      every filter builder without a top-level OR and every table whose items carry the
      chosen index's sort attribute wherever they carry its partition attribute: what the
      chosen index holds and the compiled query matches is exactly what was intended. */
  lemma CompiledQueryFindsIntended(d: Dialect, q: Query, start: Draft, p: Plan, chosen: Option<IndexSchema>, end: Draft, c: Compiled,
                                   parts: set<string>, sem: Semantics, table: seq<Item>)
    requires CompilesTo(d, q, start, p, chosen, end, Some(c)) && q.index == "" && Consistent(q.meta)
    requires Ready(d, start, parts) && Uses(d, Requests(q, p), parts) && Or !in start.filterOps
    requires EqualityIsExact(sem) && AllComplete(q.meta, chosen, table)
    ensures forall i :: 0 <= i < |table| ==>
              (Visible(q.meta, chosen, table[i]) && Matches(sem, table[i], c) <==> Intended(d, sem, table[i], q, Said(start, Filters).value, start.filterOps))
  {
    assert Said(start, Filters).Some?;
    hide PlanFor, Ready, Uses, Run, Requests, Matches, Visible, Consistent, Complete;
    forall i | 0 <= i < |table|
      ensures Visible(q.meta, chosen, table[i]) && Matches(sem, table[i], c) <==> Intended(d, sem, table[i], q, Said(start, Filters).value, start.filterOps)
    {
      OneItemFound(d, q, start, p, chosen, end, c, parts, sem, table[i]);
    }
  }

  lemma OneItemFound(d: Dialect, q: Query, start: Draft, p: Plan, chosen: Option<IndexSchema>, end: Draft, c: Compiled,
                     parts: set<string>, sem: Semantics, item: Item)
    requires CompilesTo(d, q, start, p, chosen, end, Some(c)) && q.index == "" && Consistent(q.meta)
    requires Ready(d, start, parts) && Uses(d, Requests(q, p), parts) && Or !in start.filterOps
    requires EqualityIsExact(sem) && (chosen.Some? ==> Complete(q.meta, chosen.value, item))
    ensures Visible(q.meta, chosen, item) && Matches(sem, item, c) <==> Intended(d, sem, item, q, Said(start, Filters).value, start.filterOps)
  {
    assert Planned(q, p);
    hide PlanFor, Planned, Ready, Uses, Run, Requests, Matches, Visible, Consistent, Complete, MeetsAll, EvalChain, EqualityIsExact, Takes;
    CompilationPreservesMeaning(d, q, start, p, end, parts, sem, item);
    if Intended(d, sem, item, q, Said(start, Filters).value, start.filterOps) {
      IntendedIsVisible(d, q, p, chosen, sem, item);
    }
  }

  // ----- First by GetItem

  predicate SameName(m: Metadata, c: Condition, key: string) {
    EqualFold(GoField(m, c), key) || EqualFold(AttrName(m, c), ResolveAttr(m, key))
  }

  predicate OnTablePartition(m: Metadata, c: Condition) {
    SameName(m, c, m.partitionKey)
  }

  predicate OnTableSort(m: Metadata, c: Condition) {
    !OnTablePartition(m, c) && m.sortKey != "" && SameName(m, c, m.sortKey)
  }

  /** The operand of the last condition that satisfies p. */
  function LastOn(cs: seq<Condition>, p: Condition -> bool): Option<Arg> {
    if cs == [] then None
    else if p(cs[|cs| - 1]) then Some(cs[|cs| - 1].arg)
    else LastOn(cs[..|cs| - 1], p)
  }

  function PartitionTest(m: Metadata): Condition -> bool {
    c => OnTablePartition(m, c)
  }

  function SortTest(m: Metadata): Condition -> bool {
    c => OnTableSort(m, c)
  }

  predicate Usable(m: Metadata, c: Condition) {
    Trim(c.op) == "=" && (OnTablePartition(m, c) || OnTableSort(m, c))
  }

  /** A condition is usable when it says `=`, spaces aside, of a field that names a key of the
      table by its Go name or its attribute, in any case; one that names both counts as the
      partition key. */
  lemma UsableIff(m: Metadata, c: Condition)
    requires m.partitionKey != ""
    ensures Usable(m, c) <==> Trim(c.op) == "=" && (NamesKey(m, c.field, m.partitionKey) || NamesKey(m, c.field, m.sortKey))
    ensures OnTablePartition(m, c) <==> NamesKey(m, c.field, m.partitionKey)
    ensures OnTableSort(m, c) <==> NamesKey(m, c.field, m.sortKey) && !NamesKey(m, c.field, m.partitionKey)
  {
    NamesKeyIff(m, c, m.partitionKey);
    NamesKeyIff(m, c, m.sortKey);
    hide NamesKey, EqualFold, Trim;
  }

  /** extractGetItemKeyValuesFromConditions: usable only if every condition is an `=` on a
      key attribute; of several conditions on one attribute the last one wins. */
  method ExtractKey(q: Query) returns (ok: bool, pk: Option<Arg>, sk: Option<Arg>)
    ensures ok <==> forall i :: 0 <= i < |q.conditions| ==> Usable(q.meta, q.conditions[i])
    ensures ok ==> pk == LastOn(q.conditions, PartitionTest(q.meta)) && sk == LastOn(q.conditions, SortTest(q.meta))
  {
    hide EqualFold, Trim, GoField, AttrName, ResolveAttr;
    ok, pk, sk := true, None, None;
    ghost var onPk, onSk := PartitionTest(q.meta), SortTest(q.meta);
    for k := 0 to |q.conditions|
      invariant forall i :: 0 <= i < k ==> Usable(q.meta, q.conditions[i])
      invariant pk == LastOn(q.conditions[..k], onPk) && sk == LastOn(q.conditions[..k], onSk)
    {
      var c := q.conditions[k];
      assert q.conditions[..k + 1][..k] == q.conditions[..k] && q.conditions[..k + 1][k] == c;
      if SameName(q.meta, c, q.meta.partitionKey) {
        if Trim(c.op) != "=" { return false, None, None; }
        pk := Some(c.arg);
        continue;
      }
      if q.meta.sortKey != "" && SameName(q.meta, c, q.meta.sortKey) {
        if Trim(c.op) != "=" { return false, None, None; }
        sk := Some(c.arg);
        continue;
      }
      return false, None, None;
    }
    assert q.conditions[..|q.conditions|] == q.conditions;
  }

  /** The key compileGetItem reads off the conditions, with every key attribute found. */
  ghost predicate Extracted(q: Query, pk: Arg, sk: Option<Arg>) {
    && (forall i :: 0 <= i < |q.conditions| ==> Usable(q.meta, q.conditions[i]))
    && LastOn(q.conditions, PartitionTest(q.meta)) == Some(pk) && LastOn(q.conditions, SortTest(q.meta)) == sk
    && (sk.Some? <==> q.meta.sortKey != "")
  }

  datatype GetPlan = Fallback | NoPartitionKey | Get(pk: Arg, sk: Option<Arg>)

  /** compileGetItem: taken without an index and without filters, when the conditions are
      equalities on key attributes and give all of them. */
  method CompileGetItem(q: Query, filters: Builder?) returns (r: GetPlan)
    ensures r.Get? ==> q.index == "" && filters == null && q.meta.partitionKey != "" && Extracted(q, r.pk, r.sk)
    ensures r.NoPartitionKey? ==> q.meta.partitionKey == ""
    ensures r.Fallback? ==> q.index != "" || filters != null || forall pk, sk :: !Extracted(q, pk, sk)
  {
    if q.index != "" || filters != null {
      return Fallback;
    }
    if q.meta.partitionKey == "" {
      return NoPartitionKey;
    }
    var ok, pk, sk := ExtractKey(q);
    if !ok || pk.None? || (q.meta.sortKey != "" && sk.None?) {
      return Fallback;
    }
    if q.meta.sortKey == "" {
      NoSortKey(q.meta, q.conditions);
    }
    return Get(pk.value, sk);
  }

  lemma {:induction false} NoSortKey(m: Metadata, cs: seq<Condition>)
    requires m.sortKey == ""
    ensures LastOn(cs, SortTest(m)) == None
    decreases |cs|
  {
    if cs != [] {
      NoSortKey(m, cs[..|cs| - 1]);
    }
  }

  predicate HasKey(m: Metadata, item: Item, pk: AV, sk: Option<AV>) {
    var p := Split(ResolveAttr(m, m.partitionKey));
    var s := Split(ResolveAttr(m, m.sortKey));
    p in item && item[p] == pk && (sk.Some? ==> s in item && item[s] == sk.value)
  }

  lemma KeyConditionMeans(d: Dialect, sem: Semantics, item: Item, c: Condition)
    requires EqualityIsExact(sem) && c.op == "=" && d.valid(c.field) && c.arg.accepted && c.arg.whole.Some?
    ensures Meets(d, sem, item, c) <==> Split(c.field) in item && item[Split(c.field)] == c.arg.whole.value
  {
    assert Upper("=") == "=" && Trim("=") == "=";
    assert Converted([c.arg.whole]) == Some([c.arg.whole.value]) by { AllConverted([c.arg.whole], [c.arg.whole.value]); }
  }

  // ----- the two answers

  datatype Answer = Failed | Answer(item: Option<Item>)

  /** The item stored under the key. */
  function Fetch(m: Metadata, table: seq<Item>, pk: AV, sk: Option<AV>): (r: Option<Item>)
    ensures r.Some? ==> r.value in table && HasKey(m, r.value, pk, sk)
    ensures r.None? ==> forall i :: 0 <= i < |table| ==> !HasKey(m, table[i], pk, sk)
  {
    if table == [] then None else if HasKey(m, table[0], pk, sk) then Some(table[0]) else Fetch(m, table[1..], pk, sk)
  }

  function OperandOf(a: Option<Arg>): Option<AV> {
    if a.Some? then a.value.whole else None
  }

  /** GetItem: an operand that does not convert is an error. */
  function GetAnswer(m: Metadata, table: seq<Item>, pk: Arg, sk: Option<Arg>): Answer {
    if pk.whole.None? || (sk.Some? && sk.value.whole.None?) then Failed else Answer(Fetch(m, table, pk.whole.value, OperandOf(sk)))
  }

  ghost predicate Found(m: Metadata, sem: Semantics, chosen: Option<IndexSchema>, c: Compiled, item: Item) {
    Visible(m, chosen, item) && Matches(sem, item, c)
  }

  /** A Query limited to one may return any item it can see and match, and none only if
      there is none; a refused condition is an error. */
  ghost predicate QueryMayAnswer(m: Metadata, sem: Semantics, chosen: Option<IndexSchema>, r: Option<Compiled>, table: seq<Item>, a: Answer) {
    match (r, a)
    case (None, Failed) => true
    case (Some(c), Answer(Some(x))) => x in table && Found(m, sem, chosen, c, x)
    case (Some(c), Answer(None)) => forall i :: 0 <= i < |table| ==> !Found(m, sem, chosen, c, table[i])
    case _ => false
  }

  function PkPath(m: Metadata): seq<string> { Split(ResolveAttr(m, m.partitionKey)) }

  function SkPath(m: Metadata): seq<string> { Split(ResolveAttr(m, m.sortKey)) }

  predicate SameKey(m: Metadata, x: Item, y: Item)
    requires PkPath(m) in x && PkPath(m) in y && (m.sortKey != "" ==> SkPath(m) in x && SkPath(m) in y)
  {
    x[PkPath(m)] == y[PkPath(m)] && (m.sortKey != "" ==> x[SkPath(m)] == y[SkPath(m)])
  }

  /** Items carry their keys, no two the same, and are complete for the chosen index. */
  predicate KeyedTable(m: Metadata, chosen: Option<IndexSchema>, table: seq<Item>) {
    && (forall i :: 0 <= i < |table| ==> PkPath(m) in table[i] && (m.sortKey != "" ==> SkPath(m) in table[i]))
    && (forall i, j :: 0 <= i < j < |table| ==> !SameKey(m, table[i], table[j]))
    && AllComplete(m, chosen, table)
  }

  /** The key attributes are named, and differ. */
  predicate SchemaOk(m: Metadata) {
    m.partitionKey != "" && (m.sortKey != "" ==> ResolveAttr(m, m.partitionKey) != ResolveAttr(m, m.sortKey))
  }

  /** An equality the builder takes as it stands. */
  predicate PlainEquality(d: Dialect, m: Metadata, c: Condition) {
    c.op == "=" && d.valid(AttrName(m, c)) && c.arg.accepted && c.arg.whole.Some?
  }

  predicate SaysPartition(m: Metadata, c: Condition, pk: Arg) {
    AttrName(m, c) == ResolveAttr(m, m.partitionKey) && c.arg.whole == pk.whole
  }

  predicate SaysSort(m: Metadata, c: Condition, sk: Option<Arg>) {
    sk.Some? && AttrName(m, c) == ResolveAttr(m, m.sortKey) && c.arg.whole == sk.value.whole
  }

  /** Read off the conditions: each is an untrimmed equality the builder takes, on the very
      name of a key attribute, all operands given for one attribute are the same, and every
      key attribute is given. */
  ghost predicate SaysTheKey(d: Dialect, q: Query, pk: Arg, sk: Option<Arg>) {
    && (forall i :: 0 <= i < |q.conditions| ==>
          PlainEquality(d, q.meta, q.conditions[i]) && (SaysPartition(q.meta, q.conditions[i], pk) || SaysSort(q.meta, q.conditions[i], sk)))
    && (exists i :: 0 <= i < |q.conditions| && SaysPartition(q.meta, q.conditions[i], pk))
    && (sk.Some? ==> exists i :: 0 <= i < |q.conditions| && SaysSort(q.meta, q.conditions[i], sk))
  }

  /** The two agree on every table: whatever the Query answers is what GetItem answers. */
  ghost predicate AgreeEverywhere(q: Query, sem: Semantics, chosen: Option<IndexSchema>, r: Option<Compiled>, pk: Arg, sk: Option<Arg>) {
    forall table, a :: KeyedTable(q.meta, chosen, table) && QueryMayAnswer(q.meta, sem, chosen, r, table, a) ==> a == GetAnswer(q.meta, table, pk, sk)
  }

  // ----- names and operators

  function Dotted(parts: seq<string>): string
    requires parts != []
  {
    if |parts| == 1 then parts[0] else parts[0] + "." + Dotted(parts[1..])
  }

  lemma {:induction false} DottedSplit(s: string)
    ensures Dotted(Split(s)) == s
    decreases |s|
  {
    if s != "" {
      var rest := Split(s[1..]);
      DottedSplit(s[1..]);
      assert s == [s[0]] + s[1..];
      if s[0] == '.' {
        assert Split(s) == [""] + rest && Split(s)[1..] == rest;
        assert "" + "." + Dotted(rest) == [s[0]] + s[1..];
      } else {
        var parts := [[s[0]] + rest[0]] + rest[1..];
        assert Split(s) == parts && parts[1..] == rest[1..];
        if |rest| > 1 {
          assert ([s[0]] + rest[0]) + "." + Dotted(rest[1..]) == [s[0]] + (rest[0] + "." + Dotted(rest[1..]));
        }
      }
    }
  }

  lemma SplitInjective(s: string, t: string)
    ensures Split(s) == Split(t) <==> s == t
  {
    DottedSplit(s);
    DottedSplit(t);
  }

  lemma ParsedHasNoSpace(op: string)
    requires ParseOperator(op).Some?
    ensures op != "" && !Space(op[0]) && !Space(op[|op| - 1])
  {
    var u := Upper(op);
    assert |u| > 0 && u[0] == UpperChar(op[0]) && u[|u| - 1] == UpperChar(op[|op| - 1]);
    assert !Space(u[0]) && !Space(u[|u| - 1]);
  }

  /** GetItem trims the operator, the builder does not. */
  lemma TrimmedEquality(op: string)
    requires Trim(op) == "="
    ensures ParseOperator(op).Some? <==> op == "="
  {
    if ParseOperator(op).Some? {
      ParsedHasNoSpace(op);
      hide ParseOperator;
      assert TrimLeft(op) == op && TrimRight(op) == op;
    }
    if op == "=" {
      assert Upper("=") == "=";
    }
  }

  lemma UsableTaken(d: Dialect, m: Metadata, c: Condition)
    requires Usable(m, c)
    ensures var n := Normalized(m, c); Wanted(d, n.field, n.op, n.arg).Some? <==> PlainEquality(d, m, c)
  {
    TrimmedEquality(c.op);
    if c.op == "=" {
      assert Upper("=") == "=" && Trim("=") == "=" && ParseOperator("=") == Some(Eq);
      if c.arg.whole.Some? { AllConverted([c.arg.whole], [c.arg.whole.value]); } else { NotConverted([c.arg.whole], 0); }
    }
  }

  lemma {:induction false} NormalizedAt(m: Metadata, cs: seq<Condition>, i: nat)
    requires i < |cs|
    ensures NormalizedSeq(m, cs)[i] == Normalized(m, cs[i])
    decreases i
  {
    if i > 0 {
      NormalizedAt(m, cs[1..], i - 1);
    }
  }

  lemma TakenIff(d: Dialect, q: Query, p: Plan)
    requires Planned(q, p) && forall i :: 0 <= i < |q.conditions| ==> Usable(q.meta, q.conditions[i])
    ensures Takes(d, p.keys) && Takes(d, p.filters) <==> AllPlain(d, q)
  {
    var onKey: Condition -> bool :| SplitBy(q, p, onKey);
    var all := NormalizedSeq(q.meta, q.conditions);
    forall i | 0 <= i < |q.conditions| ensures all[i] == Normalized(q.meta, q.conditions[i]) && (Takable(d, all[i]) <==> PlainEquality(d, q.meta, q.conditions[i])) {
      NormalizedAt(q.meta, q.conditions, i);
      UsableTaken(d, q.meta, q.conditions[i]);
    }
    forall c ensures c in all <==> c in p.keys || c in p.filters { SelectPartitions(q.meta, q.conditions, onKey, c); }
    hide Select, PlainEquality, Normalized, Usable;
    TakesByMember(d, p.keys);
    TakesByMember(d, p.filters);
    TakesByMember(d, all);
  }

  predicate Takable(d: Dialect, c: Condition) {
    Wanted(d, c.field, c.op, c.arg).Some?
  }

  lemma TakesByMember(d: Dialect, cs: seq<Condition>)
    ensures Takes(d, cs) <==> forall c :: c in cs ==> Takable(d, c)
    ensures (forall c :: c in cs ==> Takable(d, c)) <==> forall i :: 0 <= i < |cs| ==> Takable(d, cs[i])
  {
    hide Wanted;
    if Takes(d, cs) {
      forall c | c in cs ensures Takable(d, c) {
        var i :| 0 <= i < |cs| && cs[i] == c;
      }
    }
    if forall c :: c in cs ==> Takable(d, c) {
      forall i | 0 <= i < |cs| ensures Wanted(d, cs[i].field, cs[i].op, cs[i].arg).Some? { assert Takable(d, cs[i]); }
    }
  }

  /** What the conditions ask of an item. */
  predicate Demands(m: Metadata, item: Item, c: Condition) {
    Split(AttrName(m, c)) in item && Some(item[Split(AttrName(m, c))]) == c.arg.whole
  }

  predicate DemandsAll(q: Query, item: Item) {
    forall i :: 0 <= i < |q.conditions| ==> Demands(q.meta, item, q.conditions[i])
  }

  ghost predicate AllPlain(d: Dialect, q: Query) {
    forall i :: 0 <= i < |q.conditions| ==> PlainEquality(d, q.meta, q.conditions[i])
  }

  lemma MeetsIffDemands(d: Dialect, q: Query, sem: Semantics, item: Item)
    requires EqualityIsExact(sem) && AllPlain(d, q)
    ensures MeetsAll(d, sem, item, NormalizedSeq(q.meta, q.conditions)) <==> DemandsAll(q, item)
  {
    var all := NormalizedSeq(q.meta, q.conditions);
    forall i | 0 <= i < |q.conditions| ensures Meets(d, sem, item, all[i]) <==> Demands(q.meta, item, q.conditions[i]) {
      NormalizedAt(q.meta, q.conditions, i);
      KeyConditionMeans(d, sem, item, all[i]);
    }
    hide Meets, Demands, PlainEquality, NormalizedSeq;
    if MeetsAll(d, sem, item, all) {
      forall i | 0 <= i < |q.conditions| ensures Demands(q.meta, item, q.conditions[i]) { assert all[i] in all; }
    }
    if forall i :: 0 <= i < |q.conditions| ==> Demands(q.meta, item, q.conditions[i]) {
      forall c | c in all ensures Meets(d, sem, item, c) {
        var i :| 0 <= i < |all| && all[i] == c;
      }
    }
  }

  // ----- when they agree

  /** A Query of key equalities without filters finds exactly what the conditions demand. */
  ghost predicate KeyQuery(d: Dialect, q: Query, p: Plan, chosen: Option<IndexSchema>, end: Draft, r: Option<Compiled>, parts: set<string>, sem: Semantics) {
    && CompilesTo(d, q, Empty(), p, chosen, end, r) && q.index == "" && Consistent(q.meta) && SchemaOk(q.meta)
    && NoVariants(d, parts) && (r.Some? ==> Uses(d, Requests(q, p), parts)) && EqualityIsExact(sem)
  }

  predicate CompleteFor(m: Metadata, chosen: Option<IndexSchema>, item: Item) {
    chosen.Some? ==> Complete(m, chosen.value, item)
  }

  ghost predicate ReadsDemands(q: Query, sem: Semantics, chosen: Option<IndexSchema>, c: Compiled) {
    forall item :: CompleteFor(q.meta, chosen, item) ==> (Found(q.meta, sem, chosen, c, item) <==> DemandsAll(q, item))
  }

  lemma KeyQueryReads(d: Dialect, q: Query, p: Plan, chosen: Option<IndexSchema>, end: Draft, c: Compiled, parts: set<string>, sem: Semantics)
    requires KeyQuery(d, q, p, chosen, end, Some(c), parts, sem) && AllPlain(d, q)
    ensures ReadsDemands(q, sem, chosen, c)
  {
    hide Visible, Matches, DemandsAll, AllPlain, Complete, Consistent, Uses, Requests, NoVariants, Ready, PlanFor, EqualityIsExact, CompilesTo;
    EmptyReady(d, parts);
    assert Said(Empty(), Filters) == Some([]) && Empty().filterOps == [];
    hide Empty, Said;
    forall item | CompleteFor(q.meta, chosen, item) ensures Found(q.meta, sem, chosen, c, item) <==> DemandsAll(q, item) {
      assert EvalChain(sem, item, [], []);
      OneItemFound(d, q, Empty(), p, chosen, end, c, parts, sem, item);
      MeetsIffDemands(d, q, sem, item);
    }
  }

  lemma EmptyReady(d: Dialect, parts: set<string>)
    requires NoVariants(d, parts)
    ensures Ready(d, Empty(), parts)
  {
    EmptySays(parts, Filters);
  }

  /** Conditions that say the key demand exactly the key. */
  lemma SayingIsHaving(d: Dialect, q: Query, pk: Arg, sk: Option<Arg>, item: Item)
    requires SaysTheKey(d, q, pk, sk) && pk.whole.Some? && (sk.Some? ==> sk.value.whole.Some?)
    ensures DemandsAll(q, item) <==> HasKey(q.meta, item, pk.whole.value, OperandOf(sk))
  {
    hide PlainEquality;
    if DemandsAll(q, item) {
      var i :| 0 <= i < |q.conditions| && SaysPartition(q.meta, q.conditions[i], pk);
      assert Demands(q.meta, item, q.conditions[i]);
      if sk.Some? {
        var j :| 0 <= j < |q.conditions| && SaysSort(q.meta, q.conditions[j], sk);
        assert Demands(q.meta, item, q.conditions[j]);
      }
    }
  }

  lemma KeysTell(m: Metadata, chosen: Option<IndexSchema>, table: seq<Item>, pk: AV, sk: Option<AV>, x: Item)
    requires KeyedTable(m, chosen, table) && x in table && HasKey(m, x, pk, sk) && (sk.Some? <==> m.sortKey != "")
    ensures Fetch(m, table, pk, sk) == Some(x)
  {
    var i :| 0 <= i < |table| && table[i] == x;
    var y := Fetch(m, table, pk, sk).value;
    var j :| 0 <= j < |table| && table[j] == y;
    assert SameKey(m, x, y) && SameKey(m, y, x);
  }

  lemma SayingAgrees(d: Dialect, q: Query, chosen: Option<IndexSchema>, c: Compiled, sem: Semantics, pk: Arg, sk: Option<Arg>, table: seq<Item>, a: Answer)
    requires ReadsDemands(q, sem, chosen, c) && SaysTheKey(d, q, pk, sk) && (sk.Some? <==> q.meta.sortKey != "")
    requires pk.whole.Some? && (sk.Some? ==> sk.value.whole.Some?)
    requires KeyedTable(q.meta, chosen, table) && QueryMayAnswer(q.meta, sem, chosen, Some(c), table, a)
    ensures a == GetAnswer(q.meta, table, pk, sk)
  {
    hide Found, HasKey, DemandsAll, SaysTheKey;
    forall i | 0 <= i < |table| ensures Found(q.meta, sem, chosen, c, table[i]) <==> HasKey(q.meta, table[i], pk.whole.value, OperandOf(sk)) {
      assert CompleteFor(q.meta, chosen, table[i]);
      SayingIsHaving(d, q, pk, sk, table[i]);
    }
    hide KeyedTable;
    if a.item.Some? {
      KeysTell(q.meta, chosen, table, pk.whole.value, OperandOf(sk), a.item.value);
    }
  }

  // ----- when they do not

  function Another(v: AV): (w: AV)
    ensures w != v
  {
    if v == NULL then BOOL(true) else NULL
  }

  /** An item with the given key, complete for the index, and `other` anywhere else. */
  function ItemWith(m: Metadata, chosen: Option<IndexSchema>, pk: AV, sk: AV, other: AV): Item {
    (if chosen.Some? then map[Split(ResolveAttr(m, chosen.value.partitionKey)) := other, Split(ResolveAttr(m, chosen.value.sortKey)) := other] else map[])
    + (if m.sortKey != "" then map[SkPath(m) := sk] else map[]) + map[PkPath(m) := pk]
  }

  lemma ItemWithKey(m: Metadata, chosen: Option<IndexSchema>, pk: AV, sk: AV, other: AV)
    requires SchemaOk(m)
    ensures var x := ItemWith(m, chosen, pk, sk, other);
            && KeyedTable(m, chosen, [x]) && x[PkPath(m)] == pk && (m.sortKey != "" ==> x[SkPath(m)] == sk)
            && forall path :: path in x && path != PkPath(m) && !(m.sortKey != "" && path == SkPath(m)) ==> x[path] == other
  {
    SplitInjective(ResolveAttr(m, m.partitionKey), ResolveAttr(m, m.sortKey));
    var x := ItemWith(m, chosen, pk, sk, other);
    assert chosen.Some? ==> Complete(m, chosen.value, x);
  }

  ghost predicate KeyOperands(q: Query, pk: Arg, sk: Option<Arg>) {
    pk.whole.Some? && (sk.Some? <==> q.meta.sortKey != "") && (sk.Some? ==> sk.value.whole.Some?)
  }

  /** A condition that says something else than the key: an item with the key that misses it. */
  lemma ForeignCondition(d: Dialect, q: Query, chosen: Option<IndexSchema>, c: Compiled, sem: Semantics, pk: Arg, sk: Option<Arg>, at: nat)
    returns (table: seq<Item>)
    requires ReadsDemands(q, sem, chosen, c) && SchemaOk(q.meta) && KeyOperands(q, pk, sk)
    requires at < |q.conditions| && q.conditions[at].arg.whole.Some?
    requires !SaysPartition(q.meta, q.conditions[at], pk) && !SaysSort(q.meta, q.conditions[at], sk)
    ensures KeyedTable(q.meta, chosen, table) && QueryMayAnswer(q.meta, sem, chosen, Some(c), table, Answer(None))
    ensures GetAnswer(q.meta, table, pk, sk) != Answer(None)
  {
    var m, cond := q.meta, q.conditions[at];
    var other := Another(cond.arg.whole.value);
    var sv := if sk.Some? then sk.value.whole.value else NULL;
    var x := ItemWith(m, chosen, pk.whole.value, sv, other);
    hide Found, Complete;
    ItemWithKey(m, chosen, pk.whole.value, sv, other);
    hide ItemWith;
    SplitInjective(AttrName(m, cond), ResolveAttr(m, m.partitionKey));
    SplitInjective(AttrName(m, cond), ResolveAttr(m, m.sortKey));
    assert !Demands(m, x, cond) && !DemandsAll(q, x);
    assert HasKey(m, x, pk.whole.value, OperandOf(sk));
    hide Split, AttrName, ResolveAttr, DemandsAll, HasKey;
    table := [x];
    assert table[0] == x && CompleteFor(m, chosen, x);
  }

  /** Conditions that leave a key attribute open: an item they all hold of, under another key. */
  lemma OpenKey(q: Query, chosen: Option<IndexSchema>, c: Compiled, sem: Semantics, pk: Arg, sk: Option<Arg>, pv: AV, sv: AV) returns (table: seq<Item>)
    requires ReadsDemands(q, sem, chosen, c) && SchemaOk(q.meta) && KeyOperands(q, pk, sk)
    requires forall i :: 0 <= i < |q.conditions| ==> SaysPartition(q.meta, q.conditions[i], pk) || SaysSort(q.meta, q.conditions[i], sk)
    requires Some(pv) != pk.whole ==> forall i :: 0 <= i < |q.conditions| ==> !SaysPartition(q.meta, q.conditions[i], pk)
    requires sk.Some? && Some(sv) != sk.value.whole ==> forall i :: 0 <= i < |q.conditions| ==> !SaysSort(q.meta, q.conditions[i], sk)
    requires Some(pv) != pk.whole || (sk.Some? && Some(sv) != sk.value.whole)
    ensures KeyedTable(q.meta, chosen, table) && GetAnswer(q.meta, table, pk, sk) == Answer(None)
    ensures exists x :: QueryMayAnswer(q.meta, sem, chosen, Some(c), table, Answer(Some(x)))
  {
    var m := q.meta;
    var x := ItemWith(m, chosen, pv, sv, NULL);
    hide Found, Complete;
    ItemWithKey(m, chosen, pv, sv, NULL);
    hide ItemWith;
    forall i | 0 <= i < |q.conditions| ensures Demands(m, x, q.conditions[i]) {
      assert SaysPartition(m, q.conditions[i], pk) || SaysSort(m, q.conditions[i], sk);
    }
    assert DemandsAll(q, x) && !HasKey(m, x, pk.whole.value, OperandOf(sk));
    hide Split, AttrName, ResolveAttr, DemandsAll, HasKey, Demands, SaysPartition, SaysSort;
    table := [x];
    assert table[0] == x && CompleteFor(m, chosen, x);
    assert QueryMayAnswer(m, sem, chosen, Some(c), table, Answer(Some(x)));
  }

  lemma {:induction false} LastIsGiven(cs: seq<Condition>, p: Condition -> bool)
    ensures LastOn(cs, p).Some? ==> exists i :: 0 <= i < |cs| && p(cs[i]) && cs[i].arg == LastOn(cs, p).value
    decreases |cs|
  {
    if cs != [] && !p(cs[|cs| - 1]) {
      LastIsGiven(cs[..|cs| - 1], p);
    }
  }

  lemma Disagreeing(d: Dialect, q: Query, chosen: Option<IndexSchema>, c: Compiled, sem: Semantics, pk: Arg, sk: Option<Arg>)
    requires ReadsDemands(q, sem, chosen, c) && SchemaOk(q.meta) && KeyOperands(q, pk, sk) && AllPlain(d, q) && !SaysTheKey(d, q, pk, sk)
    ensures !AgreeEverywhere(q, sem, chosen, Some(c), pk, sk)
  {
    hide ReadsDemands, SaysPartition, SaysSort, KeyedTable, QueryMayAnswer, GetAnswer;
    if at :| 0 <= at < |q.conditions| && !SaysPartition(q.meta, q.conditions[at], pk) && !SaysSort(q.meta, q.conditions[at], sk) {
      var table := ForeignCondition(d, q, chosen, c, sem, pk, sk, at);
    } else if forall i :: 0 <= i < |q.conditions| ==> !SaysPartition(q.meta, q.conditions[i], pk) {
      var sv := if sk.Some? then sk.value.whole.value else NULL;
      var table := OpenKey(q, chosen, c, sem, pk, sk, Another(pk.whole.value), sv);
    } else {
      var table := OpenKey(q, chosen, c, sem, pk, sk, pk.whole.value, Another(sk.value.whole.value));
    }
  }

  /** The fast path and the slow path.  For every query whose conditions compileGetItem
      accepts: First by GetItem on the key it reads off them agrees with First by the compiled
      Query on every table with distinct keys if and only if the conditions say exactly that
      key (or its operands do not convert, when both fail). */
  lemma FastPathAgreesIff(d: Dialect, q: Query, p: Plan, chosen: Option<IndexSchema>, end: Draft, r: Option<Compiled>, parts: set<string>, sem: Semantics,
                          pk: Arg, sk: Option<Arg>)
    requires KeyQuery(d, q, p, chosen, end, r, parts, sem) && Extracted(q, pk, sk)
    ensures AgreeEverywhere(q, sem, chosen, r, pk, sk) <==> SaysTheKey(d, q, pk, sk) || !KeyOperands(q, pk, sk)
  {
    CompilesIffPlain(d, q, p, chosen, end, r);
    if !KeyOperands(q, pk, sk) { OperandsGiven(d, q, pk, sk); }
    hide CompilesTo, AllPlain, KeyOperands, EqualityIsExact, NoVariants, Uses, Requests, LastOn, Usable;
    if r.Some? {
      KeyQueryReads(d, q, p, chosen, end, r.value, parts, sem);
    }
    hide ReadsDemands, AgreeEverywhere, SaysTheKey;
    FastOrSlow(d, q, chosen, r, sem, pk, sk);
  }

  lemma CompilesIffPlain(d: Dialect, q: Query, p: Plan, chosen: Option<IndexSchema>, end: Draft, r: Option<Compiled>)
    requires CompilesTo(d, q, Empty(), p, chosen, end, r) && forall i :: 0 <= i < |q.conditions| ==> Usable(q.meta, q.conditions[i])
    ensures r.Some? <==> AllPlain(d, q)
  {
    assert Planned(q, p);
    hide PlanFor, Planned, Run, Takes, AllPlain;
    TakenIff(d, q, p);
  }

  lemma OperandsGiven(d: Dialect, q: Query, pk: Arg, sk: Option<Arg>)
    requires Extracted(q, pk, sk) && !KeyOperands(q, pk, sk)
    ensures !AllPlain(d, q)
  {
    LastIsGiven(q.conditions, PartitionTest(q.meta));
    LastIsGiven(q.conditions, SortTest(q.meta));
  }

  lemma FastOrSlow(d: Dialect, q: Query, chosen: Option<IndexSchema>, r: Option<Compiled>, sem: Semantics, pk: Arg, sk: Option<Arg>)
    requires (r.Some? <==> AllPlain(d, q)) && (r.Some? ==> ReadsDemands(q, sem, chosen, r.value)) && SchemaOk(q.meta)
    requires (sk.Some? <==> q.meta.sortKey != "") && (!KeyOperands(q, pk, sk) ==> r.None?)
    ensures AgreeEverywhere(q, sem, chosen, r, pk, sk) <==> SaysTheKey(d, q, pk, sk) || !KeyOperands(q, pk, sk)
  {
    if KeyOperands(q, pk, sk) {
      if r.None? {
        assert KeyedTable(q.meta, chosen, []) && QueryMayAnswer(q.meta, sem, chosen, r, [], Failed);
        assert GetAnswer(q.meta, [], pk, sk) != Failed;
      } else if SaysTheKey(d, q, pk, sk) {
        hide SaysTheKey, KeyedTable, QueryMayAnswer, GetAnswer, ReadsDemands, AllPlain;
        forall table, a | KeyedTable(q.meta, chosen, table) && QueryMayAnswer(q.meta, sem, chosen, r, table, a) ensures a == GetAnswer(q.meta, table, pk, sk) {
          SayingAgrees(d, q, chosen, r.value, sem, pk, sk, table, a);
        }
      } else {
        hide SaysTheKey, ReadsDemands, AllPlain, AgreeEverywhere;
        Disagreeing(d, q, chosen, r.value, sem, pk, sk);
      }
    }
  }

  // ----- the failing cases

  function KeyOnly(name: string): Metadata {
    Metadata(name, "", [], map[])
  }

  function Equality(field: string, op: string, v: AV): Condition {
    Condition(field, op, Arg(true, Some(v), None))
  }

  lemma DivergesAt(d: Dialect, q: Query, p: Plan, chosen: Option<IndexSchema>, end: Draft, r: Option<Compiled>, parts: set<string>, sem: Semantics, pk: Arg, at: nat)
    requires KeyQuery(d, q, p, chosen, end, r, parts, sem) && Extracted(q, pk, None) && AllPlain(d, q) && pk.whole.Some?
    requires at < |q.conditions| && !SaysPartition(q.meta, q.conditions[at], pk)
    ensures r.Some? && exists table :: && KeyedTable(q.meta, chosen, table) && QueryMayAnswer(q.meta, sem, chosen, r, table, Answer(None))
                                       && GetAnswer(q.meta, table, pk, None) != Answer(None)
  {
    CompilesIffPlain(d, q, p, chosen, end, r);
    hide CompilesTo, EqualityIsExact, NoVariants, Uses, Requests, LastOn, Usable;
    KeyQueryReads(d, q, p, chosen, end, r.value, parts, sem);
    hide ReadsDemands, KeyedTable, QueryMayAnswer, GetAnswer, SaysPartition;
    var table := ForeignCondition(d, q, chosen, r.value, sem, pk, None, at);
  }

  /** Two equalities on the partition key: GetItem is called with the last value and returns
      its item, while the compiled Query demands both and returns nothing. */
  lemma RepeatedKeyDiverges(d: Dialect, p: Plan, chosen: Option<IndexSchema>, end: Draft, r: Option<Compiled>, parts: set<string>, sem: Semantics, v: AV, w: AV)
    requires v != w && d.valid("pk")
    requires KeyQuery(d, Query(KeyOnly("pk"), [Equality("pk", "=", v), Equality("pk", "=", w)], "", []), p, chosen, end, r, parts, sem)
    ensures var q := Query(KeyOnly("pk"), [Equality("pk", "=", v), Equality("pk", "=", w)], "", []);
            var pk := Arg(true, Some(w), None);
            && Extracted(q, pk, None) && r.Some?
            && exists table :: && KeyedTable(q.meta, chosen, table) && QueryMayAnswer(q.meta, sem, chosen, r, table, Answer(None))
                               && GetAnswer(q.meta, table, pk, None) != Answer(None)
  {
    var q := Query(KeyOnly("pk"), [Equality("pk", "=", v), Equality("pk", "=", w)], "", []);
    hide KeyQuery, KeyedTable, QueryMayAnswer, GetAnswer;
    KeyOnlyExtracts(q);
    hide Extracted;
    assert AllPlain(d, q) && !SaysPartition(q.meta, q.conditions[0], Arg(true, Some(w), None));
    DivergesAt(d, q, p, chosen, end, r, parts, sem, Arg(true, Some(w), None), 0);
  }

  /** A key condition under a case variant of the attribute's name: GetItem reads the key,
      while the compiled Query asks for another attribute. */
  lemma CaseVariantKeyDiverges(d: Dialect, p: Plan, chosen: Option<IndexSchema>, end: Draft, r: Option<Compiled>, parts: set<string>, sem: Semantics, v: AV)
    requires d.valid("PK")
    requires KeyQuery(d, Query(KeyOnly("pk"), [Equality("PK", "=", v)], "", []), p, chosen, end, r, parts, sem)
    ensures var q := Query(KeyOnly("pk"), [Equality("PK", "=", v)], "", []);
            var pk := Arg(true, Some(v), None);
            && Extracted(q, pk, None) && r.Some?
            && exists table :: && KeyedTable(q.meta, chosen, table) && QueryMayAnswer(q.meta, sem, chosen, r, table, Answer(None))
                               && GetAnswer(q.meta, table, pk, None) != Answer(None)
  {
    var q := Query(KeyOnly("pk"), [Equality("PK", "=", v)], "", []);
    hide KeyQuery, KeyedTable, QueryMayAnswer, GetAnswer;
    KeyOnlyExtracts(q);
    hide Extracted;
    assert AllPlain(d, q) && !SaysPartition(q.meta, q.conditions[0], Arg(true, Some(v), None));
    DivergesAt(d, q, p, chosen, end, r, parts, sem, Arg(true, Some(v), None), 0);
  }

  /** An operator with a space around it: GetItem trims it and answers, the Query fails. */
  lemma SpacedOperatorDiverges(d: Dialect, p: Plan, chosen: Option<IndexSchema>, end: Draft, r: Option<Compiled>, v: AV, table: seq<Item>)
    requires CompilesTo(d, Query(KeyOnly("pk"), [Equality("pk", " =", v)], "", []), Empty(), p, chosen, end, r)
    ensures var q := Query(KeyOnly("pk"), [Equality("pk", " =", v)], "", []);
            Extracted(q, Arg(true, Some(v), None), None) && r.None? && GetAnswer(q.meta, table, Arg(true, Some(v), None), None) != Failed
  {
    var q := Query(KeyOnly("pk"), [Equality("pk", " =", v)], "", []);
    KeyOnlyExtracts(q);
    assert !PlainEquality(d, q.meta, q.conditions[0]);
    hide CompilesTo, Usable, LastOn;
    CompilesIffPlain(d, q, p, chosen, end, r);
  }

  lemma KeyOnlyExtracts(q: Query)
    requires q.meta == KeyOnly("pk") && |q.conditions| > 0
    requires forall i :: 0 <= i < |q.conditions| ==> q.conditions[i].field in {"pk", "PK"} && q.conditions[i].op in {"=", " ="}
    ensures Extracted(q, q.conditions[|q.conditions| - 1].arg, None)
  {
    UpperPk();
    assert Trim("=") == "=" && Trim(" =") == "=" by { assert " ="[1..] == "="; }
    hide Upper, Trim;
    forall i | 0 <= i < |q.conditions| ensures Usable(q.meta, q.conditions[i]) && OnTablePartition(q.meta, q.conditions[i]) {
    }
    NoSortKey(q.meta, q.conditions);
  }

  lemma UpperPk()
    ensures Upper("pk") == "PK" && Upper("PK") == "PK"
  {
    var s := Upper("pk");
    assert s[0] == 'P' && s[1] == 'K';
  }

  ghost predicate ExistenceIsExact(sem: Semantics) {
    forall a: Option<AV>, args: seq<AV> :: sem(Exists, a, args) <==> a.Some?
  }

  function Present(field: string): Condition {
    Condition(field, "EXISTS", Arg(true, None, None))
  }

  lemma PresentAsked(d: Dialect, field: string)
    requires d.valid(field)
    ensures Wanted(d, field, "EXISTS", Arg(true, None, None)) == Some(Says(Split(field), Exists, []))
  {
    var u := Upper("EXISTS");
    assert u == "EXISTS" && Trim("EXISTS") == "EXISTS";
  }

  /** The failing case: OrFilter makes a Where condition optional.  With filters `x exists OR
      y exists` and a Where `z exists`, the query that Compile builds from what those calls
      leave matches an item that has only x, although it does not meet the Where. */
  lemma WhereAfterOrIsOptional(valid: string -> bool, sem: Semantics) returns (start: Draft, p: Plan, end: Draft)
    requires valid("x") && valid("y") && valid("z") && ExistenceIsExact(sem)
    ensures var d := Dialect({}, valid);
            var q := Query(KeyOnly("pk"), [Present("z")], "", []);
            var c := Compiled(p, end.env, end.keys, end.filters, end.filterOps, end.projections);
            var item: Item := map[["x"] := NULL];
            && Run(d, Empty(), OrCalls(), start)
            && CompilesTo(d, q, start, p, None, end, Some(c)) && Said(start, Filters).Some?
            && Matches(sem, item, c) && !Intended(d, sem, item, q, Said(start, Filters).value, start.filterOps)
  {
    hide Run, Requests, Uses, Ready, PlanFor, Takes, AllTaken, EvalAll, Matches, EvalChain, MeetsAll, NoVariants, BeforeLastOr, Said, NormalizedSeq;
    var d := Dialect({}, valid);
    var q := Query(KeyOnly("pk"), [Present("z")], "", []);
    var item: Item := map[["x"] := NULL];
    var parts := {"x", "y", "z"};
    p := Plan(false, "", [], [Present("z")]);
    start := OrFilters(d, parts);
    ScanOfPresent(q, p);
    PresentRequest(d, q, p, parts);
    end := TakenRun(d, start, Requests(q, p));
    OnlyX(d, sem, p);
    assert CompilesTo(d, q, start, p, None, end, Some(Compiled(p, end.env, end.keys, end.filters, end.filterOps, end.projections)));
    PlanIsPlanned(q, p);
    hide CompilesTo;
    CompilationPreservesMeaning(d, q, start, p, end, parts, sem, item);
  }

  lemma PlanIsPlanned(q: Query, p: Plan)
    requires PlanFor(q, p, None)
    ensures Planned(q, p)
  {
  }

  lemma PresentRequest(d: Dialect, q: Query, p: Plan, parts: set<string>)
    requires q == Query(KeyOnly("pk"), [Present("z")], "", []) && p == Plan(false, "", [], [Present("z")]) && d.valid("z") && "z" in parts
    ensures AllTaken(d, Requests(q, p)) && Uses(d, Requests(q, p), parts) && Takes(d, p.keys) && Takes(d, p.filters)
  {
    SplitPlain("z");
    PresentAsked(d, "z");
    hide Wanted;
    assert Requests(q, p) == [AddFilter(And, "z", "EXISTS", Arg(true, None, None))];
  }

  /** An item with x alone: it passes before the OR, and misses the Where. */
  lemma OnlyX(d: Dialect, sem: Semantics, p: Plan)
    requires ExistenceIsExact(sem) && d.valid("z") && p == Plan(false, "", [], [Present("z")])
    ensures var item: Item := map[["x"] := NULL];
            var vs := EvalAll(sem, item, [Says(["x"], Exists, []), Says(["y"], Exists, [])]);
            && BeforeLastOr(vs[0], [Or], vs[1..]) && MeetsAll(d, sem, item, p.keys) && !MeetsAll(d, sem, item, p.filters)
  {
    var item: Item := map[["x"] := NULL];
    var x, y := Says(["x"], Exists, []), Says(["y"], Exists, []);
    var vs := EvalAll(sem, item, [x, y]);
    SplitPlain("z");
    PresentAsked(d, "z");
    hide Wanted, Split;
    assert ["y"] != ["x"] && ["z"] != ["x"] by { assert ["y"][0] == "y" && ["z"][0] == "z" && "y"[0] == 'y' && "z"[0] == 'z' && "x"[0] == 'x'; }
    assert vs[0] == Eval(sem, item, x) == true && vs[1] == Eval(sem, item, y) == false && vs[1..] == [false];
    assert BeforeLastOr(true, [Or], [false]);
    assert Present("z") in p.filters && !Meets(d, sem, item, Present("z"));
  }

  lemma ScanOfPresent(q: Query, p: Plan)
    requires q == Query(KeyOnly("pk"), [Present("z")], "", []) && p == Plan(false, "", [], [Present("z")])
    ensures PlanFor(q, p, None) && NormalizedSeq(q.meta, q.conditions) == [Present("z")]
  {
    var none := (c: Condition) => false;
    assert q.conditions[1..] == [];
    assert NormalizedSeq(q.meta, []) == [];
    assert NormalizedSeq(q.meta, q.conditions) == [Present("z")];
    NothingSelected(q.meta, q.conditions, none);
    assert SplitBy(q, p, none);
    var u, v := Upper("EXISTS"), Upper("eq");
    assert |u| == 6 && |v| == 2;
    var r := Required("", "", "");
    assert Analyzed(ScoredAll(q), r) && Optimal(AllIndexes(q.meta), r, None);
    assert PlannedBy(q, p, None, r);
  }

  /** Filter(x exists).OrFilter(y exists) */
  function OrCalls(): seq<Request> {
    [AddFilter(And, "x", "EXISTS", Arg(true, None, None)), AddFilter(Or, "y", "EXISTS", Arg(true, None, None))]
  }

  /** What these calls leave on a new query. */
  lemma OrFilters(d: Dialect, parts: set<string>) returns (start: Draft)
    requires d.reserved == {} && d.valid("x") && d.valid("y") && "x" in parts && "y" in parts
    ensures Run(d, Empty(), OrCalls(), start)
    ensures NoVariants(d, parts) && Ready(d, start, parts) && start.filterOps == [Or] && |start.filters| == 2
    ensures Said(start, Filters) == Some([Says(["x"], Exists, []), Says(["y"], Exists, [])])
  {
    hide Asked, Uses, NoVariants, Empty, AllAsked, Run, Ready, Said, Wanted, DecodeAll;
    var qs := OrCalls();
    OrFiltersAsk(d, parts);
    assert qs == [qs[0], qs[1]] && qs[1].logic == Or && forall i :: 0 <= i < |qs| ==> qs[i].AddFilter?;
    hide OrCalls;
    start := TwoFilters(d, qs[0], qs[1]);
    FiltersLeaveReady(d, qs, start, parts);
  }

  lemma TwoFilters(d: Dialect, fx: Request, fy: Request) returns (start: Draft)
    requires fx.AddFilter? && fy.AddFilter? && Asked(d, fx).Some? && Asked(d, fy).Some?
    ensures Run(d, Empty(), [fx, fy], start) && start.filterOps == [fy.logic] && |start.filters| == 2
  {
    assert Empty().filters == [] && Empty().filterOps == [];
    hide Asked, Stepped, Empty;
    var m := TakenStep(d, Empty(), fx);
    start := TakenStep(d, m, fy);
    RunTwo(d, Empty(), fx, m, fy, start);
    hide Run;
    OneMoreFilter(d, Empty(), fx, m);
    OneMoreFilter(d, m, fy, start);
  }

  lemma RunTwo(d: Dialect, b: Draft, q: Request, m: Draft, q': Request, b': Draft)
    requires Stepped(d, b, q, m) && Stepped(d, m, q', b')
    ensures Run(d, b, [q, q'], b')
  {
    hide Stepped;
    assert [] + [q] == [q] && [q] + [q'] == [q, q'];
    assert Run(d, b, [], b);
    RunAppend(d, b, [], b, q, m);
    RunAppend(d, b, [q], m, q', b');
  }

  lemma OrFiltersAsk(d: Dialect, parts: set<string>)
    requires d.reserved == {} && d.valid("x") && d.valid("y") && "x" in parts && "y" in parts
    ensures var qs := OrCalls();
            && Asked(d, qs[0]).Some? && Asked(d, qs[1]).Some? && Uses(d, qs, parts) && NoVariants(d, parts)
            && AllAsked(d, qs, Filters) == [Says(["x"], Exists, []), Says(["y"], Exists, [])]
  {
    var fx, fy := AddFilter(And, "x", "EXISTS", Arg(true, None, None)), AddFilter(Or, "y", "EXISTS", Arg(true, None, None));
    SplitPlain("x");
    SplitPlain("y");
    PresentAsked(d, "x");
    PresentAsked(d, "y");
    hide Wanted;
    var qs := [fx, fy];
    assert qs[1..] == [fy] && [fy][1..] == [];
    var none: seq<Request> := [];
    assert AllAsked(d, none, Filters) == [];
    assert AllAsked(d, [fy], Filters) == [Says(["y"], Exists, [])] + [];
  }

  lemma OneMoreFilter(d: Dialect, b: Draft, q: Request, m: Draft)
    requires Stepped(d, b, q, m) && q.AddFilter? && Asked(d, q).Some?
    ensures |m.filters| == |b.filters| + 1 && m.filterOps == if b.filters == [] then b.filterOps else b.filterOps + [q.logic]
  {
    var e, r :| Built(d, b.env, q.field, Asked(d, q), e, r) && m == Put(b, e, q, r);
  }
}
