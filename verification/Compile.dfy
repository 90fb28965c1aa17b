/** The query compiler of pkg/query and the index selector of pkg/index: choosing an
    index, splitting the Where conditions into key and filter, and building both. */
module Compile {
  import opened Wrappers
  import opened Expressions
  import opened Builder

  datatype Condition = Condition(field: string, op: string, arg: Arg)

  datatype AttrMeta = AttrMeta(name: string, dbName: string)

  datatype IndexSchema = IndexSchema(name: string, kind: string, partitionKey: string, sortKey: string, projection: string)

  /** attr is AttributeMetadata: by Go field name or by attribute name. */
  datatype Metadata = Metadata(partitionKey: string, sortKey: string, indexes: seq<IndexSchema>, attr: map<string, AttrMeta>)

  datatype Query = Query(meta: Metadata, conditions: seq<Condition>, index: string, projection: seq<string>)

  // ----- names

  predicate EqualFold(a: string, b: string) {
    Upper(a) == Upper(b)
  }

  function ResolveAttr(m: Metadata, field: string): string {
    if field != "" && field in m.attr
    then if m.attr[field].dbName != "" then m.attr[field].dbName
         else if m.attr[field].name != "" then m.attr[field].name else field
    else field
  }

  function ResolveGo(m: Metadata, field: string): string {
    if field != "" && field in m.attr && m.attr[field].name != "" then m.attr[field].name else field
  }

  /** normalizeCondition's three results: Go name, attribute name and normalized condition. */
  function GoField(m: Metadata, c: Condition): string {
    if c.field in m.attr then m.attr[c.field].name else c.field
  }

  function AttrName(m: Metadata, c: Condition): string {
    if c.field in m.attr
    then if m.attr[c.field].dbName != "" then m.attr[c.field].dbName else m.attr[c.field].name
    else c.field
  }

  function Normalized(m: Metadata, c: Condition): Condition {
    c.(field := AttrName(m, c))
  }

  function ResolvedNames(m: Metadata, goField: string, attrName: string): (string, string) {
    if goField in m.attr then
      var a := m.attr[goField];
      var go := if a.name != "" then a.name else goField;
      (go, if a.dbName != "" then a.dbName else if attrName == "" then go else attrName)
    else if attrName in m.attr then
      var a := m.attr[attrName];
      (if a.name != "" then a.name else goField, if a.dbName != "" then a.dbName else attrName)
    else (goField, attrName)
  }

  // names, as a reader of the metadata sees them

  /** The same characters, letter case aside. */
  predicate AnyCase(a: string, b: string) {
    |a| == |b| && forall i :: 0 <= i < |a| ==> SameLetter(a[i], b[i])
  }

  predicate SameLetter(c: char, e: char) {
    c == e || ('a' <= c <= 'z' && c as int == e as int + 32) || ('A' <= c <= 'Z' && c as int + 32 == e as int)
  }

  lemma FoldsIff(a: string, b: string)
    ensures EqualFold(a, b) <==> AnyCase(a, b)
  {
    var u, v := Upper(a), Upper(b);
    if AnyCase(a, b) {
      forall i | 0 <= i < |a| ensures u[i] == v[i] { assert SameLetter(a[i], b[i]); }
    }
    if u == v {
      forall i | 0 <= i < |a| ensures SameLetter(a[i], b[i]) { assert u[i] == v[i]; }
    }
  }

  /** The name a condition's field goes by in Go, and the name of the attribute it is stored in. */
  predicate GoesBy(m: Metadata, field: string, go: string, attr: string) {
    if field in m.attr
    then go == m.attr[field].name && attr == (if m.attr[field].dbName == "" then go else m.attr[field].dbName)
    else go == field && attr == field
  }

  /** The attribute a key of the schema is stored in. */
  predicate KeyStoredIn(m: Metadata, key: string, attr: string) {
    if key in m.attr && key != "" && m.attr[key].dbName != "" then attr == m.attr[key].dbName
    else if key in m.attr && key != "" && m.attr[key].name != "" then attr == m.attr[key].name
    else attr == key
  }

  /** The field names the key, by its Go name or by its attribute, in any case. */
  ghost predicate NamesKey(m: Metadata, field: string, key: string) {
    key != "" && forall go, attr, keyAttr :: GoesBy(m, field, go, attr) && KeyStoredIn(m, key, keyAttr) ==> AnyCase(go, key) || AnyCase(attr, keyAttr)
  }

  lemma NamesKeyIff(m: Metadata, c: Condition, key: string)
    ensures GoesBy(m, c.field, GoField(m, c), AttrName(m, c)) && KeyStoredIn(m, key, ResolveAttr(m, key))
    ensures NamesKey(m, c.field, key) <==> key != "" && (EqualFold(GoField(m, c), key) || EqualFold(AttrName(m, c), ResolveAttr(m, key)))
  {
    FoldsIff(GoField(m, c), key);
    FoldsIff(AttrName(m, c), ResolveAttr(m, key));
    hide EqualFold, AnyCase;
  }

  /** The same comparison on the attribute the field is stored in. */
  ghost predicate StandsFor(m: Metadata, c: Condition, stored: Condition) {
    stored.op == c.op && stored.arg == c.arg && exists go :: GoesBy(m, c.field, go, stored.field)
  }

  lemma StandsForNormalized(m: Metadata, c: Condition, stored: Condition)
    ensures StandsFor(m, c, stored) <==> stored == Normalized(m, c)
  {
    NamesKeyIff(m, c, "");
  }

  datatype KeyNames = KeyNames(pkGo: string, pkAttr: string, skGo: string, skAttr: string) {
    predicate IsPartitionKey(go: string, attr: string) {
      pkGo != "" && (EqualFold(go, pkGo) || EqualFold(attr, pkAttr))
    }

    predicate IsSortKey(go: string, attr: string) {
      skGo != "" && (EqualFold(go, skGo) || EqualFold(attr, skAttr))
    }

    predicate IsKey(go: string, attr: string) {
      IsPartitionKey(go, attr) || IsSortKey(go, attr)
    }
  }

  function OrElse(s: string, t: string): string {
    if s == "" then t else s
  }

  /** An index without a sort key borrows the table's. */
  function KeyNamesFor(m: Metadata, idx: Option<IndexSchema>): KeyNames {
    var pk := m.partitionKey;
    var sk := m.sortKey;
    if idx.None? || idx.value.name == ""
    then KeyNames(ResolveGo(m, pk), ResolveAttr(m, pk), ResolveGo(m, sk), ResolveAttr(m, sk))
    else KeyNames(OrElse(ResolveGo(m, idx.value.partitionKey), ResolveGo(m, pk)),
                  OrElse(ResolveAttr(m, idx.value.partitionKey), ResolveAttr(m, pk)),
                  OrElse(ResolveGo(m, idx.value.sortKey), ResolveGo(m, sk)),
                  OrElse(ResolveAttr(m, idx.value.sortKey), ResolveAttr(m, sk)))
  }

  // ----- splitting the conditions

  predicate OnKey(m: Metadata, keys: KeyNames, c: Condition) {
    var (go, attr) := ResolvedNames(m, GoField(m, c), AttrName(m, c));
    keys.IsKey(go, attr)
  }

  /** With an explicit index only operators a key condition allows go to the key. */
  predicate OnKeyAllowed(m: Metadata, keys: KeyNames, c: Condition) {
    var (go, attr) := ResolvedNames(m, GoField(m, c), AttrName(m, c));
    var op := Upper(Trim(c.op));
    && keys.IsKey(go, attr)
    && if keys.IsPartitionKey(go, attr) then op == "="
       else op in {"=", "<", "<=", ">", ">=", "BETWEEN", "BEGINS_WITH"}
  }

  function Select(m: Metadata, cs: seq<Condition>, p: Condition -> bool, want: bool): seq<Condition> {
    if cs == [] then []
    else (if p(cs[0]) == want then [Normalized(m, cs[0])] else []) + Select(m, cs[1..], p, want)
  }

  lemma {:induction false} SelectAppend(m: Metadata, cs: seq<Condition>, c: Condition, p: Condition -> bool, want: bool)
    ensures Select(m, cs + [c], p, want) == Select(m, cs, p, want) + if p(c) == want then [Normalized(m, c)] else []
    decreases |cs|
  {
    if cs == [] {
      assert cs + [c] == [c] && [c][1..] == [];
    } else {
      assert (cs + [c])[1..] == cs[1..] + [c];
      SelectAppend(m, cs[1..], c, p, want);
    }
  }

  lemma {:induction false} SelectMembers(m: Metadata, cs: seq<Condition>, p: Condition -> bool, want: bool, c: Condition)
    ensures c in Select(m, cs, p, want) <==> exists i :: 0 <= i < |cs| && p(cs[i]) == want && c == Normalized(m, cs[i])
    decreases |cs|
  {
    if cs != [] {
      SelectMembers(m, cs[1..], p, want, c);
      if c in Select(m, cs[1..], p, want) {
        var i :| 0 <= i < |cs[1..]| && p(cs[1..][i]) == want && c == Normalized(m, cs[1..][i]);
        assert cs[i + 1] == cs[1..][i];
      }
      if i :| 0 <= i < |cs| && p(cs[i]) == want && c == Normalized(m, cs[i]) {
        if i > 0 { assert cs[1..][i - 1] == cs[i]; }
      }
    }
  }

  method SplitConditions(m: Metadata, cs: seq<Condition>, p: Condition -> bool) returns (ks: seq<Condition>, fs: seq<Condition>)
    ensures ks == Select(m, cs, p, true) && fs == Select(m, cs, p, false)
  {
    ks, fs := [], [];
    for i := 0 to |cs|
      invariant ks == Select(m, cs[..i], p, true) && fs == Select(m, cs[..i], p, false)
    {
      assert cs[..i + 1] == cs[..i] + [cs[i]];
      SelectAppend(m, cs[..i], cs[i], p, true);
      SelectAppend(m, cs[..i], cs[i], p, false);
      if p(cs[i]) {
        ks := ks + [Normalized(m, cs[i])];
      } else {
        fs := fs + [Normalized(m, cs[i])];
      }
    }
    assert cs[..|cs|] == cs;
  }

  // ----- choosing an index

  datatype Required = Required(partitionKey: string, sortKey: string, sortOp: string)

  datatype Scored = Scored(field: string, op: string)

  predicate IsEquality(op: string) {
    op == "=" || EqualFold(op, "eq")
  }

  function LowerChar(c: char): char {
    if 'A' <= c <= 'Z' then c - 'A' + 'a' else c
  }

  function NormalizeOperator(op: string): string {
    var u := Upper(op);
    if u == "EQ" || u == "=" then "="
    else if u == "LT" || u == "<" then "<"
    else if u == "LE" || u == "<=" then "<="
    else if u == "GT" || u == ">" then ">"
    else if u == "GE" || u == ">=" then ">="
    else if u == "BEGINS_WITH" then "begins_with"
    else if u == "BETWEEN" then "between"
    else seq(|op|, i requires 0 <= i < |op| => LowerChar(op[i]))
  }

  /** The first equality on a named field. */
  predicate FirstEquality(cs: seq<Scored>, i: int) {
    && 0 <= i < |cs| && IsEquality(cs[i].op) && cs[i].field != ""
    && forall j :: 0 <= j < i && IsEquality(cs[j].op) ==> cs[j].field == ""
  }

  /** The first other named field from position `from` on. */
  predicate FirstOther(cs: seq<Scored>, from: int, pk: string, i: int) {
    0 <= from <= i < |cs| && cs[i].field != pk && cs[i].field != "" && forall j :: from <= j < i ==> cs[j].field == pk || cs[j].field == ""
  }

  /** The first condition before position `to` on another field, named or not. */
  predicate FirstBefore(cs: seq<Scored>, to: int, pk: string, i: int) {
    0 <= i < to <= |cs| && cs[i].field != pk && forall j :: 0 <= j < i ==> cs[j].field == pk
  }

  predicate Sorts(r: Required, c: Scored) {
    r.sortKey == c.field && (r.sortKey != "" ==> r.sortOp == NormalizeOperator(c.op))
  }

  /** What AnalyzeConditions finds: the partition key of the first equality on a named field,
      and the sort key of the first other named field after it; failing that, of the first
      condition before it. */
  ghost predicate Analyzed(cs: seq<Scored>, r: Required) {
    || (r == Required("", "", "") && forall i :: 0 <= i < |cs| && IsEquality(cs[i].op) ==> cs[i].field == "")
    || exists at :: FirstEquality(cs, at) && r.partitionKey == cs[at].field && SortFound(cs, at, r)
  }

  ghost predicate SortFound(cs: seq<Scored>, at: int, r: Required)
    requires FirstEquality(cs, at)
  {
    var pk := cs[at].field;
    && (forall i :: FirstOther(cs, at, pk, i) ==> Sorts(r, cs[i]))
    && ((forall i :: !FirstOther(cs, at, pk, i)) ==>
         && (forall i :: FirstBefore(cs, at, pk, i) ==> Sorts(r, cs[i]))
         && ((forall i :: !FirstBefore(cs, at, pk, i)) ==> r.sortKey == ""))
  }

  method AnalyzeConditions(cs: seq<Scored>) returns (r: Required)
    ensures Analyzed(cs, r)
  {
    r := Required("", "", "");
    var pending: seq<Scored> := [];
    ghost var at, sort := 0, 0;
    hide NormalizeOperator;
    for i := 0 to |cs|
      invariant r.partitionKey == "" ==> pending == cs[..i] && r == Required("", "", "") && forall j :: 0 <= j < i && IsEquality(cs[j].op) ==> cs[j].field == ""
      invariant r.partitionKey != "" ==> at < i && FirstEquality(cs, at) && r.partitionKey == cs[at].field && pending == cs[..at]
      invariant r.sortKey != "" ==> r.partitionKey != "" && sort < i && FirstOther(cs, at, r.partitionKey, sort) && Sorts(r, cs[sort])
      invariant r.partitionKey != "" && r.sortKey == "" ==> forall j :: at <= j < i ==> cs[j].field == r.partitionKey || cs[j].field == ""
    {
      assert cs[..i + 1] == cs[..i] + [cs[i]];
      if IsEquality(cs[i].op) && r.partitionKey == "" {
        r := r.(partitionKey := cs[i].field);
        at := i;
      }
      if r.partitionKey == "" {
        pending := pending + [cs[i]];
        continue;
      }
      if r.sortKey == "" && cs[i].field != r.partitionKey {
        r := r.(sortKey := cs[i].field, sortOp := NormalizeOperator(cs[i].op));
        sort := i;
      }
    }
    if r.partitionKey == "" {
      return;
    }
    if r.sortKey != "" {
      assert forall i :: FirstOther(cs, at, r.partitionKey, i) ==> i == sort;
      return;
    }
    assert forall i :: !FirstOther(cs, at, r.partitionKey, i);
    for i := 0 to |pending|
      invariant r.partitionKey == cs[at].field && r.sortKey == ""
      invariant forall j :: 0 <= j < i ==> cs[j].field == r.partitionKey
    {
      assert pending[i] == cs[i];
      if pending[i].field == r.partitionKey {
        continue;
      }
      r := r.(sortKey := pending[i].field, sortOp := NormalizeOperator(pending[i].op));
      assert forall j :: FirstBefore(cs, at, r.partitionKey, j) ==> j == i;
      assert FirstBefore(cs, at, r.partitionKey, i);
      return;
    }
  }

  function Score(idx: IndexSchema, r: Required): nat {
    if idx.partitionKey != r.partitionKey then 0 else
      100
      + (if r.sortKey != "" && idx.sortKey == r.sortKey then
           if r.sortOp == "=" then 50
           else if r.sortOp == "begins_with" then 40
           else if r.sortOp in {"between", "<", "<=", ">", ">="} then 30 else 0
         else 0)
      + (if idx.kind == "GSI" then 10 else 0)
      + (if idx.projection == "ALL" then 5 else 0)
  }

  /** The first of the best-scoring indexes; none unless some index has the partition key. */
  ghost predicate Optimal(indexes: seq<IndexSchema>, r: Required, best: Option<IndexSchema>) {
    && (best.None? <==> r.partitionKey == "" || forall i :: 0 <= i < |indexes| ==> indexes[i].partitionKey != r.partitionKey)
    && (best.Some? ==>
          && best.value.partitionKey == r.partitionKey
          && exists i :: && 0 <= i < |indexes| && indexes[i] == best.value
                         && (forall j :: 0 <= j < |indexes| ==> Score(indexes[j], r) <= Score(best.value, r))
                         && (forall j :: 0 <= j < i ==> Score(indexes[j], r) < Score(best.value, r)))
  }

  method SelectOptimal(indexes: seq<IndexSchema>, r: Required) returns (best: Option<IndexSchema>)
    ensures Optimal(indexes, r, best)
  {
    best := None;
    if r.partitionKey == "" {
      return;
    }
    var bestScore := 0;
    ghost var at := 0;
    for i := 0 to |indexes|
      invariant best.None? ==> bestScore == 0
      invariant best.Some? ==> 0 <= at < i && indexes[at] == best.value && bestScore == Score(best.value, r) > 0
      invariant forall j :: 0 <= j < i ==> Score(indexes[j], r) <= bestScore
      invariant best.Some? ==> forall j :: 0 <= j < at ==> Score(indexes[j], r) < bestScore
    {
      var score := Score(indexes[i], r);
      if score > bestScore {
        bestScore, best := score, Some(indexes[i]);
        at := i;
      }
    }
  }

  function IndexField(m: Metadata, c: Condition): string {
    OrElse(OrElse(GoField(m, c), AttrName(m, c)), Normalized(m, c).field)
  }

  function AllIndexes(m: Metadata): seq<IndexSchema> {
    [IndexSchema("", "PRIMARY", m.partitionKey, m.sortKey, "")] + m.indexes
  }

  function ScoredAll(q: Query): (r: seq<Scored>)
    ensures |r| == |q.conditions|
    ensures forall i :: 0 <= i < |r| ==> r[i] == Scored(IndexField(q.meta, q.conditions[i]), q.conditions[i].op)
  {
    seq(|q.conditions|, i requires 0 <= i < |q.conditions| => Scored(IndexField(q.meta, q.conditions[i]), q.conditions[i].op))
  }

  /** The best index for what the conditions fix, and what they fix. */
  method SelectBestIndex(q: Query) returns (best: Option<IndexSchema>, r: Required)
    ensures Analyzed(ScoredAll(q), r) && Optimal(AllIndexes(q.meta), r, best)
  {
    r := AnalyzeConditions(ScoredAll(q));
    best := SelectOptimal(AllIndexes(q.meta), r);
  }

  /** A chosen index has as partition key the name of a field some condition compares for equality. */
  lemma ChosenHasEquality(q: Query, best: IndexSchema, r: Required)
    requires Analyzed(ScoredAll(q), r) && Optimal(AllIndexes(q.meta), r, Some(best))
    ensures best in AllIndexes(q.meta) && best.partitionKey != ""
    ensures exists i :: 0 <= i < |q.conditions| && IsEquality(q.conditions[i].op) && IndexField(q.meta, q.conditions[i]) == best.partitionKey
  {
    var cs := ScoredAll(q);
    var at :| FirstEquality(cs, at) && r.partitionKey == cs[at].field;
    assert IsEquality(q.conditions[at].op);
  }

  // ----- compiling

  datatype Plan = Plan(isQuery: bool, index: string, keys: seq<Condition>, filters: seq<Condition>)

  /** Where the conditions go: all of them, each once, in order. */
  ghost predicate Planned(q: Query, p: Plan) {
    exists onKey: Condition -> bool :: SplitBy(q, p, onKey)
  }

  /** The key conditions compare the index's own partition attribute for equality. */
  predicate FixesPartition(m: Metadata, idx: IndexSchema, keys: seq<Condition>) {
    exists i :: 0 <= i < |keys| && IsEquality(keys[i].op) && keys[i].field == ResolveAttr(m, idx.partitionKey)
  }

  function FindIndex(m: Metadata, name: string): Option<IndexSchema> {
    FindIn(m.indexes, name)
  }

  function FindIn(idxs: seq<IndexSchema>, name: string): Option<IndexSchema> {
    if idxs == [] then None else if idxs[0].name == name then Some(idxs[0]) else FindIn(idxs[1..], name)
  }

  function ExplicitTest(q: Query): Condition -> bool {
    c => OnKeyAllowed(q.meta, KeyNamesFor(q.meta, FindIndex(q.meta, q.index)), c)
  }

  function AutoTest(m: Metadata, idx: IndexSchema): Condition -> bool {
    c => OnKey(m, KeyNamesFor(m, Some(idx)), c)
  }

  ghost predicate SplitBy(q: Query, p: Plan, onKey: Condition -> bool) {
    p.keys == Select(q.meta, q.conditions, onKey, true) && p.filters == Select(q.meta, q.conditions, onKey, false)
  }

  /** With an explicit index: a Query exactly when a key condition names the partition
      attribute, split by the operators a key condition allows. */
  ghost predicate PlannedExplicitly(q: Query, p: Plan) {
    var keys := Select(q.meta, q.conditions, ExplicitTest(q), true);
    && (p.isQuery <==> exists i :: 0 <= i < |keys| && EqualFold(keys[i].field, KeyNamesFor(q.meta, FindIndex(q.meta, q.index)).pkAttr))
    && (p.isQuery ==> SplitBy(q, p, ExplicitTest(q)))
  }

  /** Without one: a Query exactly when an index is chosen, split by its key names; on
      consistent metadata its partition attribute is then fixed by an equality. */
  ghost predicate PlannedBy(q: Query, p: Plan, chosen: Option<IndexSchema>, r: Required) {
    && Analyzed(ScoredAll(q), r) && Optimal(AllIndexes(q.meta), r, chosen)
    && (p.isQuery <==> chosen.Some?)
    && (p.isQuery ==> p.index == chosen.value.name && SplitBy(q, p, AutoTest(q.meta, chosen.value)))
    && (p.isQuery && Consistent(q.meta) ==> FixesPartition(q.meta, chosen.value, p.keys))
  }

  /** chosen is the index picked automatically, None with an explicit index or a scan; a scan
      leaves every condition to the filter. */
  ghost predicate PlanFor(q: Query, p: Plan, chosen: Option<IndexSchema>) {
    && Planned(q, p)
    && (!p.isQuery ==> p.keys == [] && p.filters == NormalizedSeq(q.meta, q.conditions))
    && (if q.index != "" then chosen.None? && p.index == q.index && PlannedExplicitly(q, p) else exists r :: PlannedBy(q, p, chosen, r))
  }

  method MakePlan(q: Query) returns (p: Plan, chosen: Option<IndexSchema>)
    ensures PlanFor(q, p, chosen)
  {
    chosen := None;
    if q.index != "" {
      var names := KeyNamesFor(q.meta, FindIndex(q.meta, q.index));
      var ks, fs := SplitConditions(q.meta, q.conditions, ExplicitTest(q));
      if exists i :: 0 <= i < |ks| && EqualFold(ks[i].field, names.pkAttr) {
        p := Plan(true, q.index, ks, fs);
        assert SplitBy(q, p, ExplicitTest(q));
        return;
      }
      p := ScanPlan(q, q.index);
      return;
    }
    var r;
    chosen, r := SelectBestIndex(q);
    hide Analyzed, Optimal, OnKey;
    if chosen.None? {
      p := ScanPlan(q, "");
      assert PlannedBy(q, p, chosen, r);
      return;
    }
    var ks, fs := SplitConditions(q.meta, q.conditions, AutoTest(q.meta, chosen.value));
    p := Plan(true, chosen.value.name, ks, fs);
    assert SplitBy(q, p, AutoTest(q.meta, chosen.value));
    if Consistent(q.meta) {
      ChosenIsFixed(q, chosen.value, r);
    }
    assert PlannedBy(q, p, chosen, r);
  }

  lemma ChosenIsFixed(q: Query, idx: IndexSchema, r: Required)
    requires Analyzed(ScoredAll(q), r) && Optimal(AllIndexes(q.meta), r, Some(idx)) && Consistent(q.meta)
    ensures FixesPartition(q.meta, idx, Select(q.meta, q.conditions, AutoTest(q.meta, idx), true))
  {
    ChosenHasEquality(q, idx, r);
    hide Analyzed, Optimal;
    var i :| 0 <= i < |q.conditions| && IsEquality(q.conditions[i].op) && IndexField(q.meta, q.conditions[i]) == idx.partitionKey;
    ChosenKeyIsFixed(q.meta, idx, q.conditions[i]);
    SelectHas(q.meta, q.conditions, AutoTest(q.meta, idx), i);
  }

  lemma {:induction false} SelectHas(m: Metadata, cs: seq<Condition>, p: Condition -> bool, i: nat)
    requires i < |cs| && p(cs[i])
    ensures Normalized(m, cs[i]) in Select(m, cs, p, true)
    decreases |cs|
  {
    if i > 0 {
      SelectHas(m, cs[1..], p, i - 1);
    }
  }

  method ScanPlan(q: Query, index: string) returns (p: Plan)
    ensures Planned(q, p) && !p.isQuery && p.keys == [] && p.filters == NormalizedSeq(q.meta, q.conditions) && p.index == index
  {
    var none := (c: Condition) => false;
    var ks, fs := SplitConditions(q.meta, q.conditions, none);
    NothingSelected(q.meta, q.conditions, none);
    p := Plan(false, index, ks, fs);
    assert SplitBy(q, p, none);
  }

  lemma NothingSelected(m: Metadata, cs: seq<Condition>, p: Condition -> bool)
    requires forall c :: !p(c)
    ensures Select(m, cs, p, true) == [] && Select(m, cs, p, false) == NormalizedSeq(m, cs)
  {
  }

  /** Metadata finds every described field again under its Go name, as both adapters do. */
  predicate Consistent(m: Metadata) {
    && (forall f :: f in m.attr ==> m.attr[f].name != "" && m.attr[f].name in m.attr && m.attr[m.attr[f].name] == m.attr[f])
    && (forall i :: 0 <= i < |m.indexes| ==> m.indexes[i].name != "")
  }

  lemma ChosenKeyIsFixed(m: Metadata, idx: IndexSchema, c: Condition)
    requires Consistent(m) && idx in AllIndexes(m) && idx.partitionKey != "" && IndexField(m, c) == idx.partitionKey
    ensures AttrName(m, c) == ResolveAttr(m, idx.partitionKey)
    ensures OnKey(m, KeyNamesFor(m, Some(idx)), c)
  {
    assert idx.name == "" ==> idx == AllIndexes(m)[0];
  }

  datatype Compiled = Compiled(plan: Plan, env: Env, key: seq<Frag>, filter: seq<Frag>, filterOps: seq<Logic>, projections: seq<Frag>)

  function Requests(q: Query, p: Plan): seq<Request> {
    KeyRequests(p.keys) + FilterRequests(p.filters) + ProjectionRequests(q.projection)
  }

  function KeyRequests(cs: seq<Condition>): (r: seq<Request>)
    ensures |r| == |cs| && forall i :: 0 <= i < |cs| ==> r[i] == AddKey(cs[i].field, cs[i].op, cs[i].arg)
  {
    seq(|cs|, i requires 0 <= i < |cs| => AddKey(cs[i].field, cs[i].op, cs[i].arg))
  }

  function FilterRequests(cs: seq<Condition>): (r: seq<Request>)
    ensures |r| == |cs| && forall i :: 0 <= i < |cs| ==> r[i] == AddFilter(And, cs[i].field, cs[i].op, cs[i].arg)
  {
    seq(|cs|, i requires 0 <= i < |cs| => AddFilter(And, cs[i].field, cs[i].op, cs[i].arg))
  }

  function ProjectionRequests(fs: seq<string>): (r: seq<Request>)
    ensures |r| == |fs| && forall i :: 0 <= i < |fs| ==> r[i] == AddProjection(fs[i])
  {
    seq(|fs|, i requires 0 <= i < |fs| => AddProjection(fs[i]))
  }

  lemma {:induction false} RunAppend(d: Dialect, b: Draft, qs: seq<Request>, m: Draft, q: Request, b': Draft)
    requires Run(d, b, qs, m) && Stepped(d, m, q, b')
    ensures Run(d, b, qs + [q], b')
    decreases |qs|
  {
    hide Stepped;
    if qs == [] {
      assert qs + [q] == [q] && [q][1..] == [];
      assert Run(d, b', [], b');
    } else {
      var n :| Stepped(d, b, qs[0], n) && Run(d, n, qs[1..], m);
      assert (qs + [q])[0] == qs[0] && (qs + [q])[1..] == qs[1..] + [q];
      RunAppend(d, n, qs[1..], m, q, b');
    }
  }

  predicate Takes(d: Dialect, cs: seq<Condition>) {
    forall i :: 0 <= i < |cs| ==> Wanted(d, cs[i].field, cs[i].op, cs[i].arg).Some?
  }

  lemma {:induction false} RunConcat(d: Dialect, b: Draft, qs: seq<Request>, m: Draft, rs: seq<Request>, b': Draft)
    requires Run(d, b, qs, m) && Run(d, m, rs, b')
    ensures Run(d, b, qs + rs, b')
    decreases |qs|
  {
    hide Stepped;
    if qs == [] {
      assert qs + rs == rs;
    } else {
      var n :| Stepped(d, b, qs[0], n) && Run(d, n, qs[1..], m);
      assert (qs + rs)[0] == qs[0] && (qs + rs)[1..] == qs[1..] + rs;
      RunConcat(d, n, qs[1..], m, rs, b');
    }
  }

  lemma RequestsSnoc(d: Dialect, cs: seq<Condition>, i: nat)
    requires i < |cs|
    ensures KeyRequests(cs[..i + 1]) == KeyRequests(cs[..i]) + [AddKey(cs[i].field, cs[i].op, cs[i].arg)]
    ensures FilterRequests(cs[..i + 1]) == FilterRequests(cs[..i]) + [AddFilter(And, cs[i].field, cs[i].op, cs[i].arg)]
    ensures Takes(d, cs[..i]) && Wanted(d, cs[i].field, cs[i].op, cs[i].arg).Some? ==> Takes(d, cs[..i + 1])
  {
    assert cs[..i + 1] == cs[..i] + [cs[i]];
  }

  lemma NotTaken(d: Dialect, cs: seq<Condition>, i: nat)
    requires i < |cs| && Wanted(d, cs[i].field, cs[i].op, cs[i].arg).None?
    ensures !Takes(d, cs)
  {
  }

  method ApplyKeys(b: Builder, cs: seq<Condition>) returns (ok: bool)
    modifies b
    ensures ok <==> Takes(b.d, cs)
    ensures ok ==> Run(b.d, old(b.State()), KeyRequests(cs), b.State())
  {
    ghost var start := b.State();
    assert Run(b.d, start, KeyRequests(cs[..0]), start) && Takes(b.d, cs[..0]);
    hide Stepped, Run, Wanted, Takes, KeyRequests, FilterRequests;
    for i := 0 to |cs|
      invariant Run(b.d, start, KeyRequests(cs[..i]), b.State()) && Takes(b.d, cs[..i])
    {
      ghost var before := b.State();
      ok := b.AddKeyCondition(cs[i].field, cs[i].op, cs[i].arg);
      if !ok {
        NotTaken(b.d, cs, i);
        return;
      }
      RunAppend(b.d, start, KeyRequests(cs[..i]), before, AddKey(cs[i].field, cs[i].op, cs[i].arg), b.State());
      RequestsSnoc(b.d, cs, i);
    }
    assert cs[..|cs|] == cs;
    return true;
  }

  method ApplyFilters(b: Builder, cs: seq<Condition>) returns (ok: bool)
    modifies b
    ensures ok <==> Takes(b.d, cs)
    ensures ok ==> Run(b.d, old(b.State()), FilterRequests(cs), b.State())
  {
    ghost var start := b.State();
    assert Run(b.d, start, FilterRequests(cs[..0]), start) && Takes(b.d, cs[..0]);
    hide Stepped, Run, Wanted, Takes, KeyRequests, FilterRequests;
    for i := 0 to |cs|
      invariant Run(b.d, start, FilterRequests(cs[..i]), b.State()) && Takes(b.d, cs[..i])
    {
      ghost var before := b.State();
      ok := b.AddFilterCondition(And, cs[i].field, cs[i].op, cs[i].arg);
      if !ok {
        NotTaken(b.d, cs, i);
        return;
      }
      RunAppend(b.d, start, FilterRequests(cs[..i]), before, AddFilter(And, cs[i].field, cs[i].op, cs[i].arg), b.State());
      RequestsSnoc(b.d, cs, i);
    }
    assert cs[..|cs|] == cs;
    return true;
  }

  lemma ProjectionSnoc(fs: seq<string>, i: nat)
    requires i < |fs|
    ensures ProjectionRequests(fs[..i + 1]) == ProjectionRequests(fs[..i]) + [AddProjection(fs[i])]
  {
    assert fs[..i + 1] == fs[..i] + [fs[i]];
  }

  method ApplyProjections(b: Builder, fs: seq<string>)
    modifies b
    ensures Run(b.d, old(b.State()), ProjectionRequests(fs), b.State())
  {
    ghost var start := b.State();
    assert Run(b.d, start, ProjectionRequests(fs[..0]), start);
    hide Stepped, Run, ProjectionRequests;
    for i := 0 to |fs|
      invariant Run(b.d, start, ProjectionRequests(fs[..i]), b.State())
    {
      ghost var before := b.State();
      b.AddProjectionField(fs[i]);
      RunAppend(b.d, start, ProjectionRequests(fs[..i]), before, AddProjection(fs[i]), b.State());
      ProjectionSnoc(fs, i);
    }
    assert fs[..|fs|] == fs;
  }

  /** Compile: on a copy of the query's filter builder (or a new one) add the key
      conditions, the remaining conditions as AND filters, then the projection.  It fails
      exactly when the builder refuses a condition. */
  ghost predicate CompilesTo(d: Dialect, q: Query, start: Draft, p: Plan, chosen: Option<IndexSchema>, end: Draft, r: Option<Compiled>) {
    && PlanFor(q, p, chosen)
    && (r.Some? <==> Takes(d, p.keys) && Takes(d, p.filters))
    && (r.Some? ==>
          && Run(d, start, Requests(q, p), end)
          && r.value == Compiled(p, end.env, end.keys, end.filters, end.filterOps, end.projections))
  }

  method CompileQuery(d: Dialect, q: Query, filters: Builder?)
    returns (r: Option<Compiled>, chosen: Option<IndexSchema>, ghost p: Plan, ghost end: Draft)
    requires filters != null ==> filters.d == d
    ensures CompilesTo(d, q, if filters == null then Empty() else filters.State(), p, chosen, end, r)
  {
    var b: Builder;
    if filters == null { b := new Builder(d); } else { b := new Builder.Clone(filters); }
    ghost var start := b.State();
    end := start;
    var plan;
    plan, chosen := MakePlan(q);
    p := plan;
    hide PlanFor, Takes, KeyRequests, FilterRequests, ProjectionRequests;
    var ok := ApplyKeys(b, plan.keys);
    if !ok { r := None; return; }
    ghost var keyed := b.State();
    ok := ApplyFilters(b, plan.filters);
    if !ok { r := None; return; }
    ghost var filtered := b.State();
    ApplyProjections(b, q.projection);
    end := b.State();
    hide Run;
    RunConcat(d, start, KeyRequests(p.keys), keyed, FilterRequests(p.filters), filtered);
    RunConcat(d, start, KeyRequests(p.keys) + FilterRequests(p.filters), filtered, ProjectionRequests(q.projection), end);
    r := Some(Compiled(plan, Env(b.names, b.values, b.nameCounter, b.valueCounter), b.keyConditions, b.filterConditions, b.filterOperators, b.projections));
  }

  // ----- what the compiled query means

  function Meanings(d: Dialect, cs: seq<Condition>): (r: seq<Meaning>)
    requires Takes(d, cs)
    ensures |r| == |cs| && forall i :: 0 <= i < |cs| ==> r[i] == Wanted(d, cs[i].field, cs[i].op, cs[i].arg).value
  {
    seq(|cs|, i requires 0 <= i < |cs| => Wanted(d, cs[i].field, cs[i].op, cs[i].arg).value)
  }

  lemma {:induction false} AskedAppend(d: Dialect, a: seq<Request>, b: seq<Request>, slot: Slot)
    ensures AllAsked(d, a + b, slot) == AllAsked(d, a, slot) + AllAsked(d, b, slot)
    decreases |a|
  {
    if a == [] {
      assert a + b == b;
    } else {
      assert (a + b)[1..] == a[1..] + b && (a + b)[0] == a[0];
      AskedAppend(d, a[1..], b, slot);
      Reassociate(Extra(d, a[0], slot), AllAsked(d, a[1..], slot), AllAsked(d, b, slot));
    }
  }

  lemma {:induction false} AskedNone(d: Dialect, qs: seq<Request>, slot: Slot)
    requires forall i :: 0 <= i < |qs| ==> SlotOf(qs[i]) != slot
    ensures AllAsked(d, qs, slot) == []
    decreases |qs|
  {
    if qs != [] {
      AskedNone(d, qs[1..], slot);
    }
  }

  lemma {:induction false} AskedConditions(d: Dialect, cs: seq<Condition>, qs: seq<Request>, slot: Slot)
    requires Takes(d, cs) && |qs| == |cs|
    requires forall i :: 0 <= i < |cs| ==> SlotOf(qs[i]) == slot && Asked(d, qs[i]) == Wanted(d, cs[i].field, cs[i].op, cs[i].arg)
    ensures AllAsked(d, qs, slot) == Meanings(d, cs)
    decreases |cs|
  {
    if cs != [] {
      hide Wanted, Asked;
      var ct, qt := cs[1..], qs[1..];
      assert forall i :: 0 <= i < |ct| ==> ct[i] == cs[i + 1] && qt[i] == qs[i + 1];
      AskedConditions(d, ct, qt, slot);
      MeaningsCons(d, cs);
    }
  }

  lemma MeaningsCons(d: Dialect, cs: seq<Condition>)
    requires cs != [] && Takes(d, cs)
    ensures Takes(d, cs[1..]) && Meanings(d, cs) == [Wanted(d, cs[0].field, cs[0].op, cs[0].arg).value] + Meanings(d, cs[1..])
  {
    hide Wanted;
    assert forall i :: 0 <= i < |cs[1..]| ==> cs[1..][i] == cs[i + 1];
  }

  lemma {:induction false} RequestsAsk(d: Dialect, q: Query, p: Plan)
    requires Takes(d, p.keys) && Takes(d, p.filters)
    ensures AllAsked(d, Requests(q, p), Keys) == Meanings(d, p.keys)
    ensures AllAsked(d, Requests(q, p), Filters) == Meanings(d, p.filters)
  {
    var ks, fs, ps := KeyRequests(p.keys), FilterRequests(p.filters), ProjectionRequests(q.projection);
    assert Requests(q, p) == ks + fs + ps;
    hide AllAsked, Wanted, Takes, Requests;
    AskedConditions(d, p.keys, ks, Keys);
    AskedNone(d, fs, Keys);
    AskedNone(d, ps, Keys);
    AskedNone(d, ks, Filters);
    AskedConditions(d, p.filters, fs, Filters);
    AskedNone(d, ps, Filters);
    hide KeyRequests, FilterRequests, ProjectionRequests, Asked, Meanings, SlotOf;
    AskedAppend(d, ks + fs, ps, Keys);
    AskedAppend(d, ks, fs, Keys);
    AskedAppend(d, ks + fs, ps, Filters);
    AskedAppend(d, ks, fs, Filters);
    Reassociate(Meanings(d, p.keys), [], []);
    Reassociate(Meanings(d, p.filters), [], []);
  }

  // the operators of the filter chain

  function FilterOpsAfter(fs: seq<Frag>, ops: seq<Logic>, n: nat): seq<Logic> {
    if n == 0 then ops else if fs == [] then ops + Ands(n - 1) else ops + Ands(n)
  }

  lemma StepFilterOps(d: Dialect, b: Draft, q: Request, m: Draft)
    requires Stepped(d, b, q, m) && (q.AddFilter? ==> q.logic == And)
    ensures m.filterOps == FilterOpsAfter(b.filters, b.filterOps, |Extra(d, q, Filters)|)
    ensures |m.filters| == |b.filters| + |Extra(d, q, Filters)|
  {
    var e, r :| Built(d, b.env, q.field, Asked(d, q), e, r) && m == Put(b, e, q, r);
    assert b.filterOps + Ands(0) == b.filterOps && Ands(1) == [And];
  }

  lemma FilterOpsTogether(fs: seq<Frag>, ops: seq<Logic>, gs: seq<Frag>, m: nat, n: nat)
    requires |gs| == |fs| + m
    ensures FilterOpsAfter(gs, FilterOpsAfter(fs, ops, m), n) == FilterOpsAfter(fs, ops, m + n)
  {
    if m > 0 && n > 0 {
      if fs == [] {
        assert Ands(m - 1) + Ands(n) == Ands(m + n - 1);
        assert (ops + Ands(m - 1)) + Ands(n) == ops + (Ands(m - 1) + Ands(n));
      } else {
        assert Ands(m) + Ands(n) == Ands(m + n);
        assert (ops + Ands(m)) + Ands(n) == ops + (Ands(m) + Ands(n));
      }
    }
  }

  lemma {:induction false} RunFilterOps(d: Dialect, b: Draft, qs: seq<Request>, b': Draft)
    requires Run(d, b, qs, b') && forall i :: 0 <= i < |qs| && qs[i].AddFilter? ==> qs[i].logic == And
    ensures b'.filterOps == FilterOpsAfter(b.filters, b.filterOps, |AllAsked(d, qs, Filters)|)
    decreases |qs|
  {
    if qs != [] {
      hide Stepped, Asked;
      var m := RunFirst(d, b, qs, b');
      var rest := qs[1..];
      var j, k := |Extra(d, qs[0], Filters)|, |AllAsked(d, rest, Filters)|;
      assert |AllAsked(d, qs, Filters)| == j + k;
      assert forall i :: 0 <= i < |rest| ==> rest[i] == qs[i + 1];
      StepFilterOps(d, b, qs[0], m);
      hide Run, Extra, AllAsked, FilterOpsAfter;
      RunFilterOps(d, m, rest, b');
      FilterOpsTogether(b.filters, b.filterOps, m.filters, j, k);
    }
  }

  // the conditions, wherever they went

  function NormalizedSeq(m: Metadata, cs: seq<Condition>): (r: seq<Condition>)
    ensures |r| == |cs|
  {
    if cs == [] then [] else [Normalized(m, cs[0])] + NormalizedSeq(m, cs[1..])
  }

  /** The split loses no condition and invents none. */
  lemma {:induction false} SelectPartitions(m: Metadata, cs: seq<Condition>, p: Condition -> bool, c: Condition)
    ensures c in NormalizedSeq(m, cs) <==> c in Select(m, cs, p, true) || c in Select(m, cs, p, false)
    decreases |cs|
  {
    if cs != [] {
      SelectPartitions(m, cs[1..], p, c);
    }
  }

  predicate Meets(d: Dialect, sem: Semantics, item: Item, c: Condition) {
    var w := Wanted(d, c.field, c.op, c.arg);
    w.Some? && Eval(sem, item, w.value)
  }

  predicate MeetsAll(d: Dialect, sem: Semantics, item: Item, cs: seq<Condition>) {
    forall c :: c in cs ==> Meets(d, sem, item, c)
  }

  lemma EveryMeets(d: Dialect, sem: Semantics, item: Item, cs: seq<Condition>)
    requires Takes(d, cs)
    ensures EvalEvery(sem, item, Meanings(d, cs)) == MeetsAll(d, sem, item, cs)
  {
    var ms := Meanings(d, cs);
    if EvalEvery(sem, item, ms) {
      forall c | c in cs ensures Meets(d, sem, item, c) {
        var i :| 0 <= i < |cs| && cs[i] == c;
        assert Eval(sem, item, ms[i]);
      }
    }
    if MeetsAll(d, sem, item, cs) {
      forall i | 0 <= i < |ms| ensures Eval(sem, item, ms[i]) {
        assert Meets(d, sem, item, cs[i]);
      }
    }
  }

  lemma SplitMeets(d: Dialect, sem: Semantics, item: Item, q: Query, p: Plan)
    requires Planned(q, p)
    ensures MeetsAll(d, sem, item, NormalizedSeq(q.meta, q.conditions)) <==> MeetsAll(d, sem, item, p.keys) && MeetsAll(d, sem, item, p.filters)
  {
    var onKey: Condition -> bool :| SplitBy(q, p, onKey);
    forall c ensures c in NormalizedSeq(q.meta, q.conditions) <==> c in p.keys || c in p.filters {
      SelectPartitions(q.meta, q.conditions, onKey, c);
    }
  }

  // ----- the theorems

  /** The user's intent: every Where condition, and the filter expression as built. */
  ghost predicate Intended(d: Dialect, sem: Semantics, item: Item, q: Query, fms: seq<Meaning>, fops: seq<Logic>) {
    MeetsAll(d, sem, item, NormalizedSeq(q.meta, q.conditions)) && EvalChain(sem, item, fms, fops)
  }

  ghost predicate Matches(sem: Semantics, item: Item, c: Compiled) {
    var k, f := DecodeAll(c.env, c.key), DecodeAll(c.env, c.filter);
    k.Some? && f.Some? && EvalEvery(sem, item, k.value) && EvalChain(sem, item, f.value, c.filterOps)
  }

  /** The chain (f1 op f2 ...) AND w1 AND w2 ..., as Build prints it, in terms of the parts. */
  lemma ChainWithAnds(sem: Semantics, item: Item, fms: seq<Meaning>, fops: seq<Logic>, ws: seq<Meaning>)
    requires fms != [] && |fops| == |fms| - 1
    ensures var vs := EvalAll(sem, item, fms);
            EvalChain(sem, item, fms + ws, fops + Ands(|ws|))
            == (BeforeLastOr(vs[0], fops, vs[1..]) || (LastRun(vs[0], fops, vs[1..]) && EvalEvery(sem, item, ws)))
  {
    var vs := EvalAll(sem, item, fms);
    var us := EvalAll(sem, item, ws);
    EvalAllConcat(sem, item, fms, ws);
    hide EvalAll, Eval;
    assert (vs + us)[0] == vs[0] && (vs + us)[1..] == vs[1..] + us;
    ChainAppendAnds(vs[0], fops, vs[1..], us);
    EveryOfAll(sem, item, ws);
  }

  lemma EvalAllConcat(sem: Semantics, item: Item, a: seq<Meaning>, b: seq<Meaning>)
    ensures EvalAll(sem, item, a + b) == EvalAll(sem, item, a) + EvalAll(sem, item, b)
  {
    hide Eval;
    assert forall i :: 0 <= i < |a + b| ==> (a + b)[i] == if i < |a| then a[i] else b[i - |a|];
  }

  lemma NewFilterMeaning(sem: Semantics, item: Item, fs: seq<Frag>, ws: seq<Meaning>)
    requires fs == []
    ensures EvalChain(sem, item, ws, FilterOpsAfter(fs, [], |ws|)) == EvalEvery(sem, item, ws) && EvalChain(sem, item, [], [])
  {
    if ws != [] {
      assert [] + Ands(|ws| - 1) == Ands(|ws| - 1);
      hide EvalChain, EvalEvery, Ands;
      AndsMeanAll(sem, item, ws);
    }
  }

  lemma ExtendedFilterMeaning(sem: Semantics, item: Item, fs: seq<Frag>, fms: seq<Meaning>, fops: seq<Logic>, ws: seq<Meaning>)
    requires |fs| == |fms| && fms != [] && |fops| == |fms| - 1
    ensures var got := EvalChain(sem, item, fms + ws, FilterOpsAfter(fs, fops, |ws|));
            var want := EvalChain(sem, item, fms, fops) && EvalEvery(sem, item, ws);
            var vs := EvalAll(sem, item, fms);
            && (Or !in fops ==> got == want)
            && (got == want <==> !(BeforeLastOr(vs[0], fops, vs[1..]) && !EvalEvery(sem, item, ws)))
  {
    var vs := EvalAll(sem, item, fms);
    assert fms + [] == fms && fops + Ands(0) == fops && fops + [] == fops;
    if |ws| == 0 { assert ws == []; }
    hide EvalChain, EvalAll, Ands, LastRun, BeforeLastOr;
    assert FilterOpsAfter(fs, fops, |ws|) == fops + Ands(|ws|);
    ChainWithAnds(sem, item, fms, fops, ws);
    ChainWithAnds(sem, item, fms, fops, []);
    if Or !in fops { NoOrBefore(vs[0], fops, vs[1..]); }
  }

  /** What a compiled filter means, with the Where filters appended to the user's filters. */
  lemma FilterMeaning(sem: Semantics, item: Item, fs: seq<Frag>, fms: seq<Meaning>, fops: seq<Logic>, ws: seq<Meaning>)
    requires |fs| == |fms|
    requires fms != [] ==> |fops| == |fms| - 1
    requires fms == [] ==> fops == []
    ensures var ops := FilterOpsAfter(fs, fops, |ws|);
            var got := EvalChain(sem, item, fms + ws, ops);
            var want := EvalChain(sem, item, fms, fops) && EvalEvery(sem, item, ws);
            && (Or !in fops ==> got == want)
            && (fms != [] ==> var vs := EvalAll(sem, item, fms);
                 (got == want <==> !(BeforeLastOr(vs[0], fops, vs[1..]) && !EvalEvery(sem, item, ws))))
  {
    if fms == [] {
      NewFilterMeaning(sem, item, fs, ws);
      assert fms + ws == ws;
    } else {
      ExtendedFilterMeaning(sem, item, fs, fms, fops, ws);
    }
  }

  /** A filter builder in good order: what Filter and OrFilter calls leave behind. */
  ghost predicate Ready(d: Dialect, start: Draft, parts: set<string>) {
    && Fresh(start.env) && NamesFrom(start.env.names, parts) && NoVariants(d, parts)
    && start.keys == [] && Said(start, Filters).Some? && Linkable(start)
  }

  /** One operator between every two filters. */
  predicate Linkable(b: Draft) {
    |b.filterOps| == if b.filters == [] then 0 else |b.filters| - 1
  }

  lemma FilterStepShape(d: Dialect, b: Draft, q: Request, b': Draft)
    requires Stepped(d, b, q, b') && q.AddFilter? && Linkable(b)
    ensures b'.keys == b.keys && Linkable(b')
  {
    var e, r :| Built(d, b.env, q.field, Asked(d, q), e, r) && b' == Put(b, e, q, r);
  }

  lemma {:induction false} FilterRunShape(d: Dialect, b: Draft, qs: seq<Request>, b': Draft)
    requires Run(d, b, qs, b') && Linkable(b) && forall i :: 0 <= i < |qs| ==> qs[i].AddFilter?
    ensures b'.keys == b.keys && Linkable(b')
    decreases |qs|
  {
    if qs != [] {
      hide Stepped, Linkable;
      var m := RunFirst(d, b, qs, b');
      FilterStepShape(d, b, qs[0], m);
      FilterRunShape(d, m, qs[1..], b');
    }
  }

  /** Any sequence of Filter and OrFilter calls on a new query leaves its builder in good order. */
  lemma FiltersLeaveReady(d: Dialect, qs: seq<Request>, b: Draft, parts: set<string>)
    requires Run(d, Empty(), qs, b) && Uses(d, qs, parts) && NoVariants(d, parts)
    requires forall i :: 0 <= i < |qs| ==> qs[i].AddFilter?
    ensures Ready(d, b, parts) && Said(b, Filters) == Some(AllAsked(d, qs, Filters))
  {
    assert Said(Empty(), Filters) == Some([]);
    assert Fresh(Empty().env) && NamesFrom(Empty().env.names, parts) && Linkable(Empty()) && Empty().keys == [];
    hide Run, Uses, NoVariants, Fresh, NamesFrom, Said, AllAsked, Empty, Linkable;
    RunSays(d, Empty(), qs, b, parts, Filters);
    FilterRunShape(d, Empty(), qs, b);
    Reassociate(AllAsked(d, qs, Filters), [], []);
  }

  lemma CompiledKeysSay(d: Dialect, q: Query, start: Draft, p: Plan, end: Draft, parts: set<string>)
    requires Takes(d, p.keys) && Takes(d, p.filters) && Ready(d, start, parts)
    requires Run(d, start, Requests(q, p), end) && Uses(d, Requests(q, p), parts)
    ensures Said(end, Keys) == Some(Meanings(d, p.keys))
  {
    assert Said(start, Keys) == Some([]);
    hide Run, Fresh, NamesFrom, Uses, NoVariants, DecodeAll, AllAsked, Requests;
    RequestsAsk(d, q, p);
    RunSays(d, start, Requests(q, p), end, parts, Keys);
    Reassociate(Meanings(d, p.keys), [], []);
  }

  lemma CompiledFiltersSay(d: Dialect, q: Query, start: Draft, p: Plan, end: Draft, parts: set<string>)
    requires Takes(d, p.keys) && Takes(d, p.filters) && Ready(d, start, parts)
    requires Run(d, start, Requests(q, p), end) && Uses(d, Requests(q, p), parts)
    ensures Said(end, Filters) == Some(Said(start, Filters).value + Meanings(d, p.filters))
    ensures end.filterOps == FilterOpsAfter(start.filters, start.filterOps, |p.filters|)
  {
    assert forall i :: 0 <= i < |Requests(q, p)| && Requests(q, p)[i].AddFilter? ==> Requests(q, p)[i].logic == And;
    hide Run, Fresh, NamesFrom, Uses, NoVariants, DecodeAll, AllAsked, Requests;
    RequestsAsk(d, q, p);
    RunSays(d, start, Requests(q, p), end, parts, Filters);
    RunFilterOps(d, start, Requests(q, p), end);
  }

  /** What the compiled expressions say, read through the final maps. */
  lemma CompiledSays(d: Dialect, q: Query, start: Draft, p: Plan, end: Draft, parts: set<string>)
    requires Takes(d, p.keys) && Takes(d, p.filters) && Ready(d, start, parts)
    requires Run(d, start, Requests(q, p), end) && Uses(d, Requests(q, p), parts)
    ensures Said(end, Keys) == Some(Meanings(d, p.keys))
    ensures Said(end, Filters) == Some(Said(start, Filters).value + Meanings(d, p.filters))
    ensures end.filterOps == FilterOpsAfter(start.filters, start.filterOps, |p.filters|)
  {
    hide Run, Ready, Uses, Said;
    CompiledKeysSay(d, q, start, p, end, parts);
    CompiledFiltersSay(d, q, start, p, end, parts);
  }

  lemma CompiledMatches(d: Dialect, q: Query, start: Draft, p: Plan, end: Draft, parts: set<string>, sem: Semantics, item: Item)
    requires Takes(d, p.keys) && Takes(d, p.filters) && Ready(d, start, parts)
    requires Run(d, start, Requests(q, p), end) && Uses(d, Requests(q, p), parts)
    ensures Matches(sem, item, Compiled(p, end.env, end.keys, end.filters, end.filterOps, end.projections)) <==>
            && MeetsAll(d, sem, item, p.keys)
            && EvalChain(sem, item, Said(start, Filters).value + Meanings(d, p.filters), FilterOpsAfter(start.filters, start.filterOps, |p.filters|))
  {
    CompiledSays(d, q, start, p, end, parts);
    assert DecodeAll(end.env, end.keys) == Said(end, Keys) && DecodeAll(end.env, end.filters) == Said(end, Filters);
    assert Said(start, Filters).Some?;
    hide Said, DecodeAll, Ready, Run, Uses, Requests, EvalChain, MeetsAll, EvalEvery, FilterOpsAfter;
    EveryMeets(d, sem, item, p.keys);
  }

  /** Compilation preserves meaning.  For every query, index set and filter builder in good
      order, with no two case variants of a reserved word, the items meeting the compiled
      key and filter conditions, read through the placeholder maps, are those meeting every
      Where and the filter expression whenever the filters have no top-level OR; and for an
      item meeting the key conditions the two agree exactly as long as it does not satisfy
      the filters before their last OR while missing a Where left to the filter. */
  lemma CompilationPreservesMeaning(d: Dialect, q: Query, start: Draft, p: Plan, end: Draft, parts: set<string>, sem: Semantics, item: Item)
    requires Planned(q, p) && Takes(d, p.keys) && Takes(d, p.filters) && Ready(d, start, parts)
    requires Run(d, start, Requests(q, p), end) && Uses(d, Requests(q, p), parts)
    ensures var c := Compiled(p, end.env, end.keys, end.filters, end.filterOps, end.projections);
            var fms := Said(start, Filters).value;
            && (Or !in start.filterOps ==> (Matches(sem, item, c) <==> Intended(d, sem, item, q, fms, start.filterOps)))
            && (fms != [] && MeetsAll(d, sem, item, p.keys) ==>
                 var vs := EvalAll(sem, item, fms);
                 ((Matches(sem, item, c) <==> Intended(d, sem, item, q, fms, start.filterOps))
                  <==> !(BeforeLastOr(vs[0], start.filterOps, vs[1..]) && !MeetsAll(d, sem, item, p.filters))))
  {
    CompiledMatches(d, q, start, p, end, parts, sem, item);
    var fms, ws := Said(start, Filters).value, Meanings(d, p.filters);
    assert |fms| == |start.filters| && Linkable(start);
    EveryMeets(d, sem, item, p.filters);
    hide Said, DecodeAll, Ready, Run, Uses, Requests, Matches, EvalChain, EvalAll, BeforeLastOr, MeetsAll, EvalEvery, Takes, Planned, FilterOpsAfter;
    FilterMeaning(sem, item, start.filters, fms, start.filterOps, ws);
    SplitMeets(d, sem, item, q, p);
  }
}
