/** Which index a query reads and which conditions become its key, read off the names and the
    operators the author wrote. */
module IndexChoice {
  import opened Wrappers
  import opened Expressions
  import opened Builder
  import opened Compile
  import opened Spellings

  // ----- the order of preference

  /** The sort key counts when the condition on it is one a key condition can express. */
  predicate SortCounts(r: Required) {
    r.sortKey != "" && r.sortOp in {"=", "begins_with", "between", "<", "<=", ">", ">="}
  }

  predicate Sorted(x: IndexSchema, r: Required) {
    SortCounts(r) && x.sortKey == r.sortKey
  }

  /** x is preferred to y: first for a usable sort key, then for being a GSI, then for
      projecting everything. */
  predicate Beats(x: IndexSchema, y: IndexSchema, r: Required) {
    if Sorted(x, r) != Sorted(y, r) then Sorted(x, r)
    else if (x.kind == "GSI") != (y.kind == "GSI") then x.kind == "GSI"
    else x.projection == "ALL" && y.projection != "ALL"
  }

  lemma ScoreRanks(x: IndexSchema, y: IndexSchema, r: Required)
    requires x.partitionKey == r.partitionKey == y.partitionKey
    ensures Score(x, r) > Score(y, r) <==> Beats(x, y, r)
    ensures Score(x, r) > 0
  {
  }

  /** The i-th index has the partition key, no other with it is preferred, and every earlier
      one is beaten. */
  predicate FirstBest(indexes: seq<IndexSchema>, r: Required, i: int) {
    && 0 <= i < |indexes| && indexes[i].partitionKey == r.partitionKey
    && (forall j :: 0 <= j < |indexes| && indexes[j].partitionKey == r.partitionKey ==> !Beats(indexes[j], indexes[i], r))
    && (forall j :: 0 <= j < i && indexes[j].partitionKey == r.partitionKey ==> Beats(indexes[i], indexes[j], r))
  }

  lemma ScoreOthers(x: IndexSchema, r: Required)
    requires x.partitionKey != r.partitionKey
    ensures Score(x, r) == 0
  {
  }

  lemma Ranked(indexes: seq<IndexSchema>, r: Required, i: int, j: int)
    requires 0 <= i < |indexes| && 0 <= j < |indexes| && indexes[i].partitionKey == r.partitionKey
    ensures if indexes[j].partitionKey == r.partitionKey
            then (Score(indexes[j], r) > Score(indexes[i], r) <==> Beats(indexes[j], indexes[i], r))
                 && (Score(indexes[i], r) > Score(indexes[j], r) <==> Beats(indexes[i], indexes[j], r))
            else Score(indexes[j], r) < Score(indexes[i], r)
  {
    if indexes[j].partitionKey == r.partitionKey {
      ScoreRanks(indexes[j], indexes[i], r);
      ScoreRanks(indexes[i], indexes[j], r);
    } else {
      ScoreRanks(indexes[i], indexes[i], r);
      ScoreOthers(indexes[j], r);
    }
  }

  lemma FirstBestIsOptimal(indexes: seq<IndexSchema>, r: Required, i: int)
    requires r.partitionKey != "" && FirstBest(indexes, r, i)
    ensures Optimal(indexes, r, Some(indexes[i]))
  {
    var best := indexes[i];
    hide Score, Beats;
    forall j | 0 <= j < |indexes| ensures Score(indexes[j], r) <= Score(best, r) { Ranked(indexes, r, i, j); }
    forall j | 0 <= j < i ensures Score(indexes[j], r) < Score(best, r) { Ranked(indexes, r, i, j); }
  }

  lemma OptimalIsFirstBest(indexes: seq<IndexSchema>, r: Required, best: IndexSchema)
    requires Optimal(indexes, r, Some(best))
    ensures exists i :: FirstBest(indexes, r, i) && indexes[i] == best
  {
    hide Score, Beats;
    var i :| && 0 <= i < |indexes| && indexes[i] == best
             && (forall j :: 0 <= j < |indexes| ==> Score(indexes[j], r) <= Score(best, r))
             && (forall j :: 0 <= j < i ==> Score(indexes[j], r) < Score(best, r));
    forall j | 0 <= j < |indexes| && indexes[j].partitionKey == r.partitionKey
      ensures !Beats(indexes[j], best, r) && (j < i ==> Beats(best, indexes[j], r))
    {
      Ranked(indexes, r, i, j);
    }
    assert FirstBest(indexes, r, i);
  }

  /** The scores choose exactly the first index that nothing with the partition key beats. */
  lemma OptimalIff(indexes: seq<IndexSchema>, r: Required, best: IndexSchema)
    requires r.partitionKey != ""
    ensures Optimal(indexes, r, Some(best)) <==> exists i :: FirstBest(indexes, r, i) && indexes[i] == best
  {
    hide Optimal, Beats, Score;
    if Optimal(indexes, r, Some(best)) { OptimalIsFirstBest(indexes, r, best); }
    if i :| FirstBest(indexes, r, i) && indexes[i] == best { FirstBestIsOptimal(indexes, r, i); }
  }

  // ----- what is required, by the spelling of the operators

  lemma EqualitySpelled(op: string)
    ensures IsEquality(op) <==> Either(op, "=", "EQ")
  {
    FoldsIff(op, "eq");
    UpperSpelled(op, "=");
    UpperSpelled(op, "EQ");
    assert Upper("eq") == "EQ" && Upper("=") == "=";
    if AnyCase(op, "=") { assert op[0] == '='; }
    hide AnyCase;
  }

  /** The comparisons a key condition can express. */
  predicate Ranging(op: string) {
    || Either(op, "=", "EQ") || Either(op, "<", "LT") || Either(op, "<=", "LE") || Either(op, ">", "GT") || Either(op, ">=", "GE")
    || AnyCase(op, "BETWEEN") || AnyCase(op, "BEGINS_WITH")
  }

  /** A sort key counts by the spelling of its condition's operator. */
  lemma SortCountsIff(r: Required, c: Scored)
    requires Sorts(r, c) && r.sortKey != ""
    ensures SortCounts(r) <==> Ranging(c.op)
  {
    NormalizedIff(c.op);
  }

  lemma LowerUpper(op: string)
    ensures var low := seq(|op|, i requires 0 <= i < |op| => LowerChar(op[i])); Upper(low) == Upper(op)
  {
  }

  lemma NormalizedIff(op: string)
    ensures NormalizeOperator(op) in {"=", "begins_with", "between", "<", "<=", ">", ">="} <==> Ranging(op)
  {
    UpperSpelled(op, "="); UpperSpelled(op, "EQ"); UpperSpelled(op, "<"); UpperSpelled(op, "LT"); UpperSpelled(op, "<="); UpperSpelled(op, "LE");
    UpperSpelled(op, ">"); UpperSpelled(op, "GT"); UpperSpelled(op, ">="); UpperSpelled(op, "GE");
    UpperSpelled(op, "BETWEEN"); UpperSpelled(op, "BEGINS_WITH");
    LowerUpper(op);
    assert Upper("=") == "=" && Upper("<") == "<" && Upper("<=") == "<=" && Upper(">") == ">" && Upper(">=") == ">=";
    assert Upper("between") == "BETWEEN" && Upper("begins_with") == "BEGINS_WITH";
    hide AnyCase, Upper, LowerChar;
  }

  // ----- when a query is a Query

  /** The i-th condition's field, by its Go name, or else by its attribute. */
  ghost predicate Called(q: Query, i: int, name: string) {
    0 <= i < |q.conditions| && exists go, attr :: GoesBy(q.meta, q.conditions[i].field, go, attr) && name == if go != "" then go else attr
  }

  lemma CalledIff(q: Query, i: int, name: string)
    requires 0 <= i < |q.conditions|
    ensures Called(q, i, name) <==> ScoredAll(q)[i].field == name
  {
    var c := q.conditions[i];
    NamesKeyIff(q.meta, c, "");
    assert GoesBy(q.meta, c.field, GoField(q.meta, c), AttrName(q.meta, c));
  }

  /** The first condition that compares a named field for equality, and its name. */
  ghost predicate FirstNamed(q: Query, at: int, name: string) {
    && Called(q, at, name) && name != "" && Either(q.conditions[at].op, "=", "EQ")
    && forall j :: 0 <= j < at && Either(q.conditions[j].op, "=", "EQ") ==> Called(q, j, "")
  }

  lemma FirstNamedIff(q: Query, at: int, name: string)
    ensures FirstNamed(q, at, name) <==> FirstEquality(ScoredAll(q), at) && ScoredAll(q)[at].field == name
  {
    var cs := ScoredAll(q);
    forall j | 0 <= j < |q.conditions|
      ensures IsEquality(cs[j].op) <==> Either(q.conditions[j].op, "=", "EQ")
      ensures Called(q, j, "") <==> cs[j].field == ""
      ensures Called(q, j, name) <==> cs[j].field == name
    {
      EqualitySpelled(q.conditions[j].op);
      CalledIff(q, j, "");
      CalledIff(q, j, name);
    }
    hide IsEquality, Either, Called;
    assert 0 <= at < |cs| ==> (Called(q, at, name) <==> cs[at].field == name);
  }

  /** name is the partition key of the table or of one of its indexes. */
  predicate Partitions(m: Metadata, name: string) {
    name == m.partitionKey || exists k :: 0 <= k < |m.indexes| && m.indexes[k].partitionKey == name
  }

  /** Without an explicit index a read is a Query exactly when the first equality on a named
      field is on the partition key of the table or of an index; and it reads the first of
      these indexes, the table before all, that no other with that partition key beats. */
  lemma QueriedIff(q: Query, p: Plan, chosen: Option<IndexSchema>)
    requires PlanFor(q, p, chosen) && q.index == ""
    ensures p.isQuery <==> exists at, name :: FirstNamed(q, at, name) && Partitions(q.meta, name)
    ensures p.isQuery ==> chosen.Some? && p.index == chosen.value.name && ChosenFirst(q, chosen.value)
  {
    var r :| PlannedBy(q, p, chosen, r);
    var cs := ScoredAll(q);
    AnalyzedPartition(q, r);
    PartitionedBy(q.meta, r.partitionKey);
    hide Analyzed, Partitions, FirstNamed;
    if p.isQuery {
      hide Optimal;
      AllIndexesOptimal(q, r, chosen.value);
    }
  }

  /** The chosen index is the best for some analysis of the conditions. */
  ghost predicate ChosenFirst(q: Query, chosen: IndexSchema) {
    var all := [IndexSchema("", "PRIMARY", q.meta.partitionKey, q.meta.sortKey, "")] + q.meta.indexes;
    exists r, i :: Analyzed(ScoredAll(q), r) && FirstBest(all, r, i) && all[i] == chosen
  }

  lemma AllIndexesOptimal(q: Query, r: Required, best: IndexSchema)
    requires Analyzed(ScoredAll(q), r) && Optimal(AllIndexes(q.meta), r, Some(best))
    ensures ChosenFirst(q, best)
  {
    OptimalIsFirstBest(AllIndexes(q.meta), r, best);
    hide Analyzed, FirstBest, Optimal;
  }

  lemma PartitionedBy(m: Metadata, name: string)
    ensures Partitions(m, name) <==> exists i :: 0 <= i < |AllIndexes(m)| && AllIndexes(m)[i].partitionKey == name
  {
    var all := AllIndexes(m);
    assert all[0].partitionKey == m.partitionKey;
    forall k | 0 <= k < |m.indexes| ensures all[k + 1] == m.indexes[k] { }
  }

  /** The partition key an analysis finds. */
  lemma AnalyzedPartition(q: Query, r: Required)
    requires Analyzed(ScoredAll(q), r)
    ensures forall at, name :: FirstNamed(q, at, name) ==> name == r.partitionKey
    ensures r.partitionKey != "" ==> exists at :: FirstNamed(q, at, r.partitionKey)
  {
    hide SortFound, FirstNamed, IsEquality;
    var cs := ScoredAll(q);
    forall at, name | FirstNamed(q, at, name) ensures name == r.partitionKey {
      FirstNamedIff(q, at, name);
      assert IsEquality(cs[at].op) && cs[at].field != "";
    }
    if r.partitionKey != "" {
      var at :| FirstEquality(cs, at) && r.partitionKey == cs[at].field;
      FirstNamedIff(q, at, r.partitionKey);
    }
  }

  // ----- what goes to the key

  /** Two names of one field: the Go names or the attributes are the same, in any case. */
  ghost predicate SameField(m: Metadata, field: string, key: string) {
    key != "" && forall go, attr, keyGo, keyAttr :: GoesBy(m, field, go, attr) && GoesBy(m, key, keyGo, keyAttr) ==> AnyCase(go, keyGo) || AnyCase(attr, keyAttr)
  }

  /** An index without a key of its own borrows the table's. */
  function KeyOr(own: string, table: string): string {
    if own != "" then own else table
  }

  lemma GoesByNames(m: Metadata, field: string)
    requires Consistent(m) && field != ""
    ensures GoesBy(m, field, ResolveGo(m, field), ResolveAttr(m, field)) && ResolveGo(m, field) != ""
  {
  }

  lemma ResolvedSame(m: Metadata, c: Condition)
    requires Consistent(m)
    ensures ResolvedNames(m, GoField(m, c), AttrName(m, c)) == (GoField(m, c), AttrName(m, c))
    ensures GoesBy(m, c.field, GoField(m, c), AttrName(m, c))
  {
  }

  lemma SameFieldIff(m: Metadata, c: Condition, key: string)
    requires Consistent(m) && key != ""
    ensures SameField(m, c.field, key) <==> EqualFold(GoField(m, c), ResolveGo(m, key)) || EqualFold(AttrName(m, c), ResolveAttr(m, key))
  {
    GoesByNames(m, key);
    ResolvedSame(m, c);
    FoldsIff(GoField(m, c), ResolveGo(m, key));
    FoldsIff(AttrName(m, c), ResolveAttr(m, key));
    hide EqualFold, AnyCase, Consistent;
  }

  lemma OnKeyIff(m: Metadata, keys: KeyNames, pk: string, sk: string, c: Condition)
    requires Consistent(m) && Keyed(m, keys, pk, sk)
    ensures keys.IsPartitionKey(GoField(m, c), AttrName(m, c)) <==> SameField(m, c.field, pk)
    ensures keys.IsSortKey(GoField(m, c), AttrName(m, c)) <==> SameField(m, c.field, sk)
    ensures OnKey(m, keys, c) <==> SameField(m, c.field, pk) || SameField(m, c.field, sk)
  {
    ResolvedSame(m, c);
    if pk != "" { SameFieldIff(m, c, pk); }
    if sk != "" { SameFieldIff(m, c, sk); }
    hide EqualFold, Consistent;
  }

  /** The names kept for the two keys are those of pk and sk. */
  predicate Keyed(m: Metadata, keys: KeyNames, pk: string, sk: string) {
    && keys.pkGo == ResolveGo(m, pk) && keys.pkAttr == ResolveAttr(m, pk) && (pk != "" ==> keys.pkGo != "")
    && keys.skGo == ResolveGo(m, sk) && keys.skAttr == ResolveAttr(m, sk) && (sk != "" ==> keys.skGo != "")
  }

  lemma KeyNamesKeyed(m: Metadata, idx: Option<IndexSchema>)
    requires Consistent(m)
    ensures idx.None? || idx.value.name == "" ==> Keyed(m, KeyNamesFor(m, idx), m.partitionKey, m.sortKey)
    ensures idx.Some? && idx.value.name != "" ==>
              Keyed(m, KeyNamesFor(m, idx), KeyOr(idx.value.partitionKey, m.partitionKey), KeyOr(idx.value.sortKey, m.sortKey))
  {
    if m.partitionKey != "" { GoesByNames(m, m.partitionKey); }
    if m.sortKey != "" { GoesByNames(m, m.sortKey); }
    if idx.Some? && idx.value.partitionKey != "" { GoesByNames(m, idx.value.partitionKey); StoredNotEmpty(m, idx.value.partitionKey); }
    if idx.Some? && idx.value.sortKey != "" { GoesByNames(m, idx.value.sortKey); StoredNotEmpty(m, idx.value.sortKey); }
    hide Consistent;
  }

  lemma StoredNotEmpty(m: Metadata, field: string)
    requires Consistent(m) && field != ""
    ensures ResolveAttr(m, field) != ""
  {
  }

  /** stored is the i-th condition on the attribute its field is stored in. */
  ghost predicate Stands(q: Query, i: int, stored: Condition) {
    0 <= i < |q.conditions| && StandsFor(q.meta, q.conditions[i], stored)
  }

  /** cs holds exactly the conditions for which `on` is as wanted. */
  ghost predicate Holds(q: Query, cs: seq<Condition>, on: Condition -> bool, want: bool) {
    forall c :: c in cs <==> exists i :: Stands(q, i, c) && on(q.conditions[i]) == want
  }

  lemma SelectHolds(q: Query, p: Condition -> bool, want: bool)
    ensures Holds(q, Select(q.meta, q.conditions, p, want), p, want)
  {
    forall c ensures c in Select(q.meta, q.conditions, p, want) <==> exists i :: Stands(q, i, c) && p(q.conditions[i]) == want {
      SelectMembers(q.meta, q.conditions, p, want, c);
      forall i | 0 <= i < |q.conditions| ensures Stands(q, i, c) <==> c == Normalized(q.meta, q.conditions[i]) {
        StandsForNormalized(q.meta, q.conditions[i], c);
      }
      hide Select, Normalized, StandsFor;
    }
  }

  /** The field names a key of the index, or a key of the table that the index borrows. */
  ghost predicate OnIndexKey(m: Metadata, idx: IndexSchema, field: string) {
    SameField(m, field, KeyOr(idx.partitionKey, m.partitionKey)) || SameField(m, field, KeyOr(idx.sortKey, m.sortKey))
  }

  lemma AutoTestIff(m: Metadata, idx: IndexSchema, c: Condition)
    requires Consistent(m) && idx in AllIndexes(m)
    ensures AutoTest(m, idx)(c) <==> OnIndexKey(m, idx, c.field)
  {
    assert idx.name == "" ==> idx == AllIndexes(m)[0];
    KeyNamesKeyed(m, Some(idx));
    hide Consistent, Keyed, SameField;
    OnKeyIff(m, KeyNamesFor(m, Some(idx)), KeyOr(idx.partitionKey, m.partitionKey), KeyOr(idx.sortKey, m.sortKey), c);
  }

  /** With an automatically chosen index the key conditions are exactly the conditions on a
      field that names one of its keys, by Go name or attribute and in any case; the filter
      gets exactly the others. */
  lemma AutoSplitIff(q: Query, p: Plan, chosen: Option<IndexSchema>)
    requires PlanFor(q, p, chosen) && q.index == "" && Consistent(q.meta) && p.isQuery
    ensures chosen.Some?
    ensures forall c :: c in p.keys <==> exists i :: Stands(q, i, c) && OnIndexKey(q.meta, chosen.value, q.conditions[i].field)
    ensures forall c :: c in p.filters <==> exists i :: Stands(q, i, c) && !OnIndexKey(q.meta, chosen.value, q.conditions[i].field)
  {
    var r :| PlannedBy(q, p, chosen, r);
    ChosenHasEquality(q, chosen.value, r);
    var on := AutoTest(q.meta, chosen.value);
    forall i | 0 <= i < |q.conditions| ensures on(q.conditions[i]) <==> OnIndexKey(q.meta, chosen.value, q.conditions[i].field) {
      AutoTestIff(q.meta, chosen.value, q.conditions[i]);
    }
    SelectHolds(q, on, true);
    SelectHolds(q, on, false);
    assert p.keys == Select(q.meta, q.conditions, on, true) && p.filters == Select(q.meta, q.conditions, on, false);
    hide PlannedBy, Select, OnIndexKey, AutoTest, Consistent, PlanFor, StandsFor;
  }

  // ----- an explicit index

  /** The first index with the name, if there is one. */
  predicate Named(m: Metadata, name: string, idx: Option<IndexSchema>) {
    match idx
    case None => forall i :: 0 <= i < |m.indexes| ==> m.indexes[i].name != name
    case Some(x) => exists i :: 0 <= i < |m.indexes| && m.indexes[i] == x && x.name == name && forall j :: 0 <= j < i ==> m.indexes[j].name != name
  }

  lemma {:induction false} FindInFirst(idxs: seq<IndexSchema>, name: string)
    ensures match FindIn(idxs, name)
            case None => forall i :: 0 <= i < |idxs| ==> idxs[i].name != name
            case Some(x) => exists i :: 0 <= i < |idxs| && idxs[i] == x && x.name == name && forall j :: 0 <= j < i ==> idxs[j].name != name
    decreases |idxs|
  {
    if idxs != [] {
      var rest := idxs[1..];
      FindInFirst(rest, name);
      assert forall i :: 0 <= i < |rest| ==> rest[i] == idxs[i + 1];
      if idxs[0].name == name {
        assert idxs[0] == FindIn(idxs, name).value;
      } else if FindIn(rest, name).Some? {
        var i :| 0 <= i < |rest| && rest[i] == FindIn(rest, name).value && forall j :: 0 <= j < i ==> rest[j].name != name;
        assert idxs[i + 1] == rest[i];
      }
    }
  }

  /** The keys of an index, with the table's where it has none; without an index the table's. */
  function PartitionOf(m: Metadata, idx: Option<IndexSchema>): string {
    if idx.Some? then KeyOr(idx.value.partitionKey, m.partitionKey) else m.partitionKey
  }

  function SortOf(m: Metadata, idx: Option<IndexSchema>): string {
    if idx.Some? then KeyOr(idx.value.sortKey, m.sortKey) else m.sortKey
  }

  /** A condition the service takes in a key: `=` on the partition key, or one of seven
      signs and words on the sort key; spaces around the operator do not matter. */
  ghost predicate FitsKey(m: Metadata, pk: string, sk: string, c: Condition) {
    var op := Trim(c.op);
    if SameField(m, c.field, pk) then op == "="
    else SameField(m, c.field, sk) && (op in {"=", "<", "<=", ">", ">="} || AnyCase(op, "BETWEEN") || AnyCase(op, "BEGINS_WITH"))
  }

  lemma SignIff(op: string)
    ensures Upper(op) == "=" <==> op == "="
    ensures Upper(op) in {"=", "<", "<=", ">", ">=", "BETWEEN", "BEGINS_WITH"} <==>
              op in {"=", "<", "<=", ">", ">="} || AnyCase(op, "BETWEEN") || AnyCase(op, "BEGINS_WITH")
  {
    UpperSpelled(op, "BETWEEN");
    UpperSpelled(op, "BEGINS_WITH");
    UpperSign(op, "=");
    UpperSign(op, "<");
    UpperSign(op, "<=");
    UpperSign(op, ">");
    UpperSign(op, ">=");
    hide Upper, AnyCase;
  }

  lemma UpperSign(op: string, sign: string)
    requires forall i :: 0 <= i < |sign| ==> !('a' <= sign[i] <= 'z') && !('A' <= sign[i] <= 'Z')
    ensures Upper(op) == sign <==> op == sign
  {
    if Upper(op) == sign {
      forall i | 0 <= i < |op| ensures op[i] == sign[i] { assert Upper(op)[i] == sign[i]; }
    }
    if op == sign {
      assert Upper(op) == sign;
    }
  }

  lemma ExplicitTestIff(q: Query, idx: Option<IndexSchema>, c: Condition)
    requires Consistent(q.meta) && q.index != "" && Named(q.meta, q.index, idx)
    ensures ExplicitTest(q)(c) <==> FitsKey(q.meta, PartitionOf(q.meta, idx), SortOf(q.meta, idx), c)
    ensures KeyNamesFor(q.meta, FindIndex(q.meta, q.index)).pkAttr == ResolveAttr(q.meta, PartitionOf(q.meta, idx))
  {
    var m := q.meta;
    FindInFirst(m.indexes, q.index);
    assert FindIndex(m, q.index) == idx;
    KeyNamesKeyed(m, idx);
    SignIff(Trim(c.op));
    ResolvedSame(m, c);
    hide Consistent, SameField, Trim, FindIndex, Named, Upper, AnyCase;
    OnKeyIff(m, KeyNamesFor(m, idx), PartitionOf(m, idx), SortOf(m, idx), c);
  }

  /** cs holds exactly the conditions that fit the key of the index, or exactly the others. */
  ghost predicate Fitting(q: Query, idx: Option<IndexSchema>, cs: seq<Condition>, want: bool) {
    forall c :: c in cs <==> exists i :: Stands(q, i, c) && FitsKey(q.meta, PartitionOf(q.meta, idx), SortOf(q.meta, idx), q.conditions[i]) == want
  }

  lemma ExplicitFits(q: Query, idx: Option<IndexSchema>, want: bool)
    requires Consistent(q.meta) && q.index != "" && Named(q.meta, q.index, idx)
    ensures Fitting(q, idx, Select(q.meta, q.conditions, ExplicitTest(q), want), want)
  {
    var pk, sk := PartitionOf(q.meta, idx), SortOf(q.meta, idx);
    var on := ExplicitTest(q);
    forall i | 0 <= i < |q.conditions| ensures on(q.conditions[i]) <==> FitsKey(q.meta, pk, sk, q.conditions[i]) {
      ExplicitTestIff(q, idx, q.conditions[i]);
    }
    SelectHolds(q, on, want);
    hide Select, FitsKey, ExplicitTest, Consistent, StandsFor, Named;
  }

  /** Some condition that fits the key is stored in the partition attribute. */
  ghost predicate FixesKey(q: Query, idx: Option<IndexSchema>, keyAttr: string) {
    exists i, c :: Stands(q, i, c) && FitsKey(q.meta, PartitionOf(q.meta, idx), SortOf(q.meta, idx), q.conditions[i]) && AnyCase(c.field, keyAttr)
  }

  lemma FixesKeyIff(q: Query, idx: Option<IndexSchema>, keys: seq<Condition>, keyAttr: string)
    requires Fitting(q, idx, keys, true)
    ensures FixesKey(q, idx, keyAttr) <==> exists i :: 0 <= i < |keys| && EqualFold(keys[i].field, keyAttr)
  {
    forall c: Condition ensures EqualFold(c.field, keyAttr) <==> AnyCase(c.field, keyAttr) { FoldsIff(c.field, keyAttr); }
    hide EqualFold, AnyCase, FitsKey, StandsFor;
    if i :| 0 <= i < |keys| && EqualFold(keys[i].field, keyAttr) {
      assert keys[i] in keys;
    }
    if FixesKey(q, idx, keyAttr) {
      var i, c :| Stands(q, i, c) && FitsKey(q.meta, PartitionOf(q.meta, idx), SortOf(q.meta, idx), q.conditions[i]) && AnyCase(c.field, keyAttr);
      assert c in keys;
      var k :| 0 <= k < |keys| && keys[k] == c;
      assert EqualFold(keys[k].field, keyAttr);
    }
  }

  /** With an explicit index: a Query exactly when some condition that fits the key is stored
      in the partition attribute; the key then gets exactly the conditions that fit it and the
      filter the others. */
  lemma ExplicitSplitIff(q: Query, p: Plan, chosen: Option<IndexSchema>, idx: Option<IndexSchema>, keyAttr: string)
    requires PlanFor(q, p, chosen) && q.index != "" && Consistent(q.meta) && Named(q.meta, q.index, idx)
    requires KeyStoredIn(q.meta, PartitionOf(q.meta, idx), keyAttr)
    ensures p.index == q.index && (p.isQuery <==> FixesKey(q, idx, keyAttr))
    ensures p.isQuery ==> Fitting(q, idx, p.keys, true) && Fitting(q, idx, p.filters, false)
  {
    ExplicitTestIff(q, idx, Condition("", "", Arg(true, None, None)));
    var on := ExplicitTest(q);
    var keys := Select(q.meta, q.conditions, on, true);
    assert keyAttr == ResolveAttr(q.meta, PartitionOf(q.meta, idx));
    assert p.isQuery <==> exists i :: 0 <= i < |keys| && EqualFold(keys[i].field, keyAttr);
    assert p.isQuery ==> p.keys == keys && p.filters == Select(q.meta, q.conditions, on, false);
    assert p.index == q.index;
    hide *;
    ExplicitFits(q, idx, true);
    ExplicitFits(q, idx, false);
    FixesKeyIff(q, idx, keys, keyAttr);
  }
}
