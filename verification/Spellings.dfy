/** What the operators of a condition mean to its author: each spelling, in any case, against
    the comparison the table makes. */
module Spellings {
  import opened Wrappers
  import opened AttributeValues
  import opened Expressions
  import opened Builder
  import opened Compile
  import opened Reads
  import opened Guards

  // ----- spellings, in any mixture of cases

  predicate Either(op: string, sign: string, word: string) {
    AnyCase(op, sign) || AnyCase(op, word)
  }

  /** The comparisons that take one operand. */
  predicate Unary(op: string) {
    || Either(op, "=", "EQ") || Either(op, "!=", "NE") || AnyCase(op, "<>") || Either(op, "<", "LT") || Either(op, "<=", "LE")
    || Either(op, ">", "GT") || Either(op, ">=", "GE") || AnyCase(op, "BEGINS_WITH") || AnyCase(op, "CONTAINS")
  }

  predicate Existential(op: string) {
    Either(op, "EXISTS", "ATTRIBUTE_EXISTS") || Either(op, "NOT_EXISTS", "ATTRIBUTE_NOT_EXISTS")
  }

  lemma UpperSpelled(op: string, word: string)
    requires forall i :: 0 <= i < |word| ==> !('a' <= word[i] <= 'z')
    ensures Upper(op) == word <==> AnyCase(op, word)
  {
    FoldsIff(op, word);
    assert Upper(word) == word;
  }

  lemma Equalities(op: string)
    ensures ParseOperator(op) == Some(Eq) <==> Either(op, "=", "EQ")
    ensures ParseOperator(op) == Some(Ne) <==> Either(op, "!=", "NE") || AnyCase(op, "<>")
  {
    UpperSpelled(op, "="); UpperSpelled(op, "EQ");
    UpperSpelled(op, "!="); UpperSpelled(op, "<>"); UpperSpelled(op, "NE");
    hide AnyCase, Upper;
  }

  lemma Below(op: string)
    ensures ParseOperator(op) == Some(Lt) <==> Either(op, "<", "LT")
  {
    UpperSpelled(op, "<"); UpperSpelled(op, "LT");
    hide AnyCase, Upper;
  }

  lemma NotAbove(op: string)
    ensures ParseOperator(op) == Some(Le) <==> Either(op, "<=", "LE")
  {
    UpperSpelled(op, "<="); UpperSpelled(op, "LE");
    hide AnyCase, Upper;
  }

  lemma Above(op: string)
    ensures ParseOperator(op) == Some(Gt) <==> Either(op, ">", "GT")
  {
    UpperSpelled(op, ">"); UpperSpelled(op, "GT");
    hide AnyCase, Upper;
  }

  lemma NotBelow(op: string)
    ensures ParseOperator(op) == Some(Ge) <==> Either(op, ">=", "GE")
  {
    UpperSpelled(op, ">="); UpperSpelled(op, "GE");
    hide AnyCase, Upper;
  }

  lemma Ranges(op: string)
    ensures ParseOperator(op) == Some(Between) <==> AnyCase(op, "BETWEEN")
    ensures ParseOperator(op) == Some(In) <==> AnyCase(op, "IN")
  {
    UpperSpelled(op, "BETWEEN"); UpperSpelled(op, "IN");
    hide AnyCase, Upper;
  }

  lemma StringWords(op: string)
    ensures ParseOperator(op) == Some(BeginsWith) <==> AnyCase(op, "BEGINS_WITH")
    ensures ParseOperator(op) == Some(Contains) <==> AnyCase(op, "CONTAINS")
  {
    UpperSpelled(op, "BEGINS_WITH"); UpperSpelled(op, "CONTAINS");
    hide AnyCase, Upper;
  }

  lemma ExistenceWords(op: string)
    ensures ParseOperator(op) == Some(Exists) <==> Either(op, "EXISTS", "ATTRIBUTE_EXISTS")
    ensures ParseOperator(op) == Some(NotExists) <==> Either(op, "NOT_EXISTS", "ATTRIBUTE_NOT_EXISTS")
  {
    UpperSpelled(op, "EXISTS"); UpperSpelled(op, "ATTRIBUTE_EXISTS");
    UpperSpelled(op, "NOT_EXISTS"); UpperSpelled(op, "ATTRIBUTE_NOT_EXISTS");
    hide AnyCase, Upper;
  }

  /** A spelling of some operator: then it is one as it stands, spaces not trimmed. */
  predicate Known(op: string) {
    Unary(op) || AnyCase(op, "BETWEEN") || AnyCase(op, "IN") || Existential(op)
  }

  lemma KnownParses(op: string)
    ensures ParseOperator(op).Some? <==> Known(op)
  {
    Equalities(op);
    Below(op);
    NotAbove(op);
    Above(op);
    NotBelow(op);
    Ranges(op);
    StringWords(op);
    ExistenceWords(op);
    hide AnyCase, Upper;
  }

  lemma SpelledEnds(op: string, word: string)
    requires AnyCase(op, word) && 0 < |word| <= 20 && !Space(word[0]) && !Space(word[|word| - 1])
    ensures Trim(op) == op && |op| <= 20
  {
    assert TrimLeft(op) == op && TrimRight(op) == op;
  }

  /** The whitelist, which trims, lets every spelling through. */
  lemma KnownIsAllowed(op: string)
    requires Known(op)
    ensures OperatorAllowed(op)
  {
    KnownParses(op);
    hide ParseOperator, Trim;
    forall word | AnyCase(op, word) && word in {"=", "EQ", "!=", "<>", "NE", "<", "LT", "<=", "LE", ">", "GT", ">=", "GE"} ensures Trim(op) == op && |op| <= 20 {
      SpelledEnds(op, word);
    }
    forall word | AnyCase(op, word) && word in {"BETWEEN", "IN", "BEGINS_WITH", "CONTAINS", "EXISTS", "NOT_EXISTS", "ATTRIBUTE_EXISTS", "ATTRIBUTE_NOT_EXISTS"} ensures Trim(op) == op && |op| <= 20 {
      SpelledEnds(op, word);
    }
    hide AnyCase;
  }

  // ----- what a condition says, by its spelling

  /** How the table orders values, and the two string functions; left open. */
  datatype Comparer = Comparer(less: (AV, AV) -> bool, begins: (AV, AV) -> bool, contains: (AV, AV) -> bool) {
    predicate AtMost(x: AV, y: AV) {
      less(x, y) || x == y
    }
  }

  /** The attribute a, which may be missing, against the operand the caller passed. */
  predicate SpellingHolds(o: Comparer, op: string, a: Option<AV>, arg: Arg) {
    || (Unary(op) && arg.whole.Some? && Compares(o, op, a, arg.whole.value))
    || (AnyCase(op, "BETWEEN") && a.Some? && Pair(arg.elems)
        && o.AtMost(arg.elems.value[0].value, a.value) && o.AtMost(a.value, arg.elems.value[1].value))
    || (AnyCase(op, "IN") && a.Some? && arg.elems.Some? && a in arg.elems.value)
    || (Either(op, "EXISTS", "ATTRIBUTE_EXISTS") && a.Some?)
    || (Either(op, "NOT_EXISTS", "ATTRIBUTE_NOT_EXISTS") && a.None?)
  }

  predicate Compares(o: Comparer, op: string, a: Option<AV>, v: AV) {
    || ((Either(op, "!=", "NE") || AnyCase(op, "<>")) && a != Some(v))
    || (a.Some? && Relates(o, op, a.value, v))
  }

  predicate Relates(o: Comparer, op: string, x: AV, v: AV) {
    || (Either(op, "=", "EQ") && x == v)
    || (Either(op, "<", "LT") && o.less(x, v))
    || (Either(op, "<=", "LE") && o.AtMost(x, v))
    || (Either(op, ">", "GT") && o.less(v, x))
    || (Either(op, ">=", "GE") && o.AtMost(v, x))
    || (AnyCase(op, "BEGINS_WITH") && o.begins(x, v))
    || (AnyCase(op, "CONTAINS") && o.contains(x, v))
  }

  predicate Pair(elems: Option<seq<Option<AV>>>) {
    elems.Some? && |elems.value| == 2 && elems.value[0].Some? && elems.value[1].Some?
  }

  predicate AllConvert(vs: seq<Option<AV>>) {
    forall i :: 0 <= i < |vs| ==> vs[i].Some?
  }

  /** Operands to match the spelling: one, two bounds, at most a hundred choices, or none. */
  predicate Fits(op: string, arg: Arg) {
    || (Unary(op) && arg.whole.Some?)
    || (AnyCase(op, "BETWEEN") && Pair(arg.elems))
    || (AnyCase(op, "IN") && arg.elems.Some? && |arg.elems.value| <= 100 && AllConvert(arg.elems.value))
    || Existential(op)
  }

  /** What the builder takes. */
  predicate Served(d: Dialect, field: string, op: string, arg: Arg) {
    d.valid(field) && arg.accepted && Fits(op, arg)
  }

  // ----- how the table evaluates the verbs

  /** The table's comparisons, verb by verb. */
  function Real(o: Comparer): Semantics {
    (verb: Verb, a: Option<AV>, args: seq<AV>) => VerbHolds(o, verb, a, args)
  }

  predicate VerbHolds(o: Comparer, verb: Verb, a: Option<AV>, args: seq<AV>) {
    match verb
    case Eq => |args| == 1 && a == Some(args[0])
    case Ne => |args| == 1 && a != Some(args[0])
    case Lt => |args| == 1 && a.Some? && o.less(a.value, args[0])
    case Le => |args| == 1 && a.Some? && o.AtMost(a.value, args[0])
    case Gt => |args| == 1 && a.Some? && o.less(args[0], a.value)
    case Ge => |args| == 1 && a.Some? && o.AtMost(args[0], a.value)
    case Between => |args| == 2 && a.Some? && o.AtMost(args[0], a.value) && o.AtMost(a.value, args[1])
    case In => a.Some? && a.value in args
    case BeginsWith => |args| == 1 && a.Some? && o.begins(a.value, args[0])
    case Contains => |args| == 1 && a.Some? && o.contains(a.value, args[0])
    case Exists => a.Some?
    case NotExists => a.None?
    case _ => false
  }

  lemma {:induction false} ConvertedIff(vs: seq<Option<AV>>)
    ensures Converted(vs).Some? <==> AllConvert(vs)
    decreases |vs|
  {
    if vs != [] {
      ConvertedIff(vs[1..]);
      if AllConvert(vs[1..]) && vs[0].Some? {
        forall i | 0 <= i < |vs| ensures vs[i].Some? {
          if i > 0 { assert vs[i] == vs[1..][i - 1]; }
        }
      }
    }
  }

  lemma OneConverted(v: Option<AV>)
    ensures Converted([v]) == if v.Some? then Some([v.value]) else None
  {
    if v.Some? { AllConverted([v], [v.value]); }
  }

  /** The verb the builder prints for a spelling, with the operands it binds, compares as the
      spelling says. */
  lemma VerbSays(o: Comparer, op: string, arg: Arg, a: Option<AV>, verb: Verb)
    requires ParseOperator(op) == Some(verb)
    ensures Operands(verb, arg).Some? ==> (VerbHolds(o, verb, a, Operands(verb, arg).value) <==> SpellingHolds(o, op, a, arg))
  {
    Equalities(op);
    Below(op);
    NotAbove(op);
    Above(op);
    NotBelow(op);
    Ranges(op);
    StringWords(op);
    ExistenceWords(op);
    hide AnyCase, ParseOperator;
    OneConverted(arg.whole);
    hide Converted;
  }

  /** Which operands a spelling takes is read off its verb. */
  predicate Classified(op: string, verb: Option<Verb>) {
    && (verb.Some? <==> Known(op))
    && (Unary(op) <==> verb.Some? && verb.value in {Eq, Ne, Lt, Le, Gt, Ge, BeginsWith, Contains})
    && (Existential(op) <==> verb == Some(Exists) || verb == Some(NotExists))
    && (AnyCase(op, "BETWEEN") <==> verb == Some(Between)) && (AnyCase(op, "IN") <==> verb == Some(In))
  }

  lemma Classify(op: string)
    ensures Classified(op, ParseOperator(op))
  {
    KnownParses(op);
    Equalities(op);
    Below(op);
    NotAbove(op);
    Above(op);
    NotBelow(op);
    Ranges(op);
    StringWords(op);
    ExistenceWords(op);
    hide AnyCase, ParseOperator;
  }

  lemma OperandsIff(op: string, verb: Verb, arg: Arg)
    requires Classified(op, Some(verb))
    ensures Operands(verb, arg).Some? <==> Fits(op, arg)
  {
    OneConverted(arg.whole);
    if arg.elems.Some? { ConvertedIff(arg.elems.value); }
    hide Converted, Unary, Existential, Known, AnyCase;
  }

  lemma ServedIff(d: Dialect, field: string, op: string, arg: Arg)
    ensures Wanted(d, field, op, arg).Some? <==> Served(d, field, op, arg)
  {
    Classify(op);
    if Known(op) {
      KnownIsAllowed(op);
      OperandsIff(op, ParseOperator(op).value, arg);
    }
    hide AnyCase, ParseOperator, OperatorAllowed, Operands, Unary, Existential;
  }

  function At(item: Item, field: string): Option<AV> {
    if Split(field) in item then Some(item[Split(field)]) else None
  }

  /** A condition, read off what its author wrote. */
  predicate Meant(o: Comparer, item: Item, c: Condition) {
    SpellingHolds(o, c.op, At(item, c.field), c.arg)
  }

  /** For every condition: the builder takes it exactly when it knows the spelling and the
      operands fit, and what it then prints holds of exactly the items the spelling names. */
  lemma ConditionMeansSpelling(d: Dialect, o: Comparer, item: Item, c: Condition)
    ensures Meets(d, Real(o), item, c) <==> Served(d, c.field, c.op, c.arg) && Meant(o, item, c)
  {
    ServedIff(d, c.field, c.op, c.arg);
    if Wanted(d, c.field, c.op, c.arg).Some? {
      VerbSays(o, c.op, c.arg, At(item, c.field), ParseOperator(c.op).value);
    }
    hide AnyCase, ParseOperator, Served, SpellingHolds, VerbHolds, Operands;
  }

  // ----- whole queries and guards

  lemma RealIsExact(o: Comparer)
    ensures EqualityIsExact(Real(o)) && ExistenceIsExact(Real(o)) && AbsenceIsExact(Real(o))
  {
  }

  /** Every Where condition holds of the item as spelled, on the attribute its field is stored in. */
  ghost predicate WheresMeant(o: Comparer, q: Query, item: Item) {
    forall j, stored :: 0 <= j < |q.conditions| && StandsFor(q.meta, q.conditions[j], stored) ==> Meant(o, item, stored)
  }

  lemma {:induction false} NormalizedMembers(m: Metadata, cs: seq<Condition>, c: Condition)
    ensures c in NormalizedSeq(m, cs) <==> exists j :: 0 <= j < |cs| && c == Normalized(m, cs[j])
    decreases |cs|
  {
    if cs != [] {
      NormalizedMembers(m, cs[1..], c);
      if c in NormalizedSeq(m, cs[1..]) {
        var j :| 0 <= j < |cs[1..]| && c == Normalized(m, cs[1..][j]);
        assert cs[j + 1] == cs[1..][j];
      }
      if j :| 0 <= j < |cs| && c == Normalized(m, cs[j]) {
        if j > 0 { assert cs[1..][j - 1] == cs[j]; }
      }
    }
  }

  /** A compiled query took every Where condition. */
  lemma AllTakenOnce(d: Dialect, q: Query, p: Plan, c: Condition)
    requires Planned(q, p) && Takes(d, p.keys) && Takes(d, p.filters) && c in NormalizedSeq(q.meta, q.conditions)
    ensures Served(d, c.field, c.op, c.arg)
  {
    var onKey: Condition -> bool :| SplitBy(q, p, onKey);
    SelectPartitions(q.meta, q.conditions, onKey, c);
    ServedIff(d, c.field, c.op, c.arg);
    hide Wanted, Served;
    if c in p.keys {
      var i :| 0 <= i < |p.keys| && p.keys[i] == c;
    } else {
      var i :| 0 <= i < |p.filters| && p.filters[i] == c;
    }
  }

  lemma WheresMeantIff(d: Dialect, o: Comparer, q: Query, p: Plan, item: Item)
    requires Planned(q, p) && Takes(d, p.keys) && Takes(d, p.filters)
    ensures MeetsAll(d, Real(o), item, NormalizedSeq(q.meta, q.conditions)) <==> WheresMeant(o, q, item)
  {
    var all := NormalizedSeq(q.meta, q.conditions);
    forall c | c in all ensures Meets(d, Real(o), item, c) <==> Meant(o, item, c) {
      AllTakenOnce(d, q, p, c);
      ConditionMeansSpelling(d, o, item, c);
    }
    forall c ensures c in all <==> exists j :: 0 <= j < |q.conditions| && StandsFor(q.meta, q.conditions[j], c) {
      NormalizedMembers(q.meta, q.conditions, c);
      forall j | 0 <= j < |q.conditions| ensures StandsFor(q.meta, q.conditions[j], c) <==> c == Normalized(q.meta, q.conditions[j]) {
        StandsForNormalized(q.meta, q.conditions[j], c);
      }
    }
    hide Meets, Meant, StandsFor, NormalizedSeq, Normalized;
  }

  /** The compiled query over tables, in the words of its author.  For every query without an
      explicit index, with the table's real comparisons: what the chosen index holds and the
      compiled query matches is exactly every item of which each Where holds as spelled, and
      the filter as built. */
  lemma CompiledQueryFindsSpelled(d: Dialect, q: Query, start: Draft, p: Plan, chosen: Option<IndexSchema>, end: Draft, c: Compiled,
                                  parts: set<string>, o: Comparer, table: seq<Item>)
    requires CompilesTo(d, q, start, p, chosen, end, Some(c)) && q.index == "" && Consistent(q.meta)
    requires Ready(d, start, parts) && Uses(d, Requests(q, p), parts) && Or !in start.filterOps && AllComplete(q.meta, chosen, table)
    ensures Said(start, Filters).Some?
    ensures forall i :: 0 <= i < |table| ==>
              (Visible(q.meta, chosen, table[i]) && Matches(Real(o), table[i], c) <==>
               WheresMeant(o, q, table[i]) && EvalChain(Real(o), table[i], Said(start, Filters).value, start.filterOps))
  {
    assert Planned(q, p) && Takes(d, p.keys) && Takes(d, p.filters) && Said(start, Filters).Some?;
    RealIsExact(o);
    hide Planned, Takes, CompilesTo, Consistent, Ready, Uses, AllComplete, EqualityIsExact, Visible, Matches, WheresMeant, EvalChain, Said, MeetsAll, NormalizedSeq, Real;
    CompiledQueryFindsIntended(d, q, start, p, chosen, end, c, parts, Real(o), table);
    forall i | 0 <= i < |table|
      ensures Visible(q.meta, chosen, table[i]) && Matches(Real(o), table[i], c) <==>
              WheresMeant(o, q, table[i]) && EvalChain(Real(o), table[i], Said(start, Filters).value, start.filterOps)
    {
      WheresMeantIff(d, o, q, p, table[i]);
    }
  }

  function Written(q: Request): Condition
    requires q.AddFilter?
  {
    Condition(q.field, q.op, q.arg)
  }

  lemma FilterMeant(d: Dialect, o: Comparer, item: Item, q: Request)
    requires q.AddFilter? && Served(d, q.field, q.op, q.arg)
    ensures Asked(d, q).Some? && Extra(d, q, Filters) == [Asked(d, q).value]
    ensures Eval(Real(o), item, Asked(d, q).value) <==> Meant(o, item, Written(q))
  {
    var c := Written(q);
    ConditionMeansSpelling(d, o, item, c);
    ServedIff(d, c.field, c.op, c.arg);
    assert Asked(d, q) == Wanted(d, c.field, c.op, c.arg);
    hide Wanted, Meant, Served, Eval;
  }

  /** What Filter and OrFilter calls leave evaluates, call by call, to what they spell. */
  lemma {:induction false} FiltersMeant(d: Dialect, o: Comparer, item: Item, qs: seq<Request>)
    requires forall i :: 0 <= i < |qs| ==> qs[i].AddFilter? && Served(d, qs[i].field, qs[i].op, qs[i].arg)
    ensures var ms := AllAsked(d, qs, Filters);
            |ms| == |qs| && forall i :: 0 <= i < |qs| ==> (Eval(Real(o), item, ms[i]) <==> Meant(o, item, Written(qs[i])))
    decreases |qs|
  {
    if qs != [] {
      hide Meant, Served, Eval, Asked, Extra, Written;
      FilterMeant(d, o, item, qs[0]);
      var rest := qs[1..];
      assert forall i :: 0 <= i < |rest| ==> rest[i] == qs[i + 1];
      FiltersMeant(d, o, item, rest);
      assert AllAsked(d, qs, Filters) == [Asked(d, qs[0]).value] + AllAsked(d, rest, Filters);
      hide AllAsked;
    }
  }

  /** What the guard of a write asks, in the words of its author. */
  ghost predicate GuardMeant(o: Comparer, item: Item, q: Query, writes: seq<Condition>, raws: seq<Raw>, mode: Mode) {
    && (forall c :: c in writes ==> Meant(o, item, c))
    && (forall i, stored :: Kept(q, mode, i, stored) ==> Meant(o, item, stored))
    && (Defaulted(q, writes, raws, mode) ==> forall attr :: KeyStoredIn(q.meta, q.meta.partitionKey, attr) ==> At(item, attr).None?)
  }

  /** A guard that was built asks exactly what its conditions spell. */
  lemma GuardMeansSpelling(d: Dialect, o: Comparer, item: Item, q: Query, writes: seq<Condition>, raws: seq<Raw>, mode: Mode, cs: seq<Condition>)
    requires Collects(q, writes, raws, mode, cs) && Takes(d, cs)
    ensures GuardAsks(d, Real(o), item, q, writes, raws, mode) <==> GuardMeant(o, item, q, writes, raws, mode)
  {
    forall c | c in cs ensures Meets(d, Real(o), item, c) <==> Meant(o, item, c) {
      var i :| 0 <= i < |cs| && cs[i] == c;
      ServedIff(d, c.field, c.op, c.arg);
      ConditionMeansSpelling(d, o, item, c);
    }
    hide Takes, Meets, Meant, Kept, Defaulted, KeyStoredIn, Real;
  }
}
