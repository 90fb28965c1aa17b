/** Filter groups of pkg/query: a group is built on a builder of its own, whose counters start
    at zero, and its maps then overwrite the parent's. */
module Groups {
  import opened Wrappers
  import opened AttributeValues
  import opened Expressions
  import opened Builder

  ghost predicate Agree(e: Env, g: Env) {
    && (forall k :: k in e.names && k in g.names ==> e.names[k] == g.names[k])
    && (forall k :: k in e.values && k in g.values ==> e.values[k] == g.values[k])
  }

  /** Merging a group keeps every earlier binding if and only if the two maps agree. */
  lemma GroupKeepsIffAgree(b: Draft, logic: Logic, g: Draft)
    ensures Extends(b.env, WithGroup(b, logic, g).env) <==> Agree(b.env, g.env)
  {
    var e' := WithGroup(b, logic, g).env;
    if !Agree(b.env, g.env) {
      if k :| k in b.env.names && k in g.env.names && b.env.names[k] != g.env.names[k] {
        assert e'.names[k] == g.env.names[k];
      } else {
        var k :| k in b.env.values && k in g.env.values && b.env.values[k] != g.env.values[k];
        assert e'.values[k] == g.env.values[k];
      }
    }
  }

  /** When the maps agree, earlier conditions are untouched and the filter gains exactly
      the parenthesised group under the given operator. */
  lemma GroupAddsItself(b: Draft, logic: Logic, g: Draft, slot: Slot)
    requires Agree(b.env, g.env) && Said(b, slot).Some? && Said(g, Filters).Some?
    ensures var b' := WithGroup(b, logic, g);
            Said(b', slot) == if slot == Filters && g.filters != []
                              then Some(Said(b, slot).value + [Grouped(Said(g, Filters).value, g.filterOps)])
                              else Said(b, slot)
  {
    var b' := WithGroup(b, logic, g);
    DecodeAllStable(b.env, b'.env, b.At(slot));
    DecodeAllStable(g.env, b'.env, g.filters);
    if slot == Filters && g.filters != [] {
      DecodeAppend(b'.env, b.filters, Group(g.filters, g.filterOps));
    }
  }

  /** What a run of requests leaves in the values map: placeholders 1..n for n operands. */
  ghost predicate ValuesList(e: Env, vs: seq<AV>) {
    && e.valueCounter == |vs| && Carries(e.values, 0, vs)
    && forall k :: k in e.values ==> exists i: nat :: 1 <= i <= |vs| && k == ValueRef(i)
  }

  lemma HoldsStill(values: map<string, AV>, m: nat, u: AV, n: nat, v: AV)
    requires Holds(values, m, u) && m != n
    ensures Holds(values[ValueRef(n) := v], m, u)
  {
    RefsDistinct(m, n, "");
  }

  lemma ValuesListOne(e: Env, vs: seq<AV>, v: AV)
    requires ValuesList(e, vs)
    ensures ValuesList(e.(values := e.values[ValueRef(e.valueCounter + 1) := v], valueCounter := e.valueCounter + 1), vs + [v])
  {
    var values, us := e.values[ValueRef(e.valueCounter + 1) := v], vs + [v];
    forall i: nat | i < |us| ensures Holds(values, 0 + 1 + i, us[i]) {
      if i < |vs| {
        HoldsStill(e.values, i + 1, vs[i], |vs| + 1, v);
      }
    }
    hide Holds, ValueRef;
    forall k | k in values ensures exists i: nat :: 1 <= i <= |us| && k == ValueRef(i) {
      if k in e.values {
        var i: nat :| 1 <= i <= |vs| && k == ValueRef(i);
        assert 1 <= i <= |us|;
      } else {
        assert k == ValueRef(|us|);
      }
    }
  }

  lemma {:induction false} ValuesListGrows(e: Env, vs: seq<AV>, ws: seq<AV>, e': Env)
    requires ValuesList(e, vs) && ValuesAdded(e, ws, e')
    ensures ValuesList(e', vs + ws)
    decreases |ws|
  {
    if ws == [] {
      assert vs + ws == vs;
    } else {
      ValuesListOne(e, vs, ws[0]);
      hide ValuesList;
      var e1 := e.(values := e.values[ValueRef(e.valueCounter + 1) := ws[0]], valueCounter := e.valueCounter + 1);
      ValuesListGrows(e1, vs + [ws[0]], ws[1..], e');
      assert (vs + [ws[0]]) + ws[1..] == vs + ws;
    }
  }

  /** The parent's counters do not move, so its next operands are safe exactly when the
      group used no more operands than the parent had. */
  lemma NextOperandsSafeIff(b: Draft, vs: seq<AV>, logic: Logic, g: Draft, ws: seq<AV>)
    requires ValuesList(b.env, vs) && ValuesList(g.env, ws)
    ensures (forall n: nat :: n > b.env.valueCounter ==> ValueRef(n) !in WithGroup(b, logic, g).env.values) <==> |ws| <= |vs|
  {
    var values := WithGroup(b, logic, g).env.values;
    if |ws| <= |vs| {
      forall n: nat | n > |vs| ensures ValueRef(n) !in values {
        forall i: nat | 1 <= i <= |vs| || 1 <= i <= |ws| ensures ValueRef(i) != ValueRef(n) { RefsDistinct(i, n, ""); }
      }
    } else {
      assert Holds(g.env.values, 0 + 1 + |vs|, ws[|vs|]);
      assert ValueRef(|vs| + 1) in values;
    }
  }

  /** And its next names are safe exactly when, past the parent's last turn, the group bound
      reserved words only. */
  lemma NextNamesSafeIff(d: Dialect, b: Draft, ns: seq<string>, logic: Logic, g: Draft, ms: seq<string>)
    requires NamesList(d, b.env, ns) && NamesList(d, g.env, ms)
    ensures (forall n: nat :: n > b.env.nameCounter ==> NameRef(n) !in WithGroup(b, logic, g).env.names)
       <==> (forall i :: |ns| <= i < |ms| ==> Reserved(d, ms[i]))
  {
    var names := WithGroup(b, logic, g).env.names;
    if forall i :: |ns| <= i < |ms| ==> Reserved(d, ms[i]) {
      forall n: nat | n > |ns| ensures NameRef(n) !in names {
        forall i | 0 <= i < |ns| ensures RefAt(d, ns, i) != NameRef(n) { RefsDistinct(i + 1, n, ns[i]); RefsDistinct(n, n, ns[i]); }
        forall i | 0 <= i < |ms| ensures RefAt(d, ms, i) != NameRef(n) { RefsDistinct(i + 1, n, ms[i]); RefsDistinct(n, n, ms[i]); }
      }
    } else {
      var i :| |ns| <= i < |ms| && !Reserved(d, ms[i]);
      assert Named(d, g.env.names, ms, i);
      assert NameRef(i + 1) in names;
    }
  }

  /** A group's builder starts its counters at zero, so the values agree exactly when, up
      to the shorter list, parent and group used the same operands in the same order. */
  lemma ValuesAgreeIffSamePrefix(e: Env, vs: seq<AV>, g: Env, ws: seq<AV>)
    requires ValuesList(e, vs) && ValuesList(g, ws)
    ensures (forall k :: k in e.values && k in g.values ==> e.values[k] == g.values[k])
       <==> SamePrefix(vs, ws)
  {
    if forall k :: k in e.values && k in g.values ==> e.values[k] == g.values[k] {
      forall i | 0 <= i < |vs| && i < |ws| ensures vs[i] == ws[i] {
        assert Holds(e.values, 0 + 1 + i, vs[i]) && Holds(g.values, 0 + 1 + i, ws[i]);
      }
    }
    if SamePrefix(vs, ws) {
      forall k | k in e.values && k in g.values ensures e.values[k] == g.values[k] {
        var i: nat :| 1 <= i <= |vs| && k == ValueRef(i);
        var j: nat :| 1 <= j <= |ws| && k == ValueRef(j);
        RefsDistinct(i, j, "");
        assert Holds(e.values, 0 + 1 + (i - 1), vs[i - 1]) && Holds(g.values, 0 + 1 + (i - 1), ws[i - 1]);
      }
    }
  }

  /** What a run of requests leaves in the names map: the parts it bound, in order, the n-th
      under #n<n> or, if it is a reserved word, under the word itself. */
  ghost predicate NamesList(d: Dialect, e: Env, ns: seq<string>) {
    && e.nameCounter == |ns| && (forall i :: 0 <= i < |ns| ==> Named(d, e.names, ns, i))
    && forall k :: k in e.names ==> exists i :: 0 <= i < |ns| && k == RefAt(d, ns, i)
  }

  function RefAt(d: Dialect, ns: seq<string>, i: int): string
    requires 0 <= i < |ns|
  {
    RefFor(d, ns[i], i + 1)
  }

  predicate Named(d: Dialect, names: map<string, string>, ns: seq<string>, i: int)
    requires 0 <= i < |ns|
  {
    RefAt(d, ns, i) in names && names[RefAt(d, ns, i)] == ns[i]
  }

  predicate Among(ns: seq<string>, parts: set<string>) {
    forall i :: 0 <= i < |ns| ==> ns[i] in parts
  }

  /** Two parts share a placeholder only at the same turn, or as the same reserved word. */
  lemma RefsShared(d: Dialect, p: string, m: nat, q: string, n: nat, parts: set<string>)
    requires NoVariants(d, parts) && p in parts && q in parts
    ensures RefFor(d, p, m) == RefFor(d, q, n) <==> if Reserved(d, p) || Reserved(d, q) then p == q else m == n
  {
    RefsDistinct(n, m, p);
    RefsDistinct(m, n, q);
    WordRefUpper(p, q);
    hide NameRef, WordRef, Upper;
  }

  lemma NamesListOne(d: Dialect, e: Env, ns: seq<string>, p: string, parts: set<string>)
    requires NamesList(d, e, ns) && Among(ns, parts) && p in parts && NoVariants(d, parts)
    ensures NamesList(d, e.(names := e.names[RefFor(d, p, e.nameCounter + 1) := p], nameCounter := e.nameCounter + 1), ns + [p])
  {
    var ms := ns + [p];
    var ref := RefFor(d, p, |ns| + 1);
    var names := e.names[ref := p];
    assert RefAt(d, ms, |ns|) == ref;
    forall i | 0 <= i < |ms| ensures Named(d, names, ms, i) {
      if i < |ns| {
        assert Named(d, e.names, ns, i) && ms[i] == ns[i];
        RefsShared(d, ns[i], i + 1, p, |ns| + 1, parts);
      }
    }
    hide RefFor, Named;
    forall k | k in names ensures exists i :: 0 <= i < |ms| && k == RefAt(d, ms, i) {
      if k != ref {
        var i :| 0 <= i < |ns| && k == RefAt(d, ns, i);
        assert RefAt(d, ms, i) == k;
      }
    }
  }

  /** The names agree exactly when no turn bound two different unreserved parts. */
  lemma NamesAgreeIff(d: Dialect, e: Env, ns: seq<string>, g: Env, ms: seq<string>, parts: set<string>)
    requires NamesList(d, e, ns) && NamesList(d, g, ms) && Among(ns, parts) && Among(ms, parts) && NoVariants(d, parts)
    ensures (forall k :: k in e.names && k in g.names ==> e.names[k] == g.names[k]) <==> SameTurns(d, ns, ms)
  {
    if forall k :: k in e.names && k in g.names ==> e.names[k] == g.names[k] {
      forall i | 0 <= i < |ns| && i < |ms| && !Reserved(d, ns[i]) && !Reserved(d, ms[i]) ensures ns[i] == ms[i] {
        assert Named(d, e.names, ns, i) && Named(d, g.names, ms, i);
      }
    }
    if SameTurns(d, ns, ms) {
      forall k | k in e.names && k in g.names ensures e.names[k] == g.names[k] {
        var i :| 0 <= i < |ns| && k == RefAt(d, ns, i);
        var j :| 0 <= j < |ms| && k == RefAt(d, ms, j);
        assert Named(d, e.names, ns, i) && Named(d, g.names, ms, j);
        RefsShared(d, ns[i], i + 1, ms[j], j + 1, parts);
      }
    }
  }

  predicate SameTurns(d: Dialect, ns: seq<string>, ms: seq<string>) {
    forall i :: 0 <= i < |ns| && i < |ms| && !Reserved(d, ns[i]) && !Reserved(d, ms[i]) ==> ns[i] == ms[i]
  }

  predicate SamePrefix(vs: seq<AV>, ws: seq<AV>) {
    forall i :: 0 <= i < |vs| && i < |ws| ==> vs[i] == ws[i]
  }

  // ----- what a run of accepted requests leaves in the maps

  /** The operands of the requests, in order. */
  function AllOperands(d: Dialect, qs: seq<Request>): seq<AV> {
    if qs == [] then [] else Args(d, qs[0]) + AllOperands(d, qs[1..])
  }

  /** The parts the requests bind, in order: a field that is itself a bound part binds
      nothing, any other binds each of its dotted parts. */
  function FreshParts(ns: seq<string>, qs: seq<Request>): seq<string>
    decreases |qs|
  {
    if qs == [] then ns
    else FreshParts(if qs[0].field in ns then ns else ns + Split(qs[0].field), qs[1..])
  }

  lemma BoundIffListed(d: Dialect, e: Env, ns: seq<string>, field: string)
    requires NamesList(d, e, ns)
    ensures field in e.names.Values <==> field in ns
  {
    if field in e.names.Values {
      var k :| k in e.names && e.names[k] == field;
      var i :| 0 <= i < |ns| && k == RefAt(d, ns, i);
      assert Named(d, e.names, ns, i);
    }
    if field in ns {
      var i :| 0 <= i < |ns| && ns[i] == field;
      assert Named(d, e.names, ns, i);
    }
  }

  lemma {:induction false} NamesListGrows(d: Dialect, e: Env, ns: seq<string>, fields: seq<string>, parts: set<string>)
    requires NamesList(d, e, ns) && Among(ns, parts) && Among(fields, parts) && NoVariants(d, parts)
    requires forall i :: 0 <= i < |fields| ==> d.valid(fields[i])
    ensures var b := BindParts(d, e.names, e.nameCounter, fields);
            NamesList(d, e.(names := b.names, nameCounter := b.counter), ns + fields)
    decreases |fields|
  {
    if fields == [] {
      assert ns + fields == ns;
    } else {
      var p, rest := fields[0], fields[1..];
      NamesListOne(d, e, ns, p, parts);
      hide NamesList, RefFor;
      var e1 := e.(names := e.names[RefFor(d, p, e.nameCounter + 1) := p], nameCounter := e.nameCounter + 1);
      assert forall i :: 0 <= i < |rest| ==> rest[i] == fields[i + 1];
      NamesListGrows(d, e1, ns + [p], rest, parts);
      assert (ns + [p]) + rest == ns + fields;
    }
  }

  lemma NameEnvList(d: Dialect, e: Env, ns: seq<string>, field: string, parts: set<string>)
    requires NamesList(d, e, ns) && Among(ns, parts) && Among(Split(field), parts) && NoVariants(d, parts) && FieldOk(d, field)
    ensures var ms := if field in ns then ns else ns + Split(field);
            NamesList(d, NameEnv(d, e, field), ms) && Among(ms, parts)
  {
    BoundIffListed(d, e, ns, field);
    hide NamesList, NoVariants;
    if field !in ns {
      NamesListGrows(d, e, ns, Split(field), parts);
    }
  }

  lemma ListsFrame(d: Dialect, e: Env, ns: seq<string>, vs: seq<AV>, field: string, ws: seq<AV>)
    ensures ValuesList(e, vs) ==> ValuesList(NameEnv(d, e, field), vs)
    ensures NamesList(d, e, ns) ==> NamesList(d, ValuesEnv(e, ws), ns)
  {
    hide BindParts, Split;
  }

  /** Any run of accepted requests leaves its operands under the next :v placeholders and its
      new parts under the placeholders of their turns, and nothing else. */
  lemma {:induction false} RunLists(d: Dialect, e: Env, qs: seq<Request>, vs: seq<AV>, ns: seq<string>, parts: set<string>)
    requires Uses(d, qs, parts) && NoVariants(d, parts) && AllTaken(d, qs)
    requires ValuesList(e, vs) && NamesList(d, e, ns) && Among(ns, parts)
    ensures ValuesList(EnvAfter(d, e, qs), vs + AllOperands(d, qs))
    ensures NamesList(d, EnvAfter(d, e, qs), FreshParts(ns, qs)) && Among(FreshParts(ns, qs), parts)
    decreases |qs|
  {
    hide Uses, AllTaken, NoVariants, ValuesList, NamesList, Among, Args, Split, NameEnv, ValuesEnv;
    if qs == [] {
      assert AllOperands(d, qs) == [] && vs + [] == vs;
    } else {
      var q, rest := qs[0], qs[1..];
      UsesSplit(d, qs, parts);
      TakenRest(d, e, qs, ns);
      hide EnvAfter, AllOperands, FreshParts;
      ListsStep(d, e, q, vs, ns, parts);
      var ms := if q.field in ns then ns else ns + Split(q.field);
      RunLists(d, ValuesEnv(NameEnv(d, e, q.field), Args(d, q)), rest, vs + Args(d, q), ms, parts);
      assert (vs + Args(d, q)) + AllOperands(d, rest) == vs + (Args(d, q) + AllOperands(d, rest));
    }
  }

  lemma TakenRest(d: Dialect, e: Env, qs: seq<Request>, ns: seq<string>)
    requires qs != []
    ensures AllTaken(d, qs) ==> AllTaken(d, qs[1..])
    ensures EnvAfter(d, e, qs) == EnvAfter(d, ValuesEnv(NameEnv(d, e, qs[0].field), Args(d, qs[0])), qs[1..])
    ensures AllOperands(d, qs) == Args(d, qs[0]) + AllOperands(d, qs[1..])
    ensures FreshParts(ns, qs) == FreshParts(if qs[0].field in ns then ns else ns + Split(qs[0].field), qs[1..])
  {
    assert forall i :: 0 <= i < |qs[1..]| ==> qs[1..][i] == qs[i + 1];
  }

  lemma ListsStep(d: Dialect, e: Env, q: Request, vs: seq<AV>, ns: seq<string>, parts: set<string>)
    requires Uses(d, [q], parts) && NoVariants(d, parts)
    requires ValuesList(e, vs) && NamesList(d, e, ns) && Among(ns, parts)
    ensures var e' := ValuesEnv(NameEnv(d, e, q.field), Args(d, q));
            var ms := if q.field in ns then ns else ns + Split(q.field);
            ValuesList(e', vs + Args(d, q)) && NamesList(d, e', ms) && Among(ms, parts)
  {
    assert [q][0] == q;
    assert Among(Split(q.field), parts) && FieldOk(d, q.field);
    var mid, ws := NameEnv(d, e, q.field), Args(d, q);
    assert ValuesAdded(mid, ws, ValuesEnv(mid, ws));
    hide Uses, NoVariants, ValuesList, NamesList, Among, FieldOk, Args, Split, NameEnv, ValuesEnv, ValuesAdded;
    NameEnvList(d, e, ns, q.field, parts);
    var ms := if q.field in ns then ns else ns + Split(q.field);
    ListsFrame(d, e, ns, vs, q.field, ws);
    ListsFrame(d, mid, ms, vs, q.field, ws);
    ValuesListGrows(mid, vs, ws, ValuesEnv(mid, ws));
  }

  /** The same, from a new builder. */
  lemma NewBuilderLists(d: Dialect, qs: seq<Request>, b: Draft, parts: set<string>)
    requires Run(d, Empty(), qs, b) && Uses(d, qs, parts) && NoVariants(d, parts) && AllTaken(d, qs)
    ensures ValuesList(b.env, AllOperands(d, qs)) && NamesList(d, b.env, FreshParts([], qs)) && Among(FreshParts([], qs), parts)
  {
    assert ValuesList(Empty().env, []) && NamesList(d, Empty().env, []) && Among([], parts);
    hide Run, Uses, NoVariants, AllTaken, ValuesList, NamesList, Among, Empty;
    TakenRunEnv(d, Empty(), qs, b);
    RunLists(d, Empty().env, qs, [], [], parts);
    assert [] + AllOperands(d, qs) == AllOperands(d, qs);
  }

  // ----- every placeholder is used

  ghost predicate UsesValue(b: Draft, k: string) {
    exists slot, i :: 0 <= i < |b.At(slot)| && b.At(slot)[i].Atom? && k in b.At(slot)[i].vals
  }

  ghost predicate UsesName(b: Draft, k: string) {
    exists slot, i :: 0 <= i < |b.At(slot)| && b.At(slot)[i].Atom? && k in b.At(slot)[i].path
  }

  ghost predicate Covered(b: Draft) {
    (forall k :: k in b.env.values ==> UsesValue(b, k)) && (forall k :: k in b.env.names ==> UsesName(b, k))
  }

  lemma {:induction false} BindPartsCovers(d: Dialect, names: map<string, string>, counter: nat, ps: seq<string>)
    requires forall i :: 0 <= i < |ps| ==> d.valid(ps[i])
    ensures var b := BindParts(d, names, counter, ps); b.ok && forall k :: k in b.names ==> k in names || k in b.refs
    decreases |ps|
  {
    if ps != [] {
      var ref := RefFor(d, ps[0], counter + 1);
      BindPartsCovers(d, names[ref := ps[0]], counter + 1, ps[1..]);
    }
  }

  lemma {:induction false} BindValuesCovers(values: map<string, AV>, counter: nat, vs: seq<AV>)
    ensures forall k :: k in BindValues(values, counter, vs) ==> k in values || k in ValueRefs(counter, |vs|)
    decreases |vs|
  {
    if vs != [] {
      BindValuesCovers(values[ValueRef(counter + 1) := vs[0]], counter + 1, vs[1..]);
      var refs, rest := ValueRefs(counter, |vs|), ValueRefs(counter + 1, |vs| - 1);
      assert refs[0] == ValueRef(counter + 1);
      assert forall i :: 0 <= i < |rest| ==> rest[i] == refs[i + 1];
    }
  }

  lemma BoundCovers(d: Dialect, e: Env, field: string, verb: Verb, vs: seq<AV>, e': Env, f: Frag)
    requires Bound2(d, e, field, verb, vs, e', f) && FieldOk(d, field)
    ensures f.Atom? && (forall k :: k in e'.values ==> k in e.values || k in f.vals) && (forall k :: k in e'.names ==> k in e.names || k in f.path)
  {
    var mid, path := BoundParts(d, e, field, verb, vs, e', f);
    BindPartsCovers(d, e.names, e.nameCounter, Split(field));
    BindValuesCovers(mid.values, mid.valueCounter, vs);
  }

  lemma StepCovers(d: Dialect, b: Draft, q: Request, m: Draft)
    requires Stepped(d, b, q, m) && Asked(d, q).Some? && FieldOk(d, q.field) && Covered(b)
    ensures Covered(m)
  {
    hide Stepped;
    var e, r := StepParts(d, b, q, m);
    AskedPath(d, q);
    var w := Asked(d, q).value;
    BoundCovers(d, b.env, q.field, w.verb, w.args, e, r.value);
    hide Built, Asked, FieldOk, Covered;
    CoversMore(b, m, SlotOf(q), r.value);
  }

  lemma CoversMore(b: Draft, m: Draft, slot: Slot, f: Frag)
    requires Covered(b) && f.Atom?
    requires forall s :: m.At(s) == if s == slot then b.At(s) + [f] else b.At(s)
    requires (forall k :: k in m.env.values ==> k in b.env.values || k in f.vals) && (forall k :: k in m.env.names ==> k in b.env.names || k in f.path)
    ensures Covered(m)
  {
    assert m.At(slot)[|b.At(slot)|] == f;
    assert forall s, i :: 0 <= i < |b.At(s)| ==> i < |m.At(s)| && m.At(s)[i] == b.At(s)[i];
    forall k | k in m.env.values ensures UsesValue(m, k) {
      if k !in f.vals {
        var s, i :| 0 <= i < |b.At(s)| && b.At(s)[i].Atom? && k in b.At(s)[i].vals;
        assert m.At(s)[i] == b.At(s)[i];
      }
    }
    forall k | k in m.env.names ensures UsesName(m, k) {
      if k !in f.path {
        var s, i :| 0 <= i < |b.At(s)| && b.At(s)[i].Atom? && k in b.At(s)[i].path;
        assert m.At(s)[i] == b.At(s)[i];
      }
    }
  }

  lemma {:induction false} RunCovers(d: Dialect, b: Draft, qs: seq<Request>, b': Draft)
    requires Run(d, b, qs, b') && AllTaken(d, qs) && Covered(b) && forall i :: 0 <= i < |qs| ==> FieldOk(d, qs[i].field)
    ensures Covered(b')
    decreases |qs|
  {
    if qs != [] {
      hide Stepped, Asked, Covered, FieldOk;
      var m := RunFirst(d, b, qs, b');
      StepCovers(d, b, qs[0], m);
      RunCovers(d, m, qs[1..], b');
    }
  }

  lemma SameReading(e: Env, e': Env, f: Frag)
    requires f.Atom? && Decode(e, f).Some? && Decode(e', f) == Decode(e, f)
    ensures forall k :: k in f.vals ==> k in e.values && k in e'.values && e'.values[k] == e.values[k]
    ensures forall k :: k in f.path ==> k in e.names && k in e'.names && e'.names[k] == e.names[k]
  {
    var m, m' := Decode(e, f).value, Decode(e', f).value;
    forall k | k in f.vals ensures k in e.values && k in e'.values && e'.values[k] == e.values[k] {
      var i :| 0 <= i < |f.vals| && f.vals[i] == k;
      assert m.args[i] == e.values[k] && m'.args[i] == e'.values[k];
    }
    forall k | k in f.path ensures k in e.names && k in e'.names && e'.names[k] == e.names[k] {
      var i :| 0 <= i < |f.path| && f.path[i] == k;
      assert m.path[i] == e.names[k] && m'.path[i] == e'.names[k];
    }
  }

  /** Where every placeholder is used, keeping what all fragments say is keeping the bindings. */
  lemma MeaningKeptIffExtends(b: Draft, e': Env)
    requires Covered(b) && forall slot :: Said(b, slot).Some?
    ensures (forall slot :: DecodeAll(e', b.At(slot)) == Said(b, slot)) <==> Extends(b.env, e')
  {
    if Extends(b.env, e') {
      forall slot ensures DecodeAll(e', b.At(slot)) == Said(b, slot) {
        assert Said(b, slot).Some?;
        DecodeAllStable(b.env, e', b.At(slot));
      }
    }
    if forall slot :: DecodeAll(e', b.At(slot)) == Said(b, slot) {
      forall slot, i | 0 <= i < |b.At(slot)| ensures Decode(e', b.At(slot)[i]) == Decode(b.env, b.At(slot)[i]) && Decode(b.env, b.At(slot)[i]).Some? {
        assert DecodeAll(e', b.At(slot)) == Said(b, slot);
        DecodeEach(b.env, b.At(slot), i);
        DecodeEach(e', b.At(slot), i);
      }
      hide DecodeAll, Decode;
      forall k | k in b.env.values ensures k in e'.values && e'.values[k] == b.env.values[k] {
        assert UsesValue(b, k);
        var slot, i :| 0 <= i < |b.At(slot)| && b.At(slot)[i].Atom? && k in b.At(slot)[i].vals;
        SameReading(b.env, e', b.At(slot)[i]);
      }
      forall k | k in b.env.names ensures k in e'.names && e'.names[k] == b.env.names[k] {
        assert UsesName(b, k);
        var slot, i :| 0 <= i < |b.At(slot)| && b.At(slot)[i].Atom? && k in b.At(slot)[i].path;
        SameReading(b.env, e', b.At(slot)[i]);
      }
    }
  }

  // ----- which groups are safe

  /** Read off the two queries: turn by turn, the same operands and the same unreserved names. */
  predicate SafeGroup(d: Dialect, qs: seq<Request>, rs: seq<Request>) {
    SamePrefix(AllOperands(d, qs), AllOperands(d, rs)) && SameTurns(d, FreshParts([], qs), FreshParts([], rs))
  }

  /** Which filter groups are safe.  Given the calls made on the parent and on the group,
      merging keeps what every earlier condition says if and only if, up to the shorter of
      the two, they used the same operands in the same order, and wherever both bound an
      unreserved name at the same turn it was the same name. */
  lemma GroupSafeIff(d: Dialect, qs: seq<Request>, b: Draft, logic: Logic, rs: seq<Request>, g: Draft, parts: set<string>)
    requires Run(d, Empty(), qs, b) && AllTaken(d, qs) && Run(d, Empty(), rs, g) && AllTaken(d, rs)
    requires Uses(d, qs, parts) && Uses(d, rs, parts) && NoVariants(d, parts)
    ensures (forall slot :: DecodeAll(WithGroup(b, logic, g).env, b.At(slot)) == Said(b, slot)) <==> SafeGroup(d, qs, rs)
  {
    NewBuilderLists(d, qs, b, parts);
    NewBuilderLists(d, rs, g, parts);
    GroupKeepsIffAgree(b, logic, g);
    assert Covered(Empty());
    assert forall i :: 0 <= i < |qs| ==> FieldOk(d, qs[i].field);
    RunCovers(d, Empty(), qs, b);
    hide Covered, Uses, FieldOk, AllTaken;
    forall slot ensures Said(b, slot).Some? {
      EmptySays(parts, slot);
      RunSays(d, Empty(), qs, b, parts, slot);
    }
    ValuesAgreeIffSamePrefix(b.env, AllOperands(d, qs), g.env, AllOperands(d, rs));
    NamesAgreeIff(d, b.env, FreshParts([], qs), g.env, FreshParts([], rs), parts);
    hide Run, NoVariants, ValuesList, NamesList, Among, Empty, Said, DecodeAll, SamePrefix, SameTurns, AllOperands, FreshParts, Extends, WithGroup;
    MeaningKeptIffExtends(b, WithGroup(b, logic, g).env);
  }

  /** What a safe group adds: exactly its own filters, parenthesised. */
  lemma SafeGroupSays(d: Dialect, qs: seq<Request>, b: Draft, logic: Logic, rs: seq<Request>, g: Draft, parts: set<string>)
    requires Run(d, Empty(), qs, b) && AllTaken(d, qs) && Run(d, Empty(), rs, g) && AllTaken(d, rs)
    requires Uses(d, qs, parts) && Uses(d, rs, parts) && NoVariants(d, parts) && SafeGroup(d, qs, rs) && g.filters != []
    ensures Said(WithGroup(b, logic, g), Filters) == Some(AllAsked(d, qs, Filters) + [Grouped(AllAsked(d, rs, Filters), g.filterOps)])
  {
    NewBuilderLists(d, qs, b, parts);
    NewBuilderLists(d, rs, g, parts);
    ValuesAgreeIffSamePrefix(b.env, AllOperands(d, qs), g.env, AllOperands(d, rs));
    NamesAgreeIff(d, b.env, FreshParts([], qs), g.env, FreshParts([], rs), parts);
    hide ValuesList, NamesList, Among, SamePrefix, SameTurns, AllOperands, FreshParts, NoVariants, Uses, AllTaken;
    EmptySays(parts, Filters);
    RunSays(d, Empty(), qs, b, parts, Filters);
    RunSays(d, Empty(), rs, g, parts, Filters);
    hide Run, Empty, DecodeAll, AllAsked, WithGroup;
    Reassociate(AllAsked(d, qs, Filters), [], []);
    Reassociate(AllAsked(d, rs, Filters), [], []);
    GroupAddsItself(b, logic, g, Filters);
  }

  /** The failing family: any earlier comparison whose first operand differs from the
      group's first operand says something else once the group is merged. */
  lemma GroupRewritesFirstOperand(b: Draft, vs: seq<AV>, logic: Logic, g: Draft, ws: seq<AV>, f: Frag)
    requires ValuesList(b.env, vs) && ValuesList(g.env, ws) && vs != [] && ws != [] && vs[0] != ws[0]
    requires f.Atom? && f.vals == [ValueRef(1)] && Decode(b.env, f).Some?
    ensures var b' := WithGroup(b, logic, g);
            Decode(b'.env, f).Some? && Decode(b.env, f).value.args == [vs[0]] && Decode(b'.env, f).value.args == [ws[0]]
  {
    assert Holds(b.env.values, 0 + 1 + 0, vs[0]) && Holds(g.env.values, 0 + 1 + 0, ws[0]);
    var b' := WithGroup(b, logic, g);
    assert Bound(b'.env, f.path, f.vals);
  }

  /** A concrete victim: Filter(a = 1) followed by FilterGroup(b = 2), whatever states these
      calls leave, reads back as b = 2 AND (b = 2). */
  lemma GroupSwallowsFilter(valid: string -> bool) returns (parent: Draft, group: Draft)
    requires valid("a") && valid("b")
    ensures var d := Dialect({}, valid);
            && Run(d, Empty(), [AddFilter(And, "a", "=", Operand(N("1")))], parent) && Run(d, Empty(), [AddFilter(And, "b", "=", Operand(N("2")))], group)
            && Said(parent, Filters) == Some([Says(["a"], Eq, [N("1")])])
            && Said(WithGroup(parent, And, group), Filters) == Some([Says(["b"], Eq, [N("2")]), Grouped([Says(["b"], Eq, [N("2")])], [])])
  {
    hide Run;
    var d := Dialect({}, valid);
    parent := OneFilter(d, "a", N("1"));
    group := OneFilter(d, "b", N("2"));
    var f := Atom(["#n1"], Eq, [":v1"]);
    var e' := WithGroup(parent, And, group).env;
    var b2 := Says(["b"], Eq, [N("2")]);
    assert e'.names["#n1"] == "b" && e'.values[":v1"] == N("2");
    hide Run;
    ReadOne(e', "#n1", Eq, ":v1");
    DecodeSingle(e', f);
    DecodeAppend(e', [f], Group([f], []));
    assert Decode(e', Group([f], [])) == Some(Grouped([b2], []));
    assert WithGroup(parent, And, group).filters == [f] + [Group([f], [])];
    assert [b2] + [Grouped([b2], [])] == [b2, Grouped([b2], [])];
  }

  function Operand(v: AV): Arg {
    Arg(true, Some(v), None)
  }

  /** What one Filter call leaves on a new builder. */
  lemma OneFilter(d: Dialect, field: string, v: AV) returns (b: Draft)
    requires d.reserved == {} && d.valid(field) && field != "" && '.' !in field
    ensures Run(d, Empty(), [AddFilter(And, field, "=", Operand(v))], b)
    ensures b.env == Env(map["#n1" := field], map[":v1" := v], 1, 1) && b.filters == [Atom(["#n1"], Eq, [":v1"])] && b.filterOps == []
    ensures Said(b, Filters) == Some([Says([field], Eq, [v])])
  {
    var q := AddFilter(And, field, "=", Operand(v));
    EqualsAsked(d, field, v);
    OneBinding(d, field, v);
    var e1 := Env(map["#n1" := field], map[], 1, 0);
    var e2 := Env(map["#n1" := field], map[":v1" := v], 1, 1);
    var f := Atom(["#n1"], Eq, [":v1"]);
    hide Asked, NameAdded, ValuesAdded, ValueRefs, Stepped;
    TakenWith(d, Empty(), q, e1, ["#n1"], e2, f);
    b := Put(Empty(), e2, q, Some(f));
    assert b.filters == [f] && [q][1..] == [];
    assert Run(d, b, [], b);
    ReadOne(e2, "#n1", Eq, ":v1");
    DecodeSingle(e2, f);
  }

  lemma OneBinding(d: Dialect, field: string, v: AV)
    requires d.reserved == {} && d.valid(field) && '.' !in field
    ensures Split(field) == [field] && ValueRefs(0, 1) == [":v1"]
    ensures NameAdded(d, Empty().env, field, Env(map["#n1" := field], map[], 1, 0), ["#n1"])
    ensures ValuesAdded(Env(map["#n1" := field], map[], 1, 0), [v], Env(map["#n1" := field], map[":v1" := v], 1, 1))
  {
    SplitPlain(field);
    var none: map<string, string>, empty: map<string, AV> := map[], map[];
    assert NameRef(1) == "#n1" && ValueRef(1) == ":v1" && [field][1..] == [] && [v][1..] == [];
    assert BindParts(d, none, 0, [field]) == Binding(map["#n1" := field], 1, ["#n1"], true) by {
      assert BindParts(d, map["#n1" := field], 1, []) == Binding(map["#n1" := field], 1, [], true);
    }
    assert BindValues(empty, 0, [v]) == BindValues(map[":v1" := v], 1, []);
  }

  lemma EqualsAsked(d: Dialect, field: string, v: AV)
    requires d.valid(field)
    ensures Asked(d, AddFilter(And, field, "=", Operand(v))) == Some(Says(Split(field), Eq, [v]))
  {
    assert Upper("=") == "=" && Trim("=") == "=";
    AllConverted([Some(v)], [v]);
  }
}
