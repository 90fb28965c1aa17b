/** Any sequence of Filter, OrFilter, FilterGroup and OrFilterGroup calls, groups inside groups
    included: when the filter that comes out reads back as it was asked for. */
module GroupCalls {
  import opened Wrappers
  import opened AttributeValues
  import opened Expressions
  import opened Builder

  datatype Call =
    | Ask(logic: Logic, field: string, op: string, arg: Arg)
    | Nest(logic: Logic, calls: seq<Call>)

  function RequestOf(c: Call): Request
    requires c.Ask?
  {
    AddFilter(c.logic, c.field, c.op, c.arg)
  }

  /** The builder before and after: a group is made on a new builder and then merged. */
  ghost predicate MadeOne(d: Dialect, b: Draft, c: Call, b': Draft)
    decreases c
  {
    match c
    case Ask(_, _, _, _) => Stepped(d, b, RequestOf(c), b')
    case Nest(logic, calls) => exists g :: Made(d, Empty(), calls, g) && b' == WithGroup(b, logic, g)
  }

  ghost predicate Made(d: Dialect, b: Draft, calls: seq<Call>, b': Draft)
    decreases calls
  {
    if calls == [] then b' == b else exists m :: MadeOne(d, b, calls[0], m) && Made(d, m, calls[1..], b')
  }

  /** Every call is accepted, with a field the validator takes whole and part by part. */
  predicate AcceptedOne(d: Dialect, c: Call)
    decreases c
  {
    match c
    case Ask(_, field, _, _) => Asked(d, RequestOf(c)).Some? && FieldOk(d, field)
    case Nest(_, calls) => Accepted(d, calls)
  }

  predicate Accepted(d: Dialect, calls: seq<Call>)
    decreases calls
  {
    calls == [] || (AcceptedOne(d, calls[0]) && Accepted(d, calls[1..]))
  }

  // ----- what was asked for

  function IntentOf(d: Dialect, c: Call): seq<Meaning>
    decreases c
  {
    match c
    case Ask(_, _, _, _) => (match Asked(d, RequestOf(c)) case Some(m) => [m] case None => [])
    case Nest(_, calls) => if Intents(d, calls) == [] then [] else [Grouped(Intents(d, calls), Joints(Links(d, calls)))]
  }

  function Intents(d: Dialect, calls: seq<Call>): seq<Meaning>
    decreases calls
  {
    if calls == [] then [] else IntentOf(d, calls[0]) + Intents(d, calls[1..])
  }

  /** The operator each part was added under; the first one's joins nothing. */
  function Links(d: Dialect, calls: seq<Call>): seq<Logic>
    decreases calls
  {
    if calls == [] then [] else (if IntentOf(d, calls[0]) == [] then [] else [calls[0].logic]) + Links(d, calls[1..])
  }

  function Joints(ls: seq<Logic>): seq<Logic> {
    if ls == [] then [] else ls[1..]
  }

  // ----- who uses which placeholder for what

  type Marks<T(==)> = set<(string, T)>

  function Pairs<T(==)>(refs: seq<string>, xs: seq<T>): Marks<T> {
    set i | 0 <= i < |refs| && i < |xs| :: (refs[i], xs[i])
  }

  /** No placeholder stands for two different things. */
  predicate NoClash<T(==)>(s: Marks<T>) {
    forall p, q :: p in s && q in s && p.0 == q.0 ==> p == q
  }

  /** Read off the calls alone: every builder, the parent and each group, numbers its operands
      and its new names from one; a name that is already there is not numbered again. */
  datatype Turns = Turns(names: Marks<string>, nameCounter: nat, values: Marks<AV>, valueCounter: nat)

  const NONE: Turns := Turns({}, 0, {}, 0)

  function Known(names: Marks<string>): set<string> {
    set p | p in names :: p.1
  }

  function TurnRefs(d: Dialect, counter: nat, parts: seq<string>): (r: seq<string>)
    ensures |r| == |parts| && forall i :: 0 <= i < |parts| ==> r[i] == RefFor(d, parts[i], counter + 1 + i)
  {
    seq(|parts|, i requires 0 <= i < |parts| => RefFor(d, parts[i], counter + 1 + i))
  }

  function NameTurn(d: Dialect, s: Turns, field: string): Turns {
    if field in Known(s.names) then s
    else s.(names := s.names + Pairs(TurnRefs(d, s.nameCounter, Split(field)), Split(field)), nameCounter := s.nameCounter + |Split(field)|)
  }

  function ValueTurn(s: Turns, vs: seq<AV>): Turns {
    s.(values := s.values + Pairs(ValueRefs(s.valueCounter, |vs|), vs), valueCounter := s.valueCounter + |vs|)
  }

  function TurnOf(d: Dialect, s: Turns, c: Call): Turns
    decreases c
  {
    match c
    case Ask(_, field, _, _) => ValueTurn(NameTurn(d, s, field), Args(d, RequestOf(c)))
    case Nest(_, calls) => var g := TurnsOf(d, NONE, calls); s.(names := s.names + g.names, values := s.values + g.values)
  }

  function TurnsOf(d: Dialect, s: Turns, calls: seq<Call>): Turns
    decreases calls
  {
    if calls == [] then s else TurnsOf(d, TurnOf(d, s, calls[0]), calls[1..])
  }

  // ----- what fragments claim of their placeholders

  datatype Claims = Claims(names: Marks<string>, values: Marks<AV>)

  function Both(a: Claims, b: Claims): Claims {
    Claims(a.names + b.names, a.values + b.values)
  }

  function ClaimsOf(f: Frag, m: Meaning): Claims
    decreases f
  {
    match (f, m)
    case (Atom(path, _, vals), Says(parts, _, args)) => Claims(Pairs(path, parts), Pairs(vals, args))
    case (Group(frags, _), Grouped(ms, _)) => ClaimsAll(frags, ms)
    case _ => Claims({}, {})
  }

  function ClaimsAll(fs: seq<Frag>, ms: seq<Meaning>): Claims
    decreases fs
  {
    if fs == [] || ms == [] then Claims({}, {}) else Both(ClaimsOf(fs[0], ms[0]), ClaimsAll(fs[1..], ms[1..]))
  }

  /** A fragment has the shape of what it should say; only its placeholders may be wrong. */
  predicate Fits(f: Frag, m: Meaning)
    decreases f
  {
    match (f, m)
    case (Atom(path, verb, vals), Says(parts, verb', args)) => |path| == |parts| && verb == verb' && |vals| == |args|
    case (Group(frags, ops), Grouped(ms, ops')) => ops == ops' && FitsAll(frags, ms)
    case _ => false
  }

  predicate FitsAll(fs: seq<Frag>, ms: seq<Meaning>)
    decreases fs
  {
    if fs == [] || ms == [] then fs == [] && ms == [] else Fits(fs[0], ms[0]) && FitsAll(fs[1..], ms[1..])
  }

  predicate Bears<T(==)>(m: map<string, T>, s: Marks<T>) {
    forall p :: p in s ==> p.0 in m && m[p.0] == p.1
  }

  ghost predicate HoldIn(e: Env, c: Claims) {
    Bears(e.names, c.names) && Bears(e.values, c.values)
  }

  lemma BearsBoth<T>(m: map<string, T>, a: Marks<T>, b: Marks<T>)
    ensures Bears(m, a + b) <==> Bears(m, a) && Bears(m, b)
  {
    if Bears(m, a + b) {
      forall p | p in a ensures p.0 in m && m[p.0] == p.1 { assert p in a + b; }
      forall p | p in b ensures p.0 in m && m[p.0] == p.1 { assert p in a + b; }
    }
  }

  lemma BearsPairs<T>(m: map<string, T>, refs: seq<string>, xs: seq<T>)
    requires |refs| == |xs|
    ensures Bears(m, Pairs(refs, xs)) <==> forall i :: 0 <= i < |refs| ==> refs[i] in m && m[refs[i]] == xs[i]
  {
    if Bears(m, Pairs(refs, xs)) {
      forall i | 0 <= i < |refs| ensures refs[i] in m && m[refs[i]] == xs[i] { assert (refs[i], xs[i]) in Pairs(refs, xs); }
    }
  }

  lemma AtomReads(e: Env, path: seq<string>, verb: Verb, vals: seq<string>, parts: seq<string>, args: seq<AV>)
    requires |path| == |parts| && |vals| == |args|
    ensures Decode(e, Atom(path, verb, vals)) == Some(Says(parts, verb, args)) <==> HoldIn(e, Claims(Pairs(path, parts), Pairs(vals, args)))
  {
    BearsPairs(e.names, path, parts);
    BearsPairs(e.values, vals, args);
    hide Bears, Pairs;
    var r := Decode(e, Atom(path, verb, vals));
    if r == Some(Says(parts, verb, args)) {
      assert forall i :: 0 <= i < |path| ==> e.names[path[i]] == parts[i];
      assert forall i :: 0 <= i < |vals| ==> e.values[vals[i]] == args[i];
    }
    if HoldIn(e, Claims(Pairs(path, parts), Pairs(vals, args))) {
      assert Bound(e, path, vals);
      assert r.value.path == parts && r.value.args == args;
    }
  }

  /** A fragment says what it should exactly when its claims hold. */
  lemma {:induction false} DecodeIff(e: Env, f: Frag, m: Meaning)
    requires Fits(f, m)
    ensures Decode(e, f) == Some(m) <==> HoldIn(e, ClaimsOf(f, m))
    decreases f
  {
    match (f, m)
    case (Atom(path, verb, vals), Says(parts, _, args)) => AtomReads(e, path, verb, vals, parts, args);
    case (Group(frags, ops), Grouped(ms, _)) => DecodeAllIff(e, frags, ms);
  }

  lemma {:induction false} DecodeAllIff(e: Env, fs: seq<Frag>, ms: seq<Meaning>)
    requires FitsAll(fs, ms)
    ensures DecodeAll(e, fs) == Some(ms) <==> HoldIn(e, ClaimsAll(fs, ms))
    decreases fs
  {
    if fs != [] {
      DecodeIff(e, fs[0], ms[0]);
      DecodeAllIff(e, fs[1..], ms[1..]);
      var a, b := ClaimsOf(fs[0], ms[0]), ClaimsAll(fs[1..], ms[1..]);
      BearsBoth(e.names, a.names, b.names);
      BearsBoth(e.values, a.values, b.values);
      hide Bears;
      assert ms == [ms[0]] + ms[1..];
    }
  }

  lemma {:induction false} ClaimsAppend(fs: seq<Frag>, ms: seq<Meaning>, f: Frag, m: Meaning)
    requires FitsAll(fs, ms) && Fits(f, m)
    ensures FitsAll(fs + [f], ms + [m]) && ClaimsAll(fs + [f], ms + [m]) == Both(ClaimsAll(fs, ms), ClaimsOf(f, m))
    decreases |fs|
  {
    hide Fits, ClaimsOf;
    if fs == [] {
      assert fs + [f] == [f] && ms + [m] == [m] && [f][1..] == [] && [m][1..] == [];
      assert FitsAll([f][1..], [m][1..]) && ClaimsAll([f][1..], [m][1..]) == Claims({}, {});
    } else {
      assert (fs + [f])[0] == fs[0] && (fs + [f])[1..] == fs[1..] + [f] && (ms + [m])[0] == ms[0] && (ms + [m])[1..] == ms[1..] + [m];
      ClaimsAppend(fs[1..], ms[1..], f, m);
    }
  }

  // ----- the maps hold claims and nothing else

  predicate Backs<T(==)>(m: map<string, T>, s: Marks<T>) {
    (forall k :: k in m ==> (k, m[k]) in s) && (forall p :: p in s ==> p.0 in m)
  }

  lemma BearsIffNoClash<T>(m: map<string, T>, s: Marks<T>)
    requires Backs(m, s)
    ensures Bears(m, s) <==> NoClash(s)
  {
    if NoClash(s) {
      forall p | p in s ensures p.0 in m && m[p.0] == p.1 { assert (p.0, m[p.0]) in s; }
    }
  }

  lemma BacksMerged<T>(m: map<string, T>, s: Marks<T>, m': map<string, T>, s': Marks<T>)
    requires Backs(m, s) && Backs(m', s')
    ensures Backs(m + m', s + s')
  {
  }

  /** The filters so far, what they should say, and their claims. */
  ghost predicate Tracked(b: Draft, ms: seq<Meaning>, c: Claims) {
    && FitsAll(b.filters, ms) && c == ClaimsAll(b.filters, ms)
    && Backs(b.env.names, c.names) && Backs(b.env.values, c.values)
    && (forall p :: p in c.names ==> '.' !in p.1)
  }

  lemma SaidIff(b: Draft, ms: seq<Meaning>, c: Claims)
    requires Tracked(b, ms, c)
    ensures Said(b, Filters) == Some(ms) <==> NoClash(c.names) && NoClash(c.values)
  {
    DecodeAllIff(b.env, b.filters, ms);
    BearsIffNoClash(b.env.names, c.names);
    BearsIffNoClash(b.env.values, c.values);
    hide Bears, NoClash, Backs, ClaimsAll, FitsAll, DecodeAll;
  }

  /** The claims are the turns, as long as no name clashes; and names clash in both or in neither. */
  ghost predicate Follows(e: Env, c: Claims, s: Turns) {
    && c.values == s.values && e.valueCounter == s.valueCounter
    && (NoClash(c.names) <==> NoClash(s.names))
    && (NoClash(c.names) ==> c.names == s.names && e.nameCounter == s.nameCounter)
  }

  lemma NoClashFewer<T>(a: Marks<T>, b: Marks<T>)
    requires a <= b && NoClash(b)
    ensures NoClash(a)
  {
  }

  // ----- one Filter call

  lemma {:induction false} BindPartsBacks(d: Dialect, names: map<string, string>, counter: nat, ps: seq<string>, s: Marks<string>)
    requires Backs(names, s) && forall i :: 0 <= i < |ps| ==> d.valid(ps[i])
    ensures var b := BindParts(d, names, counter, ps);
            b.ok && b.refs == TurnRefs(d, counter, ps) && b.counter == counter + |ps| && Backs(b.names, s + Pairs(b.refs, ps))
    decreases |ps|
  {
    hide RefFor, Backs, Pairs;
    if ps == [] {
      PairsNone(TurnRefs(d, counter, ps), ps);
      assert BindParts(d, names, counter, ps).refs == [] == TurnRefs(d, counter, ps);
      assert s + {} == s;
    } else {
      var p, ref, rest := ps[0], RefFor(d, ps[0], counter + 1), ps[1..];
      var refs, b := TurnRefs(d, counter + 1, rest), BindParts(d, names[ref := p], counter + 1, rest);
      TurnsCons(d, counter, ps);
      assert BindParts(d, names, counter, ps) == b.(refs := [ref] + b.refs);
      hide TurnRefs, BindParts;
      BacksOne(names, s, ref, p);
      BindPartsBacks(d, names[ref := p], counter + 1, rest, s + {(ref, p)});
      PairsCons(ref, refs, p, rest);
      assert ps == [p] + rest;
      assert (s + {(ref, p)}) + Pairs(refs, rest) == s + Pairs([ref] + refs, [p] + rest);
    }
  }

  lemma TurnsCons(d: Dialect, counter: nat, ps: seq<string>)
    requires ps != []
    ensures TurnRefs(d, counter, ps) == [RefFor(d, ps[0], counter + 1)] + TurnRefs(d, counter + 1, ps[1..])
  {
    hide RefFor;
  }

  lemma PairsNone<T>(refs: seq<string>, xs: seq<T>)
    requires xs == []
    ensures Pairs(refs, xs) == {}
  {
  }

  lemma BacksOne<T>(m: map<string, T>, s: Marks<T>, k: string, x: T)
    requires Backs(m, s)
    ensures Backs(m[k := x], s + {(k, x)})
  {
  }

  lemma PairsCons<T>(r: string, refs: seq<string>, x: T, xs: seq<T>)
    requires |refs| == |xs|
    ensures Pairs([r] + refs, [x] + xs) == {(r, x)} + Pairs(refs, xs)
  {
    var all, rest := Pairs([r] + refs, [x] + xs), Pairs(refs, xs);
    forall p | p in {(r, x)} + rest ensures p in all {
      if p in rest {
        var i :| 0 <= i < |refs| && i < |xs| && p == (refs[i], xs[i]);
        assert ([r] + refs)[i + 1] == refs[i] && ([x] + xs)[i + 1] == xs[i];
      } else {
        assert ([r] + refs)[0] == r && ([x] + xs)[0] == x;
      }
    }
    forall p | p in all ensures p in {(r, x)} + rest {
      var i :| 0 <= i < |refs| + 1 && i < |xs| + 1 && p == (([r] + refs)[i], ([x] + xs)[i]);
      if i > 0 { assert p == (refs[i - 1], xs[i - 1]); }
    }
  }

  lemma {:induction false} BindValuesBacks(values: map<string, AV>, counter: nat, vs: seq<AV>, s: Marks<AV>)
    requires Backs(values, s)
    ensures Backs(BindValues(values, counter, vs), s + Pairs(ValueRefs(counter, |vs|), vs))
    decreases |vs|
  {
    if vs == [] {
      assert Pairs(ValueRefs(counter, 0), vs) == {} && s + {} == s;
    } else {
      var v, ref, rest := vs[0], ValueRef(counter + 1), vs[1..];
      var refs := ValueRefs(counter + 1, |rest|);
      hide ValueRef, Backs, Pairs;
      assert ValueRefs(counter, |vs|) == [ref] + refs;
      assert BindValues(values, counter, vs) == BindValues(values[ref := v], counter + 1, rest);
      hide BindValues, ValueRefs;
      BacksOne(values, s, ref, v);
      BindValuesBacks(values[ref := v], counter + 1, rest, s + {(ref, v)});
      PairsCons(ref, refs, v, rest);
      assert vs == [v] + rest;
      assert (s + {(ref, v)}) + Pairs(refs, rest) == s + Pairs([ref] + refs, [v] + rest);
    }
  }

  /** A name is reused, and claims nothing new; or its parts take the next turns. */
  lemma NameClaims(d: Dialect, e: Env, field: string, mid: Env, path: seq<string>, s: Marks<string>)
    requires NameAdded(d, e, field, mid, path) && FieldOk(d, field) && Backs(e.names, s) && forall p :: p in s ==> '.' !in p.1
    ensures |path| == |Split(field)| && Backs(mid.names, s + Pairs(path, Split(field))) && mid.values == e.values && mid.valueCounter == e.valueCounter
    ensures if field in e.names.Values then s + Pairs(path, Split(field)) == s && mid.nameCounter == e.nameCounter
            else path == TurnRefs(d, e.nameCounter, Split(field)) && mid.nameCounter == e.nameCounter + |Split(field)|
    ensures forall p :: p in s + Pairs(path, Split(field)) ==> '.' !in p.1
  {
    SplitParts(field);
    if field in e.names.Values {
      assert (path[0], field) in s;
      SplitPlain(field);
      assert Pairs(path, [field]) == {(path[0], field)};
    } else {
      BindPartsBacks(d, e.names, e.nameCounter, Split(field), s);
    }
  }

  /** Without a clash, what is bound is what is known. */
  lemma KnownIffBound(names: map<string, string>, s: Marks<string>, field: string)
    requires Backs(names, s) && NoClash(s)
    ensures field in names.Values <==> field in Known(s)
  {
    if field in names.Values {
      var k :| k in names && names[k] == field;
      assert (k, field) in s;
    }
    if field in Known(s) {
      var p :| p in s && p.1 == field;
      assert (p.0, names[p.0]) in s;
    }
  }

  lemma AskTracks(d: Dialect, b: Draft, c: Call, b': Draft, ms: seq<Meaning>, k: Claims, s: Turns) returns (k': Claims)
    requires c.Ask? && MadeOne(d, b, c, b') && AcceptedOne(d, c) && Tracked(b, ms, k) && Follows(b.env, k, s)
    ensures Tracked(b', ms + IntentOf(d, c), k') && Follows(b'.env, k', TurnOf(d, s, c))
  {
    var q := RequestOf(c);
    AskedPath(d, q);
    var w := Asked(d, q).value;
    hide Stepped;
    var e, r := StepParts(d, b, q, b');
    assert b'.At(Filters) == b.At(Filters) + [r.value];
    hide Asked;
    var mid, path := BoundParts(d, b.env, c.field, w.verb, w.args, e, r.value);
    hide Bound2, Built;
    k' := AtomTracks(d, b, c.field, w, mid, path, e, ms, k, s);
    assert b'.filters == b.filters + [r.value] && b'.env == e;
  }

  /** The fragment, its claims and the turns it takes. */
  lemma AtomTracks(d: Dialect, b: Draft, field: string, w: Meaning, mid: Env, path: seq<string>, e: Env, ms: seq<Meaning>, k: Claims, s: Turns)
    returns (k': Claims)
    requires w.Says? && w.path == Split(field) && NameAdded(d, b.env, field, mid, path) && ValuesAdded(mid, w.args, e) && FieldOk(d, field)
    requires Tracked(b, ms, k) && Follows(b.env, k, s)
    ensures var f := Atom(path, w.verb, ValueRefs(mid.valueCounter, |w.args|));
            Tracked(b.(env := e, filters := b.filters + [f]), ms + [w], k')
    ensures Follows(e, k', ValueTurn(NameTurn(d, s, field), w.args))
  {
    hide FieldOk, Split, NameAdded, BindValues, FitsAll, ClaimsAll, Backs, Pairs, ValueRefs, NoClash, Known;
    var refs := ValueRefs(mid.valueCounter, |w.args|);
    var f := Atom(path, w.verb, refs);
    NameClaims(d, b.env, field, mid, path, k.names);
    BindValuesBacks(mid.values, mid.valueCounter, w.args, k.values);
    assert Fits(f, w) && ClaimsOf(f, w) == Claims(Pairs(path, w.path), Pairs(refs, w.args));
    ClaimsAppend(b.filters, ms, f, w);
    k' := Both(k, ClaimsOf(f, w));
    hide Fits, ClaimsOf;
    NamesFollow(d, b.env, field, path, mid, k.names, s);
  }

  lemma NamesFollow(d: Dialect, e: Env, field: string, path: seq<string>, mid: Env, names: Marks<string>, s: Turns)
    requires Backs(e.names, names) && (NoClash(names) <==> NoClash(s.names)) && (NoClash(names) ==> names == s.names && e.nameCounter == s.nameCounter)
    requires if field in e.names.Values then names + Pairs(path, Split(field)) == names && mid.nameCounter == e.nameCounter
             else path == TurnRefs(d, e.nameCounter, Split(field)) && mid.nameCounter == e.nameCounter + |Split(field)|
    ensures var names', s' := names + Pairs(path, Split(field)), NameTurn(d, s, field);
            && (NoClash(names') <==> NoClash(s'.names)) && (NoClash(names') ==> names' == s'.names && mid.nameCounter == s'.nameCounter)
  {
    var names', s' := names + Pairs(path, Split(field)), NameTurn(d, s, field);
    if NoClash(names) {
      KnownIffBound(e.names, names, field);
    } else {
      if NoClash(names') { NoClashFewer(names, names'); }
      if NoClash(s'.names) { NoClashFewer(s.names, s'.names); }
    }
  }

  // ----- one group

  lemma GroupTracks(d: Dialect, b: Draft, logic: Logic, g: Draft, b': Draft, ms: seq<Meaning>, k: Claims, s: Turns, gms: seq<Meaning>, gk: Claims, gs: Turns)
    returns (k': Claims)
    requires b' == WithGroup(b, logic, g) && Tracked(b, ms, k) && Follows(b.env, k, s) && Tracked(g, gms, gk) && Follows(g.env, gk, gs)
    ensures Tracked(b', ms + if gms == [] then [] else [Grouped(gms, g.filterOps)], k')
    ensures Follows(b'.env, k', s.(names := s.names + gs.names, values := s.values + gs.values))
  {
    hide Backs, NoClash;
    k' := Both(k, gk);
    BacksMerged(b.env.names, k.names, g.env.names, gk.names);
    BacksMerged(b.env.values, k.values, g.env.values, gk.values);
    assert g.filters == [] <==> gms == [];
    if gms == [] {
      assert gk == Claims({}, {}) && ms + [] == ms && k.names + {} == k.names && k.values + {} == k.values;
    } else {
      assert Fits(Group(g.filters, g.filterOps), Grouped(gms, g.filterOps)) && ClaimsOf(Group(g.filters, g.filterOps), Grouped(gms, g.filterOps)) == gk;
      hide Fits, ClaimsOf;
      ClaimsAppend(b.filters, ms, Group(g.filters, g.filterOps), Grouped(gms, g.filterOps));
    }
    hide FitsAll, ClaimsAll;
    MergedFollow(k.names, s.names, gk.names, gs.names);
  }

  lemma MergedFollow(a: Marks<string>, s: Marks<string>, g: Marks<string>, t: Marks<string>)
    requires (NoClash(a) <==> NoClash(s)) && (NoClash(a) ==> a == s) && (NoClash(g) <==> NoClash(t)) && (NoClash(g) ==> g == t)
    ensures (NoClash(a + g) <==> NoClash(s + t)) && (NoClash(a + g) ==> a + g == s + t && NoClash(a))
  {
    if NoClash(a + g) { NoClashFewer(a, a + g); NoClashFewer(g, a + g); }
    if NoClash(s + t) { NoClashFewer(s, s + t); NoClashFewer(t, s + t); }
  }

  // ----- all calls

  lemma {:induction false} MadeOps(d: Dialect, b: Draft, calls: seq<Call>, b': Draft)
    requires Made(d, b, calls, b') && Accepted(d, calls)
    ensures |b'.filters| == |b.filters| + |Links(d, calls)| && b'.filterOps == OpsWith(|b.filters|, b.filterOps, Links(d, calls))
    decreases calls
  {
    if calls == [] {
      assert b.filterOps + [] == b.filterOps;
    } else {
      hide MadeOne, AcceptedOne, OpsWith;
      var m := MadeFirst(d, b, calls, b');
      var l := if IntentOf(d, calls[0]) == [] then [] else [calls[0].logic];
      OneOp(d, b, calls[0], m);
      MadeOps(d, m, calls[1..], b');
      OpsTogether(|b.filters|, b.filterOps, l, Links(d, calls[1..]));
    }
  }

  function OpsWith(n: nat, ops: seq<Logic>, ls: seq<Logic>): seq<Logic> {
    if n == 0 then ops + Joints(ls) else ops + ls
  }

  lemma OpsTogether(n: nat, ops: seq<Logic>, ks: seq<Logic>, ls: seq<Logic>)
    ensures OpsWith(n + |ks|, OpsWith(n, ops, ks), ls) == OpsWith(n, ops, ks + ls)
  {
    if ks == [] {
      assert ks + ls == ls && ops + [] == ops;
    } else if n == 0 {
      assert (ks + ls)[1..] == ks[1..] + ls;
      assert (ops + ks[1..]) + ls == ops + (ks[1..] + ls);
    } else {
      assert (ops + ks) + ls == ops + (ks + ls);
    }
  }

  lemma MadeFirst(d: Dialect, b: Draft, calls: seq<Call>, b': Draft) returns (m: Draft)
    requires calls != [] && Made(d, b, calls, b')
    ensures MadeOne(d, b, calls[0], m) && Made(d, m, calls[1..], b')
  {
    hide MadeOne;
    m :| MadeOne(d, b, calls[0], m) && Made(d, m, calls[1..], b');
  }

  lemma {:induction false} OneOp(d: Dialect, b: Draft, c: Call, m: Draft)
    requires MadeOne(d, b, c, m) && AcceptedOne(d, c)
    ensures var l := if IntentOf(d, c) == [] then [] else [c.logic];
            |m.filters| == |b.filters| + |l| && m.filterOps == OpsWith(|b.filters|, b.filterOps, l)
    decreases c
  {
    match c
    case Ask(_, _, _, _) => AskOp(d, b, c, m);
    case Nest(logic, calls) =>
      var g :| Made(d, Empty(), calls, g) && m == WithGroup(b, logic, g);
      MadeOps(d, Empty(), calls, g);
      SameLength(d, calls);
      hide Made, Accepted, Intents, Links;
      assert b.filterOps + [] == b.filterOps;
  }

  lemma AskOp(d: Dialect, b: Draft, c: Call, m: Draft)
    requires c.Ask? && Stepped(d, b, RequestOf(c), m) && Asked(d, RequestOf(c)).Some?
    ensures |m.filters| == |b.filters| + 1 && m.filterOps == OpsWith(|b.filters|, b.filterOps, [c.logic])
  {
    var e, r :| Built(d, b.env, c.field, Asked(d, RequestOf(c)), e, r) && m == Put(b, e, RequestOf(c), r);
    assert [c.logic][1..] == [] && b.filterOps + [] == b.filterOps;
  }

  lemma {:induction false} SameLength(d: Dialect, calls: seq<Call>)
    ensures Links(d, calls) == [] <==> Intents(d, calls) == []
    decreases calls
  {
    if calls != [] {
      SameLength(d, calls[1..]);
    }
  }

  lemma {:induction false} CallTracks(d: Dialect, b: Draft, c: Call, b': Draft, ms: seq<Meaning>, k: Claims, s: Turns) returns (k': Claims)
    requires MadeOne(d, b, c, b') && AcceptedOne(d, c) && Tracked(b, ms, k) && Follows(b.env, k, s)
    ensures Tracked(b', ms + IntentOf(d, c), k') && Follows(b'.env, k', TurnOf(d, s, c))
    decreases c
  {
    hide Tracked, Follows;
    match c
    case Ask(_, _, _, _) => k' := AskTracks(d, b, c, b', ms, k, s);
    case Nest(logic, calls) =>
      var g :| Made(d, Empty(), calls, g) && b' == WithGroup(b, logic, g);
      NothingTracked();
      var gk := CallsTrack(d, Empty(), calls, g, [], Claims({}, {}), NONE);
      MadeOps(d, Empty(), calls, g);
      assert [] + Intents(d, calls) == Intents(d, calls);
      assert g.filterOps == Joints(Links(d, calls)) by { assert [] + Joints(Links(d, calls)) == Joints(Links(d, calls)); }
      hide Made, Accepted, Intents, Links, TurnsOf, WithGroup;
      k' := GroupTracks(d, b, logic, g, b', ms, k, s, Intents(d, calls), gk, TurnsOf(d, NONE, calls));
  }

  lemma NothingTracked()
    ensures Tracked(Empty(), [], Claims({}, {})) && Follows(Empty().env, Claims({}, {}), NONE)
  {
  }

  lemma {:induction false} CallsTrack(d: Dialect, b: Draft, calls: seq<Call>, b': Draft, ms: seq<Meaning>, k: Claims, s: Turns) returns (k': Claims)
    requires Made(d, b, calls, b') && Accepted(d, calls) && Tracked(b, ms, k) && Follows(b.env, k, s)
    ensures Tracked(b', ms + Intents(d, calls), k') && Follows(b'.env, k', TurnsOf(d, s, calls))
    decreases calls
  {
    hide Tracked, Follows, MadeOne, AcceptedOne, IntentOf, TurnOf;
    k' := k;
    if calls == [] {
      assert ms + [] == ms;
    } else {
      var m := MadeFirst(d, b, calls, b');
      var one := CallTracks(d, b, calls[0], m, ms, k, s);
      k' := CallsTrack(d, m, calls[1..], b', ms + IntentOf(d, calls[0]), one, TurnOf(d, s, calls[0]));
      assert (ms + IntentOf(d, calls[0])) + Intents(d, calls[1..]) == ms + Intents(d, calls);
    }
  }

  /** Which filters read back right.  For any sequence of accepted Filter, OrFilter and group
      calls, groups inside groups included: the filter that comes out says exactly what was
      asked for, parenthesised and joined as asked, if and only if, over all the builders
      involved, no placeholder is given to two different operands or to two different names,
      when each builder numbers its own from one. */
  lemma CallsReadRightIff(d: Dialect, calls: seq<Call>, b: Draft)
    requires Made(d, Empty(), calls, b) && Accepted(d, calls)
    ensures Said(b, Filters) == Some(Intents(d, calls)) <==> NoClash(TurnsOf(d, NONE, calls).names) && NoClash(TurnsOf(d, NONE, calls).values)
    ensures b.filterOps == Joints(Links(d, calls))
  {
    NothingTracked();
    MadeOps(d, Empty(), calls, b);
    assert Empty().filters == [] && Empty().filterOps == [] && [] + Joints(Links(d, calls)) == Joints(Links(d, calls));
    hide Made, Accepted, Tracked, Intents, Links, TurnsOf, NoClash, Empty, Said;
    var k := CallsTrack(d, Empty(), calls, b, [], Claims({}, {}), NONE);
    assert [] + Intents(d, calls) == Intents(d, calls);
    SaidIff(b, Intents(d, calls), k);
  }
}
