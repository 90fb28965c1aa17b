/** Condition expressions as internal/expr emits them and as the table reads them: syntax
    over placeholders, and the meaning it has through the names and values maps. */
module Expressions {
  import opened Wrappers
  import opened AttributeValues

  datatype Logic = And | Or

  /** The comparisons of a condition, and the actions of an update. */
  datatype Verb =
    | Eq | Ne | Lt | Le | Gt | Ge | Between | In | BeginsWith | Contains | Exists | NotExists
    | SetTo(index: Option<nat>) | DefaultTo | AppendTo | PrependTo | JoinTo
    | AddTo | RemoveAt(index: Option<nat>) | DeleteFrom | Project

  /** A fragment the builder emits is an Atom and holds placeholders only (a path is a dotted
      list of them); a hand-written one may name its attributes directly. */
  datatype Frag =
    | Atom(path: seq<string>, verb: Verb, vals: seq<string>)
    | Direct(attrs: seq<string>, verb: Verb, vals: seq<string>)
    | Group(frags: seq<Frag>, ops: seq<Logic>)

  /** What a fragment says once its placeholders are looked up. */
  datatype Meaning =
    | Says(path: seq<string>, verb: Verb, args: seq<AV>)
    | Grouped(parts: seq<Meaning>, ops: seq<Logic>)

  /** The two maps sent along with an expression, and the builder's two counters. */
  datatype Env = Env(names: map<string, string>, values: map<string, AV>, nameCounter: nat, valueCounter: nat)

  // ----- reading fragments through the maps

  predicate Bound(e: Env, path: seq<string>, vals: seq<string>) {
    (forall i :: 0 <= i < |path| ==> path[i] in e.names) && (forall i :: 0 <= i < |vals| ==> vals[i] in e.values)
  }

  function Decode(e: Env, f: Frag): (m: Option<Meaning>)
    decreases f, 0
  {
    match f
    case Atom(path, verb, vals) =>
      if Bound(e, path, vals)
      then Some(Says(seq(|path|, i requires 0 <= i < |path| => e.names[path[i]]), verb,
                     seq(|vals|, i requires 0 <= i < |vals| => e.values[vals[i]])))
      else None
    case Direct(attrs, verb, vals) =>
      if Bound(e, [], vals)
      then Some(Says(attrs, verb, seq(|vals|, i requires 0 <= i < |vals| => e.values[vals[i]])))
      else None
    case Group(frags, ops) =>
      match DecodeAll(e, frags)
      case Some(ms) => Some(Grouped(ms, ops))
      case None => None
  }

  function DecodeAll(e: Env, fs: seq<Frag>): (ms: Option<seq<Meaning>>)
    decreases fs, 1
    ensures ms.Some? ==> |ms.value| == |fs|
  {
    if fs == [] then Some([]) else
      match (Decode(e, fs[0]), DecodeAll(e, fs[1..]))
      case (Some(m), Some(ms)) => Some([m] + ms)
      case _ => None
  }

  lemma {:induction false} DecodeAppend(e: Env, fs: seq<Frag>, f: Frag)
    ensures DecodeAll(e, fs + [f]) ==
            if DecodeAll(e, fs).Some? && Decode(e, f).Some?
            then Some(DecodeAll(e, fs).value + [Decode(e, f).value]) else None
    decreases |fs|
  {
    if fs == [] {
      assert fs + [f] == [f] && [f][1..] == fs;
      var none: seq<Meaning> := [];
      if Decode(e, f).Some? {
        assert [Decode(e, f).value] + none == none + [Decode(e, f).value];
      }
    } else {
      assert (fs + [f])[0] == fs[0] && (fs + [f])[1..] == fs[1..] + [f];
      DecodeAppend(e, fs[1..], f);
      if DecodeAll(e, fs).Some? && Decode(e, f).Some? {
        assert [Decode(e, fs[0]).value] + (DecodeAll(e, fs[1..]).value + [Decode(e, f).value])
            == DecodeAll(e, fs).value + [Decode(e, f).value];
      }
    }
  }

  lemma {:induction false} DecodeEach(e: Env, fs: seq<Frag>, i: nat)
    requires i < |fs| && DecodeAll(e, fs).Some?
    ensures Decode(e, fs[i]) == Some(DecodeAll(e, fs).value[i])
    decreases i
  {
    if i > 0 {
      DecodeEach(e, fs[1..], i - 1);
    }
  }

  // ----- evaluating meanings on an item; AND binds tighter than OR

  type Item = map<seq<string>, AV>

  /** How one comparison treats an attribute that may be missing: left open. */
  type Semantics = (Verb, Option<AV>, seq<AV>) -> bool

  function Chain(acc: bool, ops: seq<Logic>, vs: seq<bool>): bool
    requires |ops| == |vs|
    decreases |vs|
  {
    if vs == [] then acc
    else if ops[0] == And then Chain(acc && vs[0], ops[1..], vs[1..])
    else acc || Chain(vs[0], ops[1..], vs[1..])
  }

  function Eval(sem: Semantics, item: Item, m: Meaning): bool
    decreases m, 0
  {
    match m
    case Says(path, verb, args) => sem(verb, if path in item then Some(item[path]) else None, args)
    case Grouped(parts, ops) => EvalChain(sem, item, parts, ops)
  }

  function EvalAll(sem: Semantics, item: Item, ms: seq<Meaning>): (vs: seq<bool>)
    decreases ms, 1
    ensures |vs| == |ms|
    ensures forall i :: 0 <= i < |ms| ==> vs[i] == Eval(sem, item, ms[i])
  {
    if ms == [] then [] else [Eval(sem, item, ms[0])] + EvalAll(sem, item, ms[1..])
  }

  /** An empty expression restricts nothing; a malformed one (Build never makes it) matches nothing. */
  function EvalChain(sem: Semantics, item: Item, ms: seq<Meaning>, ops: seq<Logic>): bool
    decreases ms, 2
  {
    if ms == [] then true
    else if |ops| != |ms| - 1 then false
    else var vs := EvalAll(sem, item, ms); Chain(vs[0], ops, vs[1..])
  }

  predicate EvalEvery(sem: Semantics, item: Item, ms: seq<Meaning>) {
    forall i :: 0 <= i < |ms| ==> Eval(sem, item, ms[i])
  }

  function Ands(n: nat): (r: seq<Logic>)
    ensures |r| == n && forall i :: 0 <= i < n ==> r[i] == And
  {
    seq(n, _ => And)
  }

  predicate AllTrue(vs: seq<bool>) {
    forall i :: 0 <= i < |vs| ==> vs[i]
  }

  lemma AllTrueCons(vs: seq<bool>)
    requires vs != []
    ensures AllTrue(vs) == (vs[0] && AllTrue(vs[1..]))
  {
    assert forall i :: 1 <= i < |vs| ==> vs[i] == vs[1..][i - 1];
  }

  lemma EveryOfAll(sem: Semantics, item: Item, ms: seq<Meaning>)
    ensures EvalEvery(sem, item, ms) == AllTrue(EvalAll(sem, item, ms))
  {
    var vs := EvalAll(sem, item, ms);
    if EvalEvery(sem, item, ms) {
      forall i | 0 <= i < |vs| ensures vs[i] { assert Eval(sem, item, ms[i]); }
    } else {
      var i :| 0 <= i < |ms| && !Eval(sem, item, ms[i]);
      assert !vs[i];
    }
  }

  /** Everything before the last OR of a chain, and the run of ANDs after it. */
  function BeforeLastOr(acc: bool, ops: seq<Logic>, vs: seq<bool>): bool
    requires |ops| == |vs|
    decreases |vs|
  {
    if vs == [] || Or !in ops then false
    else if ops[0] == And then BeforeLastOr(acc && vs[0], ops[1..], vs[1..])
    else acc || BeforeLastOr(vs[0], ops[1..], vs[1..])
  }

  function LastRun(acc: bool, ops: seq<Logic>, vs: seq<bool>): bool
    requires |ops| == |vs|
    decreases |vs|
  {
    if vs == [] then acc
    else if ops[0] == And then LastRun(acc && vs[0], ops[1..], vs[1..])
    else LastRun(vs[0], ops[1..], vs[1..])
  }

  /** Appending AND-ed conditions to a chain strengthens its last run only. */
  lemma {:induction false} ChainAppendAnds(acc: bool, ops: seq<Logic>, vs: seq<bool>, ws: seq<bool>)
    requires |ops| == |vs|
    ensures Chain(acc, ops + Ands(|ws|), vs + ws)
         == (BeforeLastOr(acc, ops, vs) || (LastRun(acc, ops, vs) && AllTrue(ws)))
    decreases |vs|, |ws|
  {
    if vs == [] {
      assert ops + Ands(|ws|) == Ands(|ws|) && vs + ws == ws;
      AllAnds(acc, ws);
    } else {
      assert (ops + Ands(|ws|))[1..] == ops[1..] + Ands(|ws|) && (vs + ws)[1..] == vs[1..] + ws;
      ChainAppendAnds(if ops[0] == And then acc && vs[0] else vs[0], ops[1..], vs[1..], ws);
      if Or !in ops {
        NoOrBefore(acc && vs[0], ops[1..], vs[1..]);
      } else if ops[0] == And {
        assert Or in ops[1..];
      }
    }
  }

  /** If everything holds, any chain of it does. */
  lemma {:induction false} AllTrueChains(acc: bool, ops: seq<Logic>, vs: seq<bool>)
    requires |ops| == |vs| && acc && AllTrue(vs)
    ensures Chain(acc, ops, vs)
    decreases |vs|
  {
    if vs != [] {
      AllTrueCons(vs);
      AllTrueChains(acc && vs[0], ops[1..], vs[1..]);
    }
  }

  /** A chain whose run from its last OR on is all true holds, whatever comes before. */
  lemma {:induction false} LastRunHolds(acc: bool, ops: seq<Logic>, vs: seq<bool>, j: nat)
    requires |ops| == |vs| && j < |ops| && ops[j] == Or && forall i :: j <= i < |vs| ==> vs[i]
    ensures Chain(acc, ops, vs)
    decreases j
  {
    if j == 0 {
      AllTrueChains(vs[0], ops[1..], vs[1..]);
    } else {
      LastRunHolds(if ops[0] == And then acc && vs[0] else vs[0], ops[1..], vs[1..], j - 1);
    }
  }

  /** True from position j on, false before. */
  function TrueFrom(n: nat, j: nat): (vs: seq<bool>)
    ensures |vs| == n && forall i :: 0 <= i < n ==> vs[i] == (j <= i)
  {
    seq(n, i => j <= i)
  }

  /** An OR after the first condition matters: with all conditions from it on true and the
      others false, the chain holds and the conjunction does not. */
  lemma OrSeparates(ls: seq<Logic>, j: nat)
    requires 1 <= j < |ls| && ls[j] == Or
    ensures var vs := TrueFrom(|ls|, j); Chain(vs[0], ls[1..], vs[1..]) && !Chain(vs[0], Ands(|ls| - 1), vs[1..])
  {
    var vs := TrueFrom(|ls|, j);
    assert forall i :: j - 1 <= i < |vs[1..]| ==> vs[1..][i];
    LastRunHolds(vs[0], ls[1..], vs[1..], j - 1);
    AllAnds(vs[0], vs[1..]);
  }

  /** Dropping the operators is harmless, whatever the conditions evaluate to, if and only if
      there is no OR after the first condition. */
  lemma DroppingIsSafeIff(ls: seq<Logic>)
    requires ls != []
    ensures (forall vs: seq<bool> :: |vs| == |ls| ==> Chain(vs[0], Ands(|ls| - 1), vs[1..]) == Chain(vs[0], ls[1..], vs[1..]))
       <==> (forall i :: 1 <= i < |ls| ==> ls[i] == And)
  {
    if j :| 1 <= j < |ls| && ls[j] != And {
      OrSeparates(ls, j);
    } else {
      assert ls[1..] == Ands(|ls| - 1);
    }
  }

  lemma NoOrBefore(acc: bool, ops: seq<Logic>, vs: seq<bool>)
    requires |ops| == |vs| && Or !in ops
    ensures !BeforeLastOr(acc, ops, vs)
  {
  }

  lemma {:induction false} AllAnds(acc: bool, ws: seq<bool>)
    ensures Chain(acc, Ands(|ws|), ws) == (acc && AllTrue(ws))
    decreases |ws|
  {
    if ws != [] {
      assert Ands(|ws|)[1..] == Ands(|ws| - 1);
      AllAnds(acc && ws[0], ws[1..]);
      AllTrueCons(ws);
    }
  }

  /** A list of conditions joined by AND means all of them. */
  lemma AndsMeanAll(sem: Semantics, item: Item, ms: seq<Meaning>)
    requires ms != []
    ensures EvalChain(sem, item, ms, Ands(|ms| - 1)) == EvalEvery(sem, item, ms)
  {
    var vs := EvalAll(sem, item, ms);
    AllAnds(vs[0], vs[1..]);
    AllTrueCons(vs);
    EveryOfAll(sem, item, ms);
  }

  // ----- placeholders

  function Digit(n: nat): char
    requires n < 10
  {
    "0123456789"[n]
  }

  function Digits(n: nat): (s: string)
    ensures |s| > 0 && forall i :: 0 <= i < |s| ==> '0' <= s[i] <= '9'
  {
    if n < 10 then [Digit(n)] else Digits(n / 10) + [Digit(n % 10)]
  }

  lemma DigitInjective(a: nat, b: nat)
    requires a < 10 && b < 10 && Digit(a) == Digit(b)
    ensures a == b
  {
  }

  lemma DigitsEnd(n: nat)
    ensures var s := Digits(n);
            s[|s| - 1] == Digit(n % 10) && s[..|s| - 1] == if n < 10 then [] else Digits(n / 10)
  {
  }

  lemma {:induction false} DigitsInjective(m: nat, n: nat)
    requires Digits(m) == Digits(n)
    ensures m == n
    decreases m
  {
    DigitsEnd(m);
    DigitsEnd(n);
    hide Digits, Digit;
    DigitInjective(m % 10, n % 10);
    if m >= 10 && n >= 10 {
      DigitsInjective(m / 10, n / 10);
    }
  }

  function NameRef(n: nat): string { "#n" + Digits(n) }

  function ValueRef(n: nat): string { ":v" + Digits(n) }

  function UpperChar(c: char): char {
    if 'a' <= c <= 'z' then c - 'a' + 'A' else c
  }

  function Upper(s: string): (r: string)
    ensures |r| == |s| && forall i :: 0 <= i < |s| ==> r[i] == UpperChar(s[i])
  {
    seq(|s|, i requires 0 <= i < |s| => UpperChar(s[i]))
  }

  function WordRef(part: string): string { "#" + Upper(part) }

  lemma RefsDistinct(m: nat, n: nat, part: string)
    ensures m != n ==> NameRef(m) != NameRef(n) && ValueRef(m) != ValueRef(n)
    ensures WordRef(part) != NameRef(m)
  {
    if NameRef(m) == NameRef(n) {
      assert Digits(m) == NameRef(m)[2..] == NameRef(n)[2..] == Digits(n);
      DigitsInjective(m, n);
    }
    if ValueRef(m) == ValueRef(n) {
      assert Digits(m) == ValueRef(m)[2..] == ValueRef(n)[2..] == Digits(n);
      DigitsInjective(m, n);
    }
    assert NameRef(m)[1] == 'n';
    assert |part| > 0 ==> WordRef(part)[1] == UpperChar(part[0]) != 'n';
  }

  lemma WordRefUpper(p: string, q: string)
    ensures WordRef(p) == WordRef(q) <==> Upper(p) == Upper(q)
  {
    assert WordRef(p)[1..] == Upper(p) && WordRef(q)[1..] == Upper(q);
  }

  // ----- field names

  function Split(s: string): (parts: seq<string>)
    ensures |parts| >= 1
  {
    if s == "" then [""] else
      var rest := Split(s[1..]);
      if s[0] == '.' then [""] + rest else [[s[0]] + rest[0]] + rest[1..]
  }

  lemma {:induction false} SplitPlain(s: string)
    requires '.' !in s
    ensures Split(s) == [s]
  {
    if s != "" {
      SplitPlain(s[1..]);
      assert [s[0]] + s[1..] == s;
    }
  }

  lemma SplitParts(s: string)
    ensures forall i :: 0 <= i < |Split(s)| ==> '.' !in Split(s)[i]
  {
    if s != "" {
      var rest := Split(s[1..]);
      SplitParts(s[1..]);
      assert '.' !in rest[0];
    }
  }

  /** The table's reserved words (upper case) and the validator, which are fixed elsewhere. */
  datatype Dialect = Dialect(reserved: set<string>, valid: string -> bool)

  predicate Reserved(d: Dialect, part: string) {
    Upper(part) in d.reserved
  }

  /** The whole name and each dotted part pass the validator. */
  predicate FieldOk(d: Dialect, field: string) {
    d.valid(field) && forall i :: 0 <= i < |Split(field)| ==> d.valid(Split(field)[i])
  }

  // ----- adding names

  datatype Binding = Binding(names: map<string, string>, counter: nat, refs: seq<string>, ok: bool)

  function RefFor(d: Dialect, part: string, counter: nat): string {
    if Reserved(d, part) then WordRef(part) else NameRef(counter)
  }

  function BindParts(d: Dialect, names: map<string, string>, counter: nat, parts: seq<string>): Binding
    decreases |parts|
  {
    if parts == [] then Binding(names, counter, [], true)
    else if !d.valid(parts[0]) then Binding(names, counter, [], false)
    else
      var ref := RefFor(d, parts[0], counter + 1);
      var rest := BindParts(d, names[ref := parts[0]], counter + 1, parts[1..]);
      rest.(refs := [ref] + rest.refs)
  }

  const INVALID: string := "#invalid"

  /** addNameSecure: an existing placeholder for the whole name is reused (which one, map
      order decides); otherwise each dotted part gets its own. */
  ghost predicate NameAdded(d: Dialect, e: Env, field: string, e': Env, path: seq<string>) {
    if !d.valid(field) then e' == e && path == [INVALID]
    else if field in e.names.Values then
      e' == e && |path| == 1 && path[0] in e.names && e.names[path[0]] == field
    else
      var b := BindParts(d, e.names, e.nameCounter, Split(field));
      && e' == e.(names := b.names, nameCounter := b.counter)
      && path == if b.ok then b.refs else [INVALID]
  }

  function BindValues(values: map<string, AV>, counter: nat, vs: seq<AV>): map<string, AV>
    decreases |vs|
  {
    if vs == [] then values else BindValues(values[ValueRef(counter + 1) := vs[0]], counter + 1, vs[1..])
  }

  function ValueRefs(counter: nat, n: nat): (r: seq<string>)
    ensures |r| == n
  {
    seq(n, i requires 0 <= i < n => ValueRef(counter + 1 + i))
  }

  /** The operands vs were added under the next placeholders. */
  ghost predicate ValuesAdded(e: Env, vs: seq<AV>, e': Env) {
    e' == e.(values := BindValues(e.values, e.valueCounter, vs), valueCounter := e.valueCounter + |vs|)
  }

  // ----- what keeps its meaning

  ghost predicate Extends(e: Env, e': Env) {
    && (forall k :: k in e.names ==> k in e'.names && e'.names[k] == e.names[k])
    && (forall k :: k in e.values ==> k in e'.values && e'.values[k] == e.values[k])
  }

  lemma ExtendsTrans(a: Env, b: Env, c: Env)
    requires Extends(a, b) && Extends(b, c)
    ensures Extends(a, c)
  {
  }

  /** No placeholder the counters would hand out next is taken, and no bound name is dotted. */
  ghost predicate Fresh(e: Env) {
    && (forall n: nat :: n > e.nameCounter ==> NameRef(n) !in e.names)
    && (forall n: nat :: n > e.valueCounter ==> ValueRef(n) !in e.values)
    && (forall k :: k in e.names ==> '.' !in e.names[k])
  }

  /** No reserved part would take a placeholder that stands for a case variant of it. */
  predicate ClashFree(d: Dialect, names: map<string, string>, parts: seq<string>) {
    && (forall i :: 0 <= i < |parts| && Reserved(d, parts[i]) && WordRef(parts[i]) in names ==> names[WordRef(parts[i])] == parts[i])
    && (forall i, j :: 0 <= i < j < |parts| && Reserved(d, parts[i]) && Reserved(d, parts[j]) && Upper(parts[i]) == Upper(parts[j]) ==> parts[i] == parts[j])
  }

  predicate Clean(d: Dialect, e: Env, field: string) {
    FieldOk(d, field) && (field in e.names.Values || ClashFree(d, e.names, Split(field)))
  }

  ghost predicate NameFresh(names: map<string, string>, counter: nat) {
    forall n: nat :: n > counter ==> NameRef(n) !in names
  }

  ghost predicate NamesExtend(names: map<string, string>, names': map<string, string>) {
    forall k :: k in names ==> k in names' && names'[k] == names[k]
  }

  predicate Resolves(names: map<string, string>, refs: seq<string>, parts: seq<string>) {
    |refs| == |parts| && forall i :: 0 <= i < |refs| ==> refs[i] in names && names[refs[i]] == parts[i]
  }

  /** After one more part, the remaining parts are still clash free. */
  lemma ClashFreeTail(d: Dialect, names: map<string, string>, counter: nat, parts: seq<string>)
    requires parts != [] && ClashFree(d, names, parts)
    ensures ClashFree(d, names[RefFor(d, parts[0], counter) := parts[0]], parts[1..])
  {
    var ref := RefFor(d, parts[0], counter);
    var names' := names[ref := parts[0]];
    var tail := parts[1..];
    forall i | 0 <= i < |tail| && Reserved(d, tail[i]) && WordRef(tail[i]) in names'
      ensures names'[WordRef(tail[i])] == tail[i]
    {
      RefsDistinct(counter, 0, tail[i]);
      WordRefUpper(parts[0], tail[i]);
      assert tail[i] == parts[i + 1];
    }
    assert forall i :: 0 <= i < |tail| ==> tail[i] == parts[i + 1];
  }

  lemma {:induction false} BindPartsKeeps(d: Dialect, names: map<string, string>, counter: nat, parts: seq<string>)
    requires NameFresh(names, counter) && ClashFree(d, names, parts)
    requires forall i :: 0 <= i < |parts| ==> d.valid(parts[i])
    ensures var b := BindParts(d, names, counter, parts);
            b.ok && NameFresh(b.names, b.counter) && NamesExtend(names, b.names) && Resolves(b.names, b.refs, parts)
    decreases |parts|
  {
    if parts != [] {
      var ref := RefFor(d, parts[0], counter + 1);
      var names' := names[ref := parts[0]];
      forall n: nat | n > counter + 1 ensures NameRef(n) !in names' {
        RefsDistinct(n, counter + 1, parts[0]);
      }
      ClashFreeTail(d, names, counter + 1, parts);
      BindPartsKeeps(d, names', counter + 1, parts[1..]);
      var b := BindParts(d, names, counter, parts);
      var rest := BindParts(d, names', counter + 1, parts[1..]);
      forall i | 0 <= i < |b.refs| ensures b.refs[i] in b.names && b.names[b.refs[i]] == parts[i] {
        if i > 0 {
          assert b.refs[i] == rest.refs[i - 1] && parts[i] == parts[1..][i - 1];
        }
      }
    }
  }

  lemma {:induction false} BindPartsDotless(d: Dialect, names: map<string, string>, counter: nat, parts: seq<string>)
    requires forall k :: k in names ==> '.' !in names[k]
    requires forall i :: 0 <= i < |parts| ==> '.' !in parts[i]
    ensures forall k :: k in BindParts(d, names, counter, parts).names ==> '.' !in BindParts(d, names, counter, parts).names[k]
    decreases |parts|
  {
    if parts != [] {
      BindPartsDotless(d, names[RefFor(d, parts[0], counter + 1) := parts[0]], counter + 1, parts[1..]);
    }
  }

  /** A name added cleanly resolves to the field asked for and changes no earlier binding. */
  lemma NameAddedKeeps(d: Dialect, e: Env, field: string, e': Env, path: seq<string>)
    requires Fresh(e) && NameAdded(d, e, field, e', path) && Clean(d, e, field)
    ensures Fresh(e') && Extends(e, e') && Resolves(e'.names, path, Split(field))
    ensures e'.valueCounter == e.valueCounter && e'.values == e.values
  {
    if field in e.names.Values {
      var k :| k in e.names && e.names[k] == field;
      SplitPlain(field);
    } else {
      BindPartsKeeps(d, e.names, e.nameCounter, Split(field));
      SplitParts(field);
      BindPartsDotless(d, e.names, e.nameCounter, Split(field));
    }
  }

  lemma {:induction false} BindPartsOverwrites(d: Dialect, names: map<string, string>, counter: nat, parts: seq<string>, i: int)
    requires 0 <= i < |parts| && forall j :: 0 <= j < |parts| ==> d.valid(parts[j])
    ensures var b := BindParts(d, names, counter, parts);
            |b.refs| == |parts| && (Reserved(d, parts[i]) ==> b.refs[i] == WordRef(parts[i]))
    decreases |parts|
  {
    var names' := names[RefFor(d, parts[0], counter + 1) := parts[0]];
    if i > 0 {
      BindPartsOverwrites(d, names', counter + 1, parts[1..], i - 1);
    } else if |parts| > 1 {
      BindPartsOverwrites(d, names', counter + 1, parts[1..], 0);
    }
  }

  /** Exactly when a new name is safe: adding it keeps every earlier binding and resolves
      to the field asked for if and only if no reserved part of it is a case variant of a
      word already bound, or of another of its own parts. */
  lemma NameSafeIffClashFree(d: Dialect, names: map<string, string>, counter: nat, field: string)
    requires NameFresh(names, counter) && FieldOk(d, field)
    ensures var b := BindParts(d, names, counter, Split(field));
            (NamesExtend(names, b.names) && Resolves(b.names, b.refs, Split(field))) <==> ClashFree(d, names, Split(field))
  {
    var parts := Split(field);
    var b := BindParts(d, names, counter, parts);
    if ClashFree(d, names, parts) {
      BindPartsKeeps(d, names, counter, parts);
    } else if NamesExtend(names, b.names) && Resolves(b.names, b.refs, parts) {
      forall i | 0 <= i < |parts| ensures Reserved(d, parts[i]) ==> b.refs[i] == WordRef(parts[i]) {
        BindPartsOverwrites(d, names, counter, parts, i);
      }
      assert false;
    }
  }

  lemma UpperName()
    ensures Upper("name") == "NAME" && Upper("Name") == "NAME"
  {
    var s, t := Upper("name"), Upper("Name");
    assert s[0] == 'N' && s[1] == 'A' && s[2] == 'M' && s[3] == 'E';
    assert t[0] == 'N' && t[1] == 'A' && t[2] == 'M' && t[3] == 'E';
  }

  /** The failing case: after `name`, adding the variant `Name` of the same reserved word
      rebinds #NAME, so the earlier fragment now speaks of another attribute. */
  lemma CaseVariantsCollide(valid: string -> bool)
    requires valid("name") && valid("Name")
    ensures var d := Dialect({"NAME"}, valid);
            var first := BindParts(d, map[], 0, Split("name"));
            var second := BindParts(d, first.names, first.counter, Split("Name"));
            && first.refs == second.refs == ["#NAME"]
            && first.names == map["#NAME" := "name"] && second.names == map["#NAME" := "Name"]
  {
    SplitPlain("name");
    SplitPlain("Name");
    UpperName();
    hide Upper, Digits;
    var d := Dialect({"NAME"}, valid);
    assert BindParts(d, map["#NAME" := "name"], 1, []) == Binding(map["#NAME" := "name"], 1, [], true);
    assert ["name"][1..] == [] && ["Name"][1..] == [];
    assert WordRef("name") == "#NAME";
  }

  predicate Holds(values: map<string, AV>, n: nat, v: AV) {
    ValueRef(n) in values && values[ValueRef(n)] == v
  }

  predicate Carries(values: map<string, AV>, counter: nat, vs: seq<AV>) {
    forall i :: 0 <= i < |vs| ==> Holds(values, counter + 1 + i, vs[i])
  }

  lemma {:induction false} BindValuesKeeps(values: map<string, AV>, counter: nat, vs: seq<AV>)
    requires forall n: nat :: n > counter ==> ValueRef(n) !in values
    ensures var values' := BindValues(values, counter, vs);
            && (forall k :: k in values ==> k in values' && values'[k] == values[k])
            && Carries(values', counter, vs)
            && (forall n: nat :: n > counter + |vs| ==> ValueRef(n) !in values')
    decreases |vs|
  {
    if vs != [] {
      var values1 := values[ValueRef(counter + 1) := vs[0]];
      forall n: nat | n > counter + 1 ensures ValueRef(n) !in values1 {
        RefsDistinct(n, counter + 1, "");
      }
      BindValuesKeeps(values1, counter + 1, vs[1..]);
      var values' := BindValues(values, counter, vs);
      forall i | 0 <= i < |vs| ensures Holds(values', counter + 1 + i, vs[i]) {
        if i > 0 {
          assert vs[i] == vs[1..][i - 1] && Holds(values', (counter + 1) + 1 + (i - 1), vs[1..][i - 1]);
        }
      }
    }
  }

  lemma ValuesAddedKeeps(e: Env, vs: seq<AV>, e': Env)
    requires Fresh(e) && ValuesAdded(e, vs, e')
    ensures Fresh(e') && Extends(e, e')
    ensures Carries(e'.values, e.valueCounter, vs)
  {
    BindValuesKeeps(e.values, e.valueCounter, vs);
  }

  lemma ResolvedAtom(e: Env, path: seq<string>, parts: seq<string>, verb: Verb, refs: seq<string>, vs: seq<AV>)
    requires Resolves(e.names, path, parts)
    requires |refs| == |vs| && forall i :: 0 <= i < |refs| ==> refs[i] in e.values && e.values[refs[i]] == vs[i]
    ensures Decode(e, Atom(path, verb, refs)) == Some(Says(parts, verb, vs))
  {
    assert Bound(e, path, refs);
    assert seq(|path|, i requires 0 <= i < |path| => e.names[path[i]]) == parts;
    assert seq(|refs|, i requires 0 <= i < |refs| => e.values[refs[i]]) == vs;
  }

  /** A fragment made from a clean name and fresh operands says what was asked. */
  lemma AtomDecodes(d: Dialect, e: Env, field: string, verb: Verb, vs: seq<AV>, mid: Env, e': Env, path: seq<string>)
    requires Fresh(e) && Clean(d, e, field)
    requires NameAdded(d, e, field, mid, path) && ValuesAdded(mid, vs, e')
    ensures Fresh(e') && Extends(e, e')
    ensures Decode(e', Atom(path, verb, ValueRefs(mid.valueCounter, |vs|))) == Some(Says(Split(field), verb, vs))
  {
    hide Fresh, Clean, NameAdded, Extends, Split, ValueRef, BindValues;
    NameAddedKeeps(d, e, field, mid, path);
    ValuesAddedKeeps(mid, vs, e');
    ExtendsTrans(e, mid, e');
    var refs := ValueRefs(mid.valueCounter, |vs|);
    assert forall i :: 0 <= i < |refs| ==> refs[i] == ValueRef(mid.valueCounter + 1 + i) && Holds(e'.values, mid.valueCounter + 1 + i, vs[i]);
    assert e'.names == mid.names;
    hide ValuesAdded, Carries, ValueRefs;
    ResolvedAtom(e', path, Split(field), verb, refs, vs);
  }

  /** Growing maps never change what an earlier fragment says. */
  lemma {:induction false} DecodeStable(e: Env, e': Env, f: Frag)
    requires Extends(e, e') && Decode(e, f).Some?
    ensures Decode(e', f) == Decode(e, f)
    decreases f, 0
  {
    match f
    case Atom(path, verb, vals) =>
      assert seq(|path|, i requires 0 <= i < |path| => e'.names[path[i]]) == seq(|path|, i requires 0 <= i < |path| => e.names[path[i]]);
      assert seq(|vals|, i requires 0 <= i < |vals| => e'.values[vals[i]]) == seq(|vals|, i requires 0 <= i < |vals| => e.values[vals[i]]);
    case Direct(attrs, verb, vals) =>
      assert seq(|vals|, i requires 0 <= i < |vals| => e'.values[vals[i]]) == seq(|vals|, i requires 0 <= i < |vals| => e.values[vals[i]]);
    case Group(frags, ops) => DecodeAllStable(e, e', frags);
  }

  lemma {:induction false} DecodeAllStable(e: Env, e': Env, fs: seq<Frag>)
    requires Extends(e, e') && DecodeAll(e, fs).Some?
    ensures DecodeAll(e', fs) == DecodeAll(e, fs)
    decreases fs, 1
  {
    if fs != [] {
      DecodeStable(e, e', fs[0]);
      DecodeAllStable(e, e', fs[1..]);
    }
  }
}
