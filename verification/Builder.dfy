/** The expression builder of internal/expr: every Add call binds placeholders in two
    shared maps and appends a fragment to one of its lists. */
module Builder {
  import opened Wrappers
  import opened AttributeValues
  import opened Expressions

  /** An operand as the caller passes it: whether the validator accepts it, the attribute
      value it converts to, and its elements when it is a slice. */
  datatype Arg = Arg(accepted: bool, whole: Option<AV>, elems: Option<seq<Option<AV>>>)

  datatype Slot = Keys | Filters | Conditions | Updates | Projections

  datatype Draft = Draft(
    env: Env, keys: seq<Frag>, filters: seq<Frag>, filterOps: seq<Logic>,
    conditions: seq<Frag>, conditionOps: seq<Logic>, updates: seq<Frag>, projections: seq<Frag>)
  {
    function At(slot: Slot): seq<Frag> {
      match slot
      case Keys => keys
      case Filters => filters
      case Conditions => conditions
      case Updates => updates
      case Projections => projections
    }
  }

  function Empty(): Draft {
    Draft(Env(map[], map[], 0, 0), [], [], [], [], [], [], [])
  }

  // ----- operators and operands

  predicate Space(c: char) {
    c == ' ' || '\t' <= c <= '\r'
  }

  function TrimLeft(s: string): string {
    if s != "" && Space(s[0]) then TrimLeft(s[1..]) else s
  }

  function TrimRight(s: string): string {
    if s != "" && Space(s[|s| - 1]) then TrimRight(s[..|s| - 1]) else s
  }

  function Trim(s: string): string {
    TrimRight(TrimLeft(s))
  }

  function ParseOperator(op: string): Option<Verb> {
    var u := Upper(op);
    if u == "=" || u == "EQ" then Some(Eq)
    else if u == "!=" || u == "<>" || u == "NE" then Some(Ne)
    else if u == "<" || u == "LT" then Some(Lt)
    else if u == "<=" || u == "LE" then Some(Le)
    else if u == ">" || u == "GT" then Some(Gt)
    else if u == ">=" || u == "GE" then Some(Ge)
    else if u == "BETWEEN" then Some(Between)
    else if u == "IN" then Some(In)
    else if u == "BEGINS_WITH" then Some(BeginsWith)
    else if u == "CONTAINS" then Some(Contains)
    else if u == "EXISTS" || u == "ATTRIBUTE_EXISTS" then Some(Exists)
    else if u == "NOT_EXISTS" || u == "ATTRIBUTE_NOT_EXISTS" then Some(NotExists)
    else None
  }

  /** The validator trims the operator before its whitelist; the builder does not trim. */
  predicate OperatorAllowed(op: string) {
    |op| <= 20 && ParseOperator(Trim(op)).Some?
  }

  function Converted(vs: seq<Option<AV>>): (r: Option<seq<AV>>)
    ensures r.Some? ==> |r.value| == |vs| && forall i :: 0 <= i < |vs| ==> vs[i] == Some(r.value[i])
  {
    if vs == [] then Some([])
    else match (vs[0], Converted(vs[1..]))
      case (Some(v), Some(rest)) => Some([v] + rest)
      case _ => None
  }

  /** The values a verb takes from its operand; None where the builder reports an error. */
  function Operands(verb: Verb, arg: Arg): Option<seq<AV>> {
    match verb
    case Exists => Some([])
    case NotExists => Some([])
    case Between =>
      if arg.elems.Some? && |arg.elems.value| == 2 then Converted(arg.elems.value) else None
    case In =>
      if arg.elems.Some? && |arg.elems.value| <= 100 then Converted(arg.elems.value) else None
    case _ => Converted([arg.whole])
  }

  predicate Accepts(d: Dialect, field: string, op: string, arg: Arg) {
    d.valid(field) && OperatorAllowed(op) && arg.accepted
  }

  /** What a condition asks for, if the builder takes it. */
  function Wanted(d: Dialect, field: string, op: string, arg: Arg): Option<Meaning> {
    if !Accepts(d, field, op, arg) || ParseOperator(op).None? then None
    else match Operands(ParseOperator(op).value, arg)
      case Some(vs) => Some(Says(Split(field), ParseOperator(op).value, vs))
      case None => None
  }

  /** A name and then operands were added; the fragment, if any, is made of exactly them. */
  ghost predicate Bound2(d: Dialect, e: Env, field: string, verb: Verb, vs: seq<AV>, e': Env, f: Frag) {
    exists mid, path :: && NameAdded(d, e, field, mid, path) && ValuesAdded(mid, vs, e')
                        && f == Atom(path, verb, ValueRefs(mid.valueCounter, |vs|))
  }

  /** An error may leave a name and some operands behind, but no fragment. */
  ghost predicate Residue(d: Dialect, e: Env, field: string, e': Env) {
    e' == e || exists verb, vs, f :: Bound2(d, e, field, verb, vs, e', f)
  }

  ghost predicate Built(d: Dialect, e: Env, field: string, want: Option<Meaning>, e': Env, r: Option<Frag>) {
    && (want.Some? <==> r.Some?)
    && (want.Some? ==> want.value.Says? && Bound2(d, e, field, want.value.verb, want.value.args, e', r.value))
    && (want.None? ==> Residue(d, e, field, e'))
  }

  // ----- requests

  datatype Request =
    | AddKey(field: string, op: string, arg: Arg)
    | AddFilter(logic: Logic, field: string, op: string, arg: Arg)
    | AddCondition(logic: Logic, field: string, op: string, arg: Arg)
    | AddUpdate(change: Change, field: string, checked: bool)
    | AddProjection(field: string)

  /** What an update call does to its attribute.  An operand is None when it does not convert. */
  datatype Change =
    | ToValue(index: Option<nat>, v: Option<AV>)
    | ToDefault(v: Option<AV>)
    | ToAppended(v: Option<AV>)
    | ToPrepended(v: Option<AV>)
    | ToJoined(v: Option<AV>, w: Option<AV>)
    | Plus(v: Option<AV>)
    | Less(v: Option<AV>)
    | Dropped(index: Option<nat>)

  function VerbOf(c: Change): Verb {
    match c
    case ToValue(index, _) => SetTo(index)
    case ToDefault(_) => DefaultTo
    case ToAppended(_) => AppendTo
    case ToPrepended(_) => PrependTo
    case ToJoined(_, _) => JoinTo
    case Plus(_) => AddTo
    case Less(_) => DeleteFrom
    case Dropped(index) => RemoveAt(index)
  }

  function ValsOf(c: Change): seq<Option<AV>> {
    match c
    case ToJoined(v, w) => [v, w]
    case Dropped(_) => []
    case _ => [c.v]
  }

  // the update calls as requests

  datatype Parsed = Plain | Indexed(base: string, index: nat) | BadIndex

  const MAX_INT: int := 0x7fff_ffff_ffff_ffff

  function LastIndexOf(s: string, c: char): (i: int)
    ensures -1 <= i < |s| && (i >= 0 ==> s[i] == c) && (i < 0 ==> c !in s)
  {
    if s == "" then -1 else if s[|s| - 1] == c then |s| - 1 else LastIndexOf(s[..|s| - 1], c)
  }

  function Number(s: string): nat
    requires forall i :: 0 <= i < |s| ==> '0' <= s[i] <= '9'
  {
    if s == "" then 0 else Number(s[..|s| - 1]) * 10 + (s[|s| - 1] - '0') as nat
  }

  /** parseListIndexOperation: `name[7]`. */
  function ParseIndex(field: string): Parsed {
    var open := LastIndexOf(field, '[');
    if open < 0 || field[|field| - 1] != ']' then Plain
    else
      var digits := field[open + 1..|field| - 1];
      if open == 0 || digits == "" || exists i :: 0 <= i < |digits| && !('0' <= digits[i] <= '9') then BadIndex
      else if Number(digits) > MAX_INT then BadIndex
      else Indexed(field[..open], Number(digits))
  }

  /** AddUpdateSet: the whole field is validated, then taken apart. */
  function SetRequest(d: Dialect, field: string, v: Option<AV>): Request {
    match ParseIndex(field)
    case Plain => AddUpdate(ToValue(None, v), field, d.valid(field))
    case Indexed(base, i) => AddUpdate(ToValue(Some(i), v), base, d.valid(field))
    case BadIndex => AddUpdate(ToValue(None, v), field, false)
  }

  function RemoveRequest(d: Dialect, field: string): Request {
    match ParseIndex(field)
    case Plain => AddUpdate(Dropped(None), field, d.valid(field))
    case Indexed(base, i) => AddUpdate(Dropped(Some(i)), base, d.valid(field))
    case BadIndex => AddUpdate(Dropped(None), field, false)
  }

  function AddRequest(d: Dialect, field: string, v: Option<AV>): Request {
    AddUpdate(Plus(v), field, d.valid(field))
  }

  function DeleteRequest(d: Dialect, field: string, v: Option<AV>): Request {
    AddUpdate(Less(v), field, d.valid(field))
  }

  /** An argument of an update function: whether it is the field's own name, and its value. */
  datatype FnArg = FnArg(isField: bool, v: Option<AV>)

  /** AddUpdateFunction validates nothing beforehand; a bad call still binds the name. */
  function FunctionRequest(field: string, fn: string, args: seq<FnArg>): Request {
    if fn == "list_append" && |args| == 2 then
      if args[0].isField then AddUpdate(ToAppended(args[1].v), field, true)
      else if args[1].isField then AddUpdate(ToPrepended(args[0].v), field, true)
      else AddUpdate(ToJoined(args[0].v, args[1].v), field, true)
    else if fn == "if_not_exists" && |args| == 2 then AddUpdate(ToDefault(args[1].v), field, true)
    else AddUpdate(Dropped(None), field, false)
  }

  function SlotOf(q: Request): Slot {
    match q
    case AddKey(_, _, _) => Keys
    case AddFilter(_, _, _, _) => Filters
    case AddCondition(_, _, _, _) => Conditions
    case AddUpdate(_, _, _) => Updates
    case AddProjection(_) => Projections
  }

  function Asked(d: Dialect, q: Request): Option<Meaning> {
    match q
    case AddKey(field, op, arg) => Wanted(d, field, op, arg)
    case AddFilter(_, field, op, arg) => Wanted(d, field, op, arg)
    case AddCondition(_, field, op, arg) => Wanted(d, field, op, arg)
    case AddUpdate(change, field, checked) =>
      if !checked then None
      else (match Converted(ValsOf(change))
            case Some(vs) => Some(Says(Split(field), VerbOf(change), vs))
            case None => None)
    case AddProjection(field) => Some(Says(Split(field), Project, []))
  }

  function Linked(fs: seq<Frag>, ops: seq<Logic>, logic: Logic): seq<Logic> {
    if fs == [] then ops else ops + [logic]
  }

  function Put(b: Draft, e: Env, q: Request, r: Option<Frag>): Draft {
    if r.None? then b.(env := e) else
      match q
      case AddKey(_, _, _) => b.(env := e, keys := b.keys + [r.value])
      case AddFilter(logic, _, _, _) =>
        b.(env := e, filters := b.filters + [r.value], filterOps := Linked(b.filters, b.filterOps, logic))
      case AddCondition(logic, _, _, _) =>
        b.(env := e, conditions := b.conditions + [r.value], conditionOps := Linked(b.conditions, b.conditionOps, logic))
      case AddUpdate(_, _, _) => b.(env := e, updates := b.updates + [r.value])
      case AddProjection(_) => b.(env := e, projections := b.projections + [r.value])
  }

  ghost predicate Stepped(d: Dialect, b: Draft, q: Request, b': Draft) {
    exists e, r :: Built(d, b.env, q.field, Asked(d, q), e, r) && b' == Put(b, e, q, r)
  }

  // ----- the loop over a dotted name

  /** The first i parts are bound, in order, to the placeholders in path. */
  ghost predicate PartsBound(d: Dialect, names0: map<string, string>, counter0: nat, parts: seq<string>, i: nat,
                             names: map<string, string>, counter: nat, path: seq<string>)
    requires i <= |parts|
  {
    var rest := BindParts(d, names, counter, parts[i..]);
    BindParts(d, names0, counter0, parts) == rest.(refs := path + rest.refs)
  }

  lemma PartsNone(d: Dialect, names: map<string, string>, counter: nat, parts: seq<string>)
    ensures PartsBound(d, names, counter, parts, 0, names, counter, [])
  {
    assert parts[0..] == parts;
    var refs := BindParts(d, names, counter, parts).refs;
    hide BindParts;
    assert [] + refs == refs;
  }

  lemma PartsStep(d: Dialect, names0: map<string, string>, counter0: nat, parts: seq<string>, i: nat,
                  names: map<string, string>, counter: nat, path: seq<string>)
    requires i < |parts| && d.valid(parts[i])
    requires PartsBound(d, names0, counter0, parts, i, names, counter, path)
    ensures var ref := RefFor(d, parts[i], counter + 1);
            PartsBound(d, names0, counter0, parts, i + 1, names[ref := parts[i]], counter + 1, path + [ref])
  {
    assert parts[i..][0] == parts[i] && parts[i..][1..] == parts[i + 1..];
    var ref := RefFor(d, parts[i], counter + 1);
    var rest := BindParts(d, names[ref := parts[i]], counter + 1, parts[i + 1..]);
    assert BindParts(d, names, counter, parts[i..]) == rest.(refs := [ref] + rest.refs);
    hide BindParts, RefFor;
    assert path + ([ref] + rest.refs) == (path + [ref]) + rest.refs;
  }

  lemma PartsRefused(d: Dialect, names0: map<string, string>, counter0: nat, parts: seq<string>, i: nat,
                     names: map<string, string>, counter: nat, path: seq<string>)
    requires i < |parts| && !d.valid(parts[i])
    requires PartsBound(d, names0, counter0, parts, i, names, counter, path)
    ensures var b := BindParts(d, names0, counter0, parts); b.names == names && b.counter == counter && !b.ok
  {
    assert parts[i..][0] == parts[i];
  }

  lemma PartsAll(d: Dialect, names0: map<string, string>, counter0: nat, parts: seq<string>,
                 names: map<string, string>, counter: nat, path: seq<string>)
    requires PartsBound(d, names0, counter0, parts, |parts|, names, counter, path)
    ensures BindParts(d, names0, counter0, parts) == Binding(names, counter, path, true)
  {
    assert parts[|parts|..] == [] && path + [] == path;
  }

  // ----- the mutable builder

  class Builder {
    const d: Dialect
    var names: map<string, string>
    var values: map<string, AV>
    var nameCounter: nat
    var valueCounter: nat
    var keyConditions: seq<Frag>
    var filterConditions: seq<Frag>
    var filterOperators: seq<Logic>
    var conditions: seq<Frag>
    var conditionOperators: seq<Logic>
    var updateExpressions: seq<Frag>
    var projections: seq<Frag>

    ghost function Env(): Env
      reads this
    {
      Expressions.Env(names, values, nameCounter, valueCounter)
    }

    ghost function State(): Draft
      reads this
    {
      Draft.Draft(Env(), keyConditions, filterConditions, filterOperators, conditions, conditionOperators, updateExpressions, projections)
    }

    constructor (d: Dialect)
      ensures this.d == d && State() == Empty()
    {
      this.d := d;
      names, values, nameCounter, valueCounter := map[], map[], 0, 0;
      keyConditions, filterConditions, filterOperators := [], [], [];
      conditions, conditionOperators, updateExpressions, projections := [], [], [], [];
    }

    /** Clone: a deep copy, counters included. */
    constructor Clone(b: Builder)
      ensures d == b.d && State() == b.State()
    {
      d := b.d;
      names, values, nameCounter, valueCounter := b.names, b.values, b.nameCounter, b.valueCounter;
      keyConditions, filterConditions, filterOperators := b.keyConditions, b.filterConditions, b.filterOperators;
      conditions, conditionOperators := b.conditions, b.conditionOperators;
      updateExpressions, projections := b.updateExpressions, b.projections;
    }

    method ResetConditions()
      modifies this`conditions, this`conditionOperators
      ensures State() == old(State()).(conditions := [], conditionOps := [])
    {
      conditions, conditionOperators := [], [];
    }

    method AddName(field: string) returns (path: seq<string>)
      modifies this`names, this`nameCounter
      ensures NameAdded(d, old(Env()), field, Env(), path)
    {
      if !d.valid(field) {
        return [INVALID];
      }
      if field in names.Values {
        var placeholder :| placeholder in names && names[placeholder] == field;
        return [placeholder];
      }
      var parts := Split(field);
      path := [];
      assert parts[0..] == parts;
      PartsNone(d, names, nameCounter, parts);
      var i := 0;
      while i < |parts|
        invariant 0 <= i <= |parts|
        invariant PartsBound(d, old(names), old(nameCounter), parts, i, names, nameCounter, path)
      {
        var part := parts[i];
        if !d.valid(part) {
          PartsRefused(d, old(names), old(nameCounter), parts, i, names, nameCounter, path);
          return [INVALID];
        }
        PartsStep(d, old(names), old(nameCounter), parts, i, names, nameCounter, path);
        hide PartsBound;
        nameCounter := nameCounter + 1;
        var placeholder := if Upper(part) in d.reserved then WordRef(part) else NameRef(nameCounter);
        names := names[placeholder := part];
        path := path + [placeholder];
        i := i + 1;
      }
      PartsAll(d, old(names), old(nameCounter), parts, names, nameCounter, path);
    }

    method AddValue(v: Option<AV>) returns (ref: Option<string>)
      modifies this`values, this`valueCounter
      ensures v.Some? <==> ref.Some?
      ensures v.Some? ==> ref == Some(ValueRef(old(valueCounter) + 1)) && ValuesAdded(old(Env()), [v.value], Env())
      ensures v.None? ==> Env() == old(Env())
    {
      if v.None? {
        return None;
      }
      valueCounter := valueCounter + 1;
      values := values[ValueRef(valueCounter) := v.value];
      assert [v.value][1..] == [];
      assert BindValues(old(values), old(valueCounter), [v.value]) == BindValues(values, valueCounter, []);
      return Some(ValueRef(valueCounter));
    }

    /** Adds operands one by one, stopping at the first that does not convert. */
    method AddValues(vs: seq<Option<AV>>) returns (refs: Option<seq<string>>)
      modifies this`values, this`valueCounter
      ensures match Converted(vs)
              case Some(us) => refs == Some(ValueRefs(old(valueCounter), |us|)) && ValuesAdded(old(Env()), us, Env())
              case None => refs == None && exists us :: ValuesAdded(old(Env()), us, Env())
    {
      var out: seq<string> := [];
      ghost var done: seq<AV> := [];
      var i := 0;
      while i < |vs|
        invariant 0 <= i <= |vs| && |done| == i
        invariant forall j :: 0 <= j < i ==> vs[j] == Some(done[j])
        invariant out == ValueRefs(old(valueCounter), i)
        invariant ValuesAdded(old(Env()), done, Env())
      {
        ghost var before := Env();
        var ref := AddValue(vs[i]);
        if ref.None? {
          NotConverted(vs, i);
          return None;
        }
        AddedTogether(old(Env()), done, before, vs[i].value, Env());
        done := done + [vs[i].value];
        out := out + [ref.value];
        assert out == ValueRefs(old(valueCounter), i + 1);
        i := i + 1;
      }
      AllConverted(vs, done);
      return Some(out);
    }

    method BuildCondition(field: string, op: string, arg: Arg) returns (r: Option<Frag>)
      modifies this`names, this`nameCounter, this`values, this`valueCounter
      ensures Built(d, old(Env()), field, Wanted(d, field, op, arg), Env(), r)
    {
      if !d.valid(field) || !OperatorAllowed(op) || !arg.accepted {
        return None;
      }
      ghost var e0 := Env();
      var nameRef := AddName(field);
      ghost var mid := Env();
      assert ValuesAdded(mid, [], mid);
      assert Bound2(d, e0, field, Eq, [], mid, Atom(nameRef, Eq, ValueRefs(mid.valueCounter, 0)));
      var verb := ParseOperator(op);
      if verb.None? {
        return None;
      }
      var operands: seq<Option<AV>>;
      match verb.value {
        case Exists => operands := [];
        case NotExists => operands := [];
        case Between =>
          if arg.elems.None? || |arg.elems.value| != 2 { return None; }
          operands := arg.elems.value;
        case In =>
          if arg.elems.None? || |arg.elems.value| > 100 { return None; }
          operands := arg.elems.value;
        case _ => operands := [arg.whole];
      }
      assert Operands(verb.value, arg) == Converted(operands);
      var refs := AddValues(operands);
      if refs.None? {
        ghost var us :| ValuesAdded(mid, us, Env());
        assert Bound2(d, e0, field, verb.value, us, Env(), Atom(nameRef, verb.value, ValueRefs(mid.valueCounter, |us|)));
        return None;
      }
      return Some(Atom(nameRef, verb.value, refs.value));
    }

    method AddKeyCondition(field: string, op: string, arg: Arg) returns (ok: bool)
      modifies this
      ensures Stepped(d, old(State()), AddKey(field, op, arg), State())
      ensures ok <==> Wanted(d, field, op, arg).Some?
    {
      ghost var q := AddKey(field, op, arg);
      ghost var b := State();
      var r := BuildCondition(field, op, arg);
      ghost var e := Env();
      if r.Some? {
        keyConditions := keyConditions + [r.value];
      }
      assert State() == Put(b, e, q, r);
      return r.Some?;
    }

    method AddFilterCondition(logic: Logic, field: string, op: string, arg: Arg) returns (ok: bool)
      modifies this
      ensures Stepped(d, old(State()), AddFilter(logic, field, op, arg), State())
      ensures ok <==> Wanted(d, field, op, arg).Some?
    {
      ghost var q := AddFilter(logic, field, op, arg);
      ghost var b := State();
      var r := BuildCondition(field, op, arg);
      ghost var e := Env();
      if r.Some? {
        filterConditions := filterConditions + [r.value];
        if |filterConditions| > 1 {
          filterOperators := filterOperators + [logic];
        }
      }
      assert State() == Put(b, e, q, r);
      return r.Some?;
    }

    method AddConditionExpressionWithOp(logic: Logic, field: string, op: string, arg: Arg) returns (ok: bool)
      modifies this
      ensures Stepped(d, old(State()), AddCondition(logic, field, op, arg), State())
      ensures ok <==> Wanted(d, field, op, arg).Some?
    {
      ghost var q := AddCondition(logic, field, op, arg);
      ghost var b := State();
      var r := BuildCondition(field, op, arg);
      ghost var e := Env();
      if r.Some? {
        conditions := conditions + [r.value];
        if |conditions| > 1 {
          conditionOperators := conditionOperators + [logic];
        }
      }
      assert State() == Put(b, e, q, r);
      return r.Some?;
    }

    /** The common part of the update calls: the name, the operands, then the fragment. */
    method AppendUpdate(change: Change, field: string) returns (ok: bool)
      modifies this
      ensures Stepped(d, old(State()), AddUpdate(change, field, true), State())
      ensures ok <==> Asked(d, AddUpdate(change, field, true)).Some?
    {
      ghost var q := AddUpdate(change, field, true);
      ghost var b := State();
      AskedUpdate(d, change, field);
      hide Asked, Converted, VerbOf, ValsOf, Stepped, Put, NameAdded;
      var nameRef := AddName(field);
      ghost var mid := Env();
      var refs := AddValues(ValsOf(change));
      ghost var e := Env();
      if refs.None? {
        ghost var us :| ValuesAdded(mid, us, e);
        ResidueStep(d, b, q, mid, nameRef, us, e);
        assert State() == b.(env := e);
        return false;
      }
      var f := Atom(nameRef, VerbOf(change), refs.value);
      TakenWith(d, b, q, mid, nameRef, e, f);
      PutUpdate(b, e, q, f);
      hide ValuesAdded;
      updateExpressions := updateExpressions + [f];
      assert State() == b.(env := e, updates := b.updates + [f]);
      return true;
    }

    method AddUpdateSet(field: string, v: Option<AV>) returns (ok: bool)
      modifies this
      ensures Stepped(d, old(State()), SetRequest(d, field, v), State())
      ensures ok <==> Asked(d, SetRequest(d, field, v)).Some?
    {
      RefusedStep(d, State(), SetRequest(d, field, v));
      if !d.valid(field) {
        return false;
      }
      match ParseIndex(field) {
        case BadIndex => return false;
        case Indexed(base, index) => ok := AppendUpdate(ToValue(Some(index), v), base);
        case Plain => ok := AppendUpdate(ToValue(None, v), field);
      }
    }

    method AddUpdateRemove(field: string) returns (ok: bool)
      modifies this
      ensures Stepped(d, old(State()), RemoveRequest(d, field), State())
      ensures ok <==> Asked(d, RemoveRequest(d, field)).Some?
    {
      RefusedStep(d, State(), RemoveRequest(d, field));
      if !d.valid(field) {
        return false;
      }
      match ParseIndex(field) {
        case BadIndex => return false;
        case Indexed(base, index) => ok := AppendUpdate(Dropped(Some(index)), base);
        case Plain => ok := AppendUpdate(Dropped(None), field);
      }
    }

    method AddUpdateAdd(field: string, v: Option<AV>) returns (ok: bool)
      modifies this
      ensures Stepped(d, old(State()), AddRequest(d, field, v), State())
      ensures ok <==> Asked(d, AddRequest(d, field, v)).Some?
    {
      RefusedStep(d, State(), AddRequest(d, field, v));
      if !d.valid(field) {
        return false;
      }
      ok := AppendUpdate(Plus(v), field);
    }

    method AddUpdateDelete(field: string, v: Option<AV>) returns (ok: bool)
      modifies this
      ensures Stepped(d, old(State()), DeleteRequest(d, field, v), State())
      ensures ok <==> Asked(d, DeleteRequest(d, field, v)).Some?
    {
      RefusedStep(d, State(), DeleteRequest(d, field, v));
      if !d.valid(field) {
        return false;
      }
      ok := AppendUpdate(Less(v), field);
    }

    method AddUpdateFunction(field: string, fn: string, args: seq<FnArg>) returns (ok: bool)
      modifies this
      ensures Stepped(d, old(State()), FunctionRequest(field, fn, args), State())
      ensures ok <==> Asked(d, FunctionRequest(field, fn, args)).Some?
    {
      if fn == "list_append" && |args| == 2 {
        if args[0].isField {
          ok := AppendUpdate(ToAppended(args[1].v), field);
        } else if args[1].isField {
          ok := AppendUpdate(ToPrepended(args[0].v), field);
        } else {
          ok := AppendUpdate(ToJoined(args[0].v, args[1].v), field);
        }
      } else if fn == "if_not_exists" && |args| == 2 {
        ok := AppendUpdate(ToDefault(args[1].v), field);
      } else {
        ghost var b := State();
        var nameRef := AddName(field);
        ghost var e := Env();
        NameOnlyStep(d, b, FunctionRequest(field, fn, args), e, nameRef);
        assert State() == b.(env := e);
        return false;
      }
    }

    method AddProjectionField(field: string)
      modifies this
      ensures Stepped(d, old(State()), AddProjection(field), State())
    {
      ghost var q := AddProjection(field);
      ghost var b := State();
      var nameRef := AddName(field);
      ghost var e := Env();
      assert ValuesAdded(e, [], e);
      var f := Atom(nameRef, Project, []);
      projections := projections + [f];
      assert f == Atom(nameRef, Project, ValueRefs(e.valueCounter, 0));
      assert Built(d, b.env, field, Asked(d, q), e, Some(f)) && State() == Put(b, e, q, Some(f));
    }

    /** AddGroupFilter: the group's maps overwrite, then the parenthesised group is appended. */
    method AddGroupFilter(logic: Logic, g: Builder)
      requires g != this
      modifies this
      ensures State() == WithGroup(old(State()), logic, g.State())
    {
      names := names + g.names;
      values := values + g.values;
      if g.filterConditions != [] {
        filterConditions := filterConditions + [Group(g.filterConditions, g.filterOperators)];
        if |filterConditions| > 1 {
          filterOperators := filterOperators + [logic];
        }
      }
    }
  }

  /** A request refused before anything was bound. */
  lemma RefusedStep(d: Dialect, b: Draft, q: Request)
    ensures Asked(d, q).None? ==> Stepped(d, b, q, b)
  {
    if Asked(d, q).None? {
      assert Built(d, b.env, q.field, Asked(d, q), b.env, None) && b == Put(b, b.env, q, None);
    }
  }

  /** A request refused after its name and some operands were bound. */
  lemma ResidueStep(d: Dialect, b: Draft, q: Request, mid: Env, path: seq<string>, us: seq<AV>, e: Env)
    requires Asked(d, q).None? && NameAdded(d, b.env, q.field, mid, path) && ValuesAdded(mid, us, e)
    ensures Stepped(d, b, q, b.(env := e))
  {
    hide NameAdded, ValuesAdded;
    assert Bound2(d, b.env, q.field, Eq, us, e, Atom(path, Eq, ValueRefs(mid.valueCounter, |us|)));
    assert Built(d, b.env, q.field, Asked(d, q), e, None) && b.(env := e) == Put(b, e, q, None);
  }

  /** A request refused after its name was bound. */
  lemma NameOnlyStep(d: Dialect, b: Draft, q: Request, e: Env, path: seq<string>)
    requires Asked(d, q).None? && NameAdded(d, b.env, q.field, e, path)
    ensures Stepped(d, b, q, b.(env := e))
  {
    assert ValuesAdded(e, [], e);
    ResidueStep(d, b, q, e, path, [], e);
  }

  lemma NotConverted(vs: seq<Option<AV>>, i: nat)
    requires i < |vs| && vs[i].None?
    ensures Converted(vs).None?
  {
  }

  lemma AllConverted(vs: seq<Option<AV>>, us: seq<AV>)
    requires |us| == |vs| && forall j :: 0 <= j < |vs| ==> vs[j] == Some(us[j])
    ensures Converted(vs) == Some(us)
    decreases |vs|
  {
    if vs != [] {
      AllConverted(vs[1..], us[1..]);
      assert us == [us[0]] + us[1..];
    }
  }

  lemma {:induction false} BindValuesAppend(values: map<string, AV>, counter: nat, vs: seq<AV>, v: AV)
    ensures BindValues(values, counter, vs + [v]) == BindValues(values, counter, vs)[ValueRef(counter + |vs| + 1) := v]
    decreases |vs|
  {
    if vs == [] {
      assert vs + [v] == [v] && [v][1..] == [];
      assert BindValues(values[ValueRef(counter + 1) := v], counter + 1, []) == values[ValueRef(counter + 1) := v];
    } else {
      assert (vs + [v])[1..] == vs[1..] + [v];
      BindValuesAppend(values[ValueRef(counter + 1) := vs[0]], counter + 1, vs[1..], v);
    }
  }

  lemma AddedTogether(e: Env, vs: seq<AV>, mid: Env, v: AV, e': Env)
    requires ValuesAdded(e, vs, mid) && ValuesAdded(mid, [v], e')
    ensures ValuesAdded(e, vs + [v], e')
  {
    BindValuesAppend(e.values, e.valueCounter, vs, v);
    assert [v][1..] == [];
    assert BindValues(mid.values[ValueRef(mid.valueCounter + 1) := v], mid.valueCounter + 1, [])
        == mid.values[ValueRef(mid.valueCounter + 1) := v];
  }

  // ----- one clean request

  /** A clean request, accepted or refused, changes no earlier binding; an accepted one
      appends a fragment that says exactly what was asked. */
  lemma BuiltKeeps(d: Dialect, e: Env, field: string, want: Option<Meaning>, e': Env, r: Option<Frag>)
    requires Fresh(e) && Clean(d, e, field) && Built(d, e, field, want, e', r)
    requires want.Some? ==> want.value.Says? && want.value.path == Split(field)
    ensures Fresh(e') && Extends(e, e')
    ensures r.Some? ==> Decode(e', r.value) == want
  {
    if want.Some? {
      var mid, path :| && NameAdded(d, e, field, mid, path) && ValuesAdded(mid, want.value.args, e')
                       && r.value == Atom(path, want.value.verb, ValueRefs(mid.valueCounter, |want.value.args|));
      AtomDecodes(d, e, field, want.value.verb, want.value.args, mid, e', path);
    } else if e' != e {
      var verb, vs, f :| Bound2(d, e, field, verb, vs, e', f);
      var mid, path :| NameAdded(d, e, field, mid, path) && ValuesAdded(mid, vs, e') && f == Atom(path, verb, ValueRefs(mid.valueCounter, |vs|));
      AtomDecodes(d, e, field, verb, vs, mid, e', path);
    }
  }

  function Said(b: Draft, slot: Slot): Option<seq<Meaning>> {
    DecodeAll(b.env, b.At(slot))
  }

  function Extra(d: Dialect, q: Request, slot: Slot): seq<Meaning> {
    if SlotOf(q) == slot && Asked(d, q).Some? then [Asked(d, q).value] else []
  }

  lemma AskedPath(d: Dialect, q: Request)
    ensures Asked(d, q).Some? ==> Asked(d, q).value.Says? && Asked(d, q).value.path == Split(q.field)
  {
  }

  lemma PutAt(b: Draft, e: Env, q: Request, r: Option<Frag>, slot: Slot)
    ensures Put(b, e, q, r).env == e
    ensures Put(b, e, q, r).At(slot) == if r.Some? && SlotOf(q) == slot then b.At(slot) + [r.value] else b.At(slot)
  {
  }

  /** A step taken apart: the new maps, and one list that may have grown by a fragment. */
  lemma StepParts(d: Dialect, b: Draft, q: Request, m: Draft) returns (e: Env, r: Option<Frag>)
    requires Stepped(d, b, q, m)
    ensures Built(d, b.env, q.field, Asked(d, q), e, r) && m.env == e
    ensures forall slot :: m.At(slot) == if r.Some? && SlotOf(q) == slot then b.At(slot) + [r.value] else b.At(slot)
  {
    hide Built, Asked;
    e, r :| Built(d, b.env, q.field, Asked(d, q), e, r) && m == Put(b, e, q, r);
    forall slot ensures m.env == e && m.At(slot) == if r.Some? && SlotOf(q) == slot then b.At(slot) + [r.value] else b.At(slot) {
      PutAt(b, e, q, r, slot);
    }
  }

  lemma StepSays(d: Dialect, b: Draft, q: Request, b': Draft, slot: Slot)
    requires Fresh(b.env) && Clean(d, b.env, q.field) && Stepped(d, b, q, b') && Said(b, slot).Some?
    ensures Fresh(b'.env) && Extends(b.env, b'.env)
    ensures Said(b', slot) == Some(Said(b, slot).value + Extra(d, q, slot))
  {
    var e, r :| Built(d, b.env, q.field, Asked(d, q), e, r) && b' == Put(b, e, q, r);
    AskedPath(d, q);
    PutAt(b, e, q, r, slot);
    assert r.Some? <==> Asked(d, q).Some?;
    hide Built, Fresh, Extends, Clean, Asked, DecodeAll, Decode, Put;
    BuiltKeeps(d, b.env, q.field, Asked(d, q), e, r);
    DecodeAllStable(b.env, e, b.At(slot));
    if SlotOf(q) == slot && r.Some? {
      DecodeAppend(e, b.At(slot), r.value);
    } else {
      assert Said(b, slot).value + [] == Said(b, slot).value;
    }
  }

  // ----- every sequence of requests on one builder

  ghost predicate Run(d: Dialect, b: Draft, qs: seq<Request>, b': Draft)
    decreases |qs|
  {
    if qs == [] then b' == b else exists m :: Stepped(d, b, qs[0], m) && Run(d, m, qs[1..], b')
  }

  lemma RunFirst(d: Dialect, b: Draft, qs: seq<Request>, b': Draft) returns (m: Draft)
    requires qs != [] && Run(d, b, qs, b')
    ensures Stepped(d, b, qs[0], m) && Run(d, m, qs[1..], b')
  {
    hide Stepped;
    m :| Stepped(d, b, qs[0], m) && Run(d, m, qs[1..], b');
  }

  function AllAsked(d: Dialect, qs: seq<Request>, slot: Slot): seq<Meaning> {
    if qs == [] then [] else Extra(d, qs[0], slot) + AllAsked(d, qs[1..], slot)
  }

  /** The parts of the names used contain no two case variants of one reserved word. */
  predicate NoVariants(d: Dialect, parts: set<string>) {
    forall p, q :: p in parts && q in parts && Reserved(d, p) && Upper(p) == Upper(q) ==> p == q
  }

  predicate Uses(d: Dialect, qs: seq<Request>, parts: set<string>) {
    forall i :: 0 <= i < |qs| ==> FieldOk(d, qs[i].field) && forall j :: 0 <= j < |Split(qs[i].field)| ==> Split(qs[i].field)[j] in parts
  }

  /** Bound names come from the given parts, and a word placeholder stands for its own word. */
  ghost predicate NamesFrom(names: map<string, string>, parts: set<string>) {
    forall k :: k in names ==> names[k] in parts && (k == WordRef(names[k]) || exists n: nat :: k == NameRef(n))
  }

  lemma NamesFromClean(d: Dialect, e: Env, parts: set<string>, field: string)
    requires NamesFrom(e.names, parts) && NoVariants(d, parts) && FieldOk(d, field)
    requires forall j :: 0 <= j < |Split(field)| ==> Split(field)[j] in parts
    ensures Clean(d, e, field)
  {
    var ps := Split(field);
    forall i | 0 <= i < |ps| && Reserved(d, ps[i]) && WordRef(ps[i]) in e.names ensures e.names[WordRef(ps[i])] == ps[i] {
      var k := WordRef(ps[i]);
      if n: nat :| k == NameRef(n) {
        RefsDistinct(n, n, ps[i]);
      }
      WordRefUpper(ps[i], e.names[k]);
    }
  }

  lemma {:induction false} BindPartsFrom(d: Dialect, names: map<string, string>, counter: nat, ps: seq<string>, parts: set<string>)
    requires NamesFrom(names, parts) && forall j :: 0 <= j < |ps| ==> ps[j] in parts
    ensures NamesFrom(BindParts(d, names, counter, ps).names, parts)
    decreases |ps|
  {
    if ps != [] {
      var ref := RefFor(d, ps[0], counter + 1);
      assert NamesFrom(names[ref := ps[0]], parts);
      BindPartsFrom(d, names[ref := ps[0]], counter + 1, ps[1..], parts);
    }
  }

  lemma StepNamesFrom(d: Dialect, b: Draft, q: Request, b': Draft, parts: set<string>)
    requires Stepped(d, b, q, b') && NamesFrom(b.env.names, parts)
    requires forall j :: 0 <= j < |Split(q.field)| ==> Split(q.field)[j] in parts
    ensures NamesFrom(b'.env.names, parts)
  {
    BindPartsFrom(d, b.env.names, b.env.nameCounter, Split(q.field), parts);
  }

  /** One request of a run, with everything the next one needs. */
  lemma StepAll(d: Dialect, b: Draft, q: Request, m: Draft, parts: set<string>, slot: Slot)
    requires Stepped(d, b, q, m) && Fresh(b.env) && NamesFrom(b.env.names, parts)
    requires Uses(d, [q], parts) && NoVariants(d, parts) && Said(b, slot).Some?
    ensures Fresh(m.env) && Extends(b.env, m.env) && NamesFrom(m.env.names, parts)
    ensures Said(m, slot) == Some(Said(b, slot).value + Extra(d, q, slot))
  {
    assert [q][0] == q;
    NamesFromClean(d, b.env, parts, q.field);
    StepSays(d, b, q, m, slot);
    StepNamesFrom(d, b, q, m, parts);
  }

  lemma UsesSplit(d: Dialect, qs: seq<Request>, parts: set<string>)
    requires qs != [] && Uses(d, qs, parts)
    ensures Uses(d, [qs[0]], parts) && Uses(d, qs[1..], parts)
  {
    assert forall i :: 0 <= i < |qs[1..]| ==> qs[1..][i] == qs[i + 1];
  }

  lemma Reassociate(a: seq<Meaning>, b: seq<Meaning>, c: seq<Meaning>)
    ensures (a + b) + c == a + (b + c) && a + [] == a && [] + a == a
  {
  }

  lemma {:induction false} RunSays(d: Dialect, b: Draft, qs: seq<Request>, b': Draft, parts: set<string>, slot: Slot)
    requires Run(d, b, qs, b') && Fresh(b.env) && NamesFrom(b.env.names, parts)
    requires Uses(d, qs, parts) && NoVariants(d, parts) && Said(b, slot).Some?
    ensures Fresh(b'.env) && Extends(b.env, b'.env) && NamesFrom(b'.env.names, parts)
    ensures Said(b', slot) == Some(Said(b, slot).value + AllAsked(d, qs, slot))
    decreases |qs|
  {
    if qs == [] {
      Reassociate(Said(b, slot).value, [], []);
    } else {
      var m :| Stepped(d, b, qs[0], m) && Run(d, m, qs[1..], b');
      UsesSplit(d, qs, parts);
      StepAll(d, b, qs[0], m, parts, slot);
      RunSays(d, m, qs[1..], b', parts, slot);
      Reassociate(Said(b, slot).value, Extra(d, qs[0], slot), AllAsked(d, qs[1..], slot));
    }
  }

  /** Placeholder stability: whatever is added to one builder, in any order, without groups
      and without case variants of a reserved word, every list says exactly what was asked
      for it, in the order it was asked; and whatever is added after that changes no binding
      made so far, so every fragment emitted earlier still says what it said. */
  lemma PlaceholdersStable(d: Dialect, qs: seq<Request>, m: Draft, more: seq<Request>, b: Draft, parts: set<string>, slot: Slot)
    requires Run(d, Empty(), qs, m) && Run(d, m, more, b)
    requires Uses(d, qs, parts) && Uses(d, more, parts) && NoVariants(d, parts)
    ensures Said(m, slot) == Some(AllAsked(d, qs, slot)) && Said(b, slot) == Some(AllAsked(d, qs, slot) + AllAsked(d, more, slot))
    ensures Extends(m.env, b.env) && DecodeAll(b.env, m.At(slot)) == Said(m, slot)
  {
    EmptySays(parts, slot);
    hide Run, Uses, NoVariants, Fresh, NamesFrom, AllAsked, Empty, Extends, DecodeAll;
    RunSays(d, Empty(), qs, m, parts, slot);
    Reassociate(AllAsked(d, qs, slot), [], []);
    RunSays(d, m, more, b, parts, slot);
    DecodeAllStable(m.env, b.env, m.At(slot));
  }

  lemma EmptySays(parts: set<string>, slot: Slot)
    ensures Said(Empty(), slot) == Some([]) && Fresh(Empty().env) && NamesFrom(Empty().env.names, parts)
  {
  }

  // ----- runs whose requests are all accepted

  predicate AllTaken(d: Dialect, qs: seq<Request>) {
    forall i :: 0 <= i < |qs| ==> Asked(d, qs[i]).Some?
  }

  /** The operands of an accepted request. */
  function Args(d: Dialect, q: Request): seq<AV> {
    match Asked(d, q)
    case Some(Says(_, _, args)) => args
    case _ => []
  }

  function NameEnv(d: Dialect, e: Env, field: string): Env {
    if !d.valid(field) || field in e.names.Values then e
    else var b := BindParts(d, e.names, e.nameCounter, Split(field)); e.(names := b.names, nameCounter := b.counter)
  }

  function ValuesEnv(e: Env, vs: seq<AV>): Env {
    e.(values := BindValues(e.values, e.valueCounter, vs), valueCounter := e.valueCounter + |vs|)
  }

  /** The maps and counters after a run of accepted requests: whichever of several
      placeholders for one name is reused, they come out the same. */
  function EnvAfter(d: Dialect, e: Env, qs: seq<Request>): Env
    decreases |qs|
  {
    if qs == [] then e else EnvAfter(d, ValuesEnv(NameEnv(d, e, qs[0].field), Args(d, qs[0])), qs[1..])
  }

  lemma TakenStepEnv(d: Dialect, b: Draft, q: Request, m: Draft)
    requires Stepped(d, b, q, m) && Asked(d, q).Some?
    ensures m.env == ValuesEnv(NameEnv(d, b.env, q.field), Args(d, q))
  {
    var e, r :| Built(d, b.env, q.field, Asked(d, q), e, r) && m == Put(b, e, q, r);
    AskedPath(d, q);
    var w := Asked(d, q).value;
    PutAt(b, e, q, r, Keys);
    hide Put, Asked;
    var mid, path := BoundParts(d, b.env, q.field, w.verb, w.args, e, r.value);
  }

  lemma {:induction false} TakenRunEnv(d: Dialect, b: Draft, qs: seq<Request>, b': Draft)
    requires Run(d, b, qs, b') && AllTaken(d, qs)
    ensures b'.env == EnvAfter(d, b.env, qs)
    decreases |qs|
  {
    if qs != [] {
      hide Stepped, Asked, NameEnv, ValuesEnv;
      var m := RunFirst(d, b, qs, b');
      TakenStepEnv(d, b, qs[0], m);
      TakenRunEnv(d, m, qs[1..], b');
    }
  }

  /** An accepted request can be served in every state. */
  lemma TakenStep(d: Dialect, b: Draft, q: Request) returns (m: Draft)
    requires Asked(d, q).Some?
    ensures Stepped(d, b, q, m)
  {
    AskedPath(d, q);
    var w := Asked(d, q).value;
    var path: seq<string>;
    if !d.valid(q.field) {
      path := [INVALID];
    } else if q.field in b.env.names.Values {
      var k :| k in b.env.names && b.env.names[k] == q.field;
      path := [k];
    } else {
      var bound := BindParts(d, b.env.names, b.env.nameCounter, Split(q.field));
      path := if bound.ok then bound.refs else [INVALID];
    }
    var mid := NameEnv(d, b.env, q.field);
    var e, f := ValuesEnv(mid, w.args), Atom(path, w.verb, ValueRefs(mid.valueCounter, |w.args|));
    TakenWith(d, b, q, mid, path, e, f);
    m := Put(b, e, q, Some(f));
  }

  lemma TakenWith(d: Dialect, b: Draft, q: Request, mid: Env, path: seq<string>, e: Env, f: Frag)
    requires Asked(d, q).Some? && Asked(d, q).value.Says? && NameAdded(d, b.env, q.field, mid, path)
    requires ValuesAdded(mid, Asked(d, q).value.args, e)
    requires f == Atom(path, Asked(d, q).value.verb, ValueRefs(mid.valueCounter, |Asked(d, q).value.args|))
    ensures Stepped(d, b, q, Put(b, e, q, Some(f)))
  {
    var w := Asked(d, q).value;
    hide Asked, NameAdded, ValuesAdded, Put;
    assert Bound2(d, b.env, q.field, w.verb, w.args, e, f);
    assert Built(d, b.env, q.field, Asked(d, q), e, Some(f));
  }

  lemma AskedUpdate(d: Dialect, change: Change, field: string)
    ensures Asked(d, AddUpdate(change, field, true)) ==
            match Converted(ValsOf(change))
            case Some(vs) => Some(Says(Split(field), VerbOf(change), vs))
            case None => None
  {
  }

  lemma PutUpdate(b: Draft, e: Env, q: Request, f: Frag)
    requires q.AddUpdate?
    ensures Put(b, e, q, Some(f)) == b.(env := e, updates := b.updates + [f])
  {
  }

  lemma {:induction false} TakenRun(d: Dialect, b: Draft, qs: seq<Request>) returns (b': Draft)
    requires AllTaken(d, qs)
    ensures Run(d, b, qs, b')
    decreases |qs|
  {
    b' := b;
    if qs != [] {
      hide Stepped, Asked;
      var m := TakenStep(d, b, qs[0]);
      b' := TakenRun(d, m, qs[1..]);
    }
  }

  // ----- each value placeholder serves one operand

  function Refs(fs: seq<Frag>): multiset<string> {
    if fs == [] then multiset{}
    else (if fs[0].Atom? then multiset(fs[0].vals) else multiset{}) + Refs(fs[1..])
  }

  lemma {:induction false} RefsAppend(fs: seq<Frag>, f: Frag)
    requires f.Atom?
    ensures Refs(fs + [f]) == Refs(fs) + multiset(f.vals)
    decreases |fs|
  {
    if fs == [] {
      assert fs + [f] == [f] && [f][1..] == [];
    } else {
      assert (fs + [f])[1..] == fs[1..] + [f];
      RefsAppend(fs[1..], f);
    }
  }

  function AllRefs(b: Draft): multiset<string> {
    Refs(b.keys) + Refs(b.filters) + Refs(b.conditions) + Refs(b.updates) + Refs(b.projections)
  }

  /** Every reference so far was handed out once, by a counter value already passed. */
  ghost predicate Unshared(b: Draft) {
    Once(AllRefs(b), -1, b.env.valueCounter)
  }

  lemma {:induction false} ValueRefsOnce(counter: nat, n: nat)
    ensures Once(multiset(ValueRefs(counter, n)), counter, counter + n)
    decreases n
  {
    if n > 0 {
      ValueRefsOnce(counter, n - 1);
      var last := ValueRef(counter + n);
      assert ValueRefs(counter, n) == ValueRefs(counter, n - 1) + [last];
      var before := ValueRefs(counter, n - 1);
      hide ValueRefs, ValueRef;
      assert multiset(before + [last]) == multiset(before) + multiset([last]);
      OnceTogether(multiset(before), multiset([last]), counter, counter + n - 1, counter + n);
    }
  }

  ghost predicate Once(refs: multiset<string>, low: int, high: int) {
    forall k :: k in refs ==> refs[k] == 1 && exists n: nat :: low < n <= high && k == ValueRef(n)
  }

  lemma OnceTogether(a: multiset<string>, b: multiset<string>, low: int, mid: int, high: int)
    requires low <= mid <= high && Once(a, low, mid) && Once(b, mid, high)
    ensures Once(a + b, low, high)
  {
    forall k | k in a + b ensures (a + b)[k] == 1 && exists n: nat :: low < n <= high && k == ValueRef(n) {
      if k in a && k in b {
        var m: nat :| m <= mid && k == ValueRef(m);
        var n: nat :| n > mid && k == ValueRef(n);
        RefsDistinct(m, n, "");
      }
    }
  }

  lemma StepUnshared(d: Dialect, b: Draft, q: Request, b': Draft)
    requires Stepped(d, b, q, b') && Unshared(b)
    ensures Unshared(b')
  {
    var e, r :| Built(d, b.env, q.field, Asked(d, q), e, r) && b' == Put(b, e, q, r);
    if r.Some? {
      var w := Asked(d, q).value;
      BoundCounters(d, b.env, q.field, w.verb, w.args, e, r.value);
      AppendedRefs(b, e, q, r.value);
      ValueRefsOnce(b.env.valueCounter, |w.args|);
      OnceTogether(AllRefs(b), multiset(r.value.vals), -1, b.env.valueCounter, e.valueCounter);
    } else {
      ResidueCounters(d, b.env, q.field, e);
      OnceWider(AllRefs(b), b.env.valueCounter, e.valueCounter);
    }
  }

  lemma OnceWider(refs: multiset<string>, high: int, higher: int)
    requires high <= higher && Once(refs, -1, high)
    ensures Once(refs, -1, higher)
  {
  }

  lemma BoundCounters(d: Dialect, e: Env, field: string, verb: Verb, vs: seq<AV>, e': Env, f: Frag)
    requires Bound2(d, e, field, verb, vs, e', f)
    ensures e'.valueCounter == e.valueCounter + |vs| && f.Atom? && f.vals == ValueRefs(e.valueCounter, |vs|)
  {
  }

  lemma ResidueCounters(d: Dialect, e: Env, field: string, e': Env)
    requires Residue(d, e, field, e')
    ensures e.valueCounter <= e'.valueCounter
  {
    if e' != e {
      var verb, vs, f :| Bound2(d, e, field, verb, vs, e', f);
      BoundCounters(d, e, field, verb, vs, e', f);
    }
  }

  lemma AppendedRefs(b: Draft, e: Env, q: Request, f: Frag)
    requires f.Atom?
    ensures AllRefs(Put(b, e, q, Some(f))) == AllRefs(b) + multiset(f.vals)
  {
    RefsAppend(b.At(SlotOf(q)), f);
    var b' := Put(b, e, q, Some(f));
    var k, l, c, u, p, m := Refs(b.keys), Refs(b.filters), Refs(b.conditions), Refs(b.updates), Refs(b.projections), multiset(f.vals);
    FiveSums(k, l, c, u, p, m);
    hide Refs;
    match SlotOf(q)
    case Keys => assert AllRefs(b') == (k + m) + l + c + u + p;
    case Filters => assert AllRefs(b') == k + (l + m) + c + u + p;
    case Conditions => assert AllRefs(b') == k + l + (c + m) + u + p;
    case Updates => assert AllRefs(b') == k + l + c + (u + m) + p;
    case Projections => assert AllRefs(b') == k + l + c + u + (p + m);
  }

  lemma FiveSums(a: multiset<string>, b: multiset<string>, c: multiset<string>, d: multiset<string>, e: multiset<string>, m: multiset<string>)
    ensures var all := a + b + c + d + e + m;
            && (a + m) + b + c + d + e == all && a + (b + m) + c + d + e == all && a + b + (c + m) + d + e == all
            && a + b + c + (d + m) + e == all && a + b + c + d + (e + m) == all
  {
  }

  /** No two operands anywhere in the builder share a value placeholder, so replacing the
      value of one operand touches no other. */
  lemma {:induction false} OperandsUnshared(d: Dialect, b: Draft, qs: seq<Request>, b': Draft)
    requires Run(d, b, qs, b') && Unshared(b)
    ensures Unshared(b')
    decreases |qs|
  {
    if qs != [] {
      var m :| Stepped(d, b, qs[0], m) && Run(d, m, qs[1..], b');
      StepUnshared(d, b, qs[0], m);
      OperandsUnshared(d, m, qs[1..], b');
    }
  }

  // ----- groups

  /** AddGroupFilter on values; what it means is in Groups. */
  function WithGroup(b: Draft, logic: Logic, g: Draft): Draft {
    var merged := b.(env := b.env.(names := b.env.names + g.env.names, values := b.env.values + g.env.values));
    if g.filters == [] then merged
    else merged.(filters := b.filters + [Group(g.filters, g.filterOps)], filterOps := Linked(b.filters, b.filterOps, logic))
  }

  lemma BoundParts(d: Dialect, e: Env, field: string, verb: Verb, vs: seq<AV>, e': Env, f: Frag) returns (mid: Env, path: seq<string>)
    requires Bound2(d, e, field, verb, vs, e', f)
    ensures NameAdded(d, e, field, mid, path) && ValuesAdded(mid, vs, e') && f == Atom(path, verb, ValueRefs(mid.valueCounter, |vs|))
  {
    mid, path :| && NameAdded(d, e, field, mid, path) && ValuesAdded(mid, vs, e')
                 && f == Atom(path, verb, ValueRefs(mid.valueCounter, |vs|));
  }

  lemma DecodeSingle(e: Env, f: Frag)
    requires Decode(e, f).Some?
    ensures DecodeAll(e, [f]) == Some([Decode(e, f).value])
  {
    assert [f][1..] == [];
    Reassociate([Decode(e, f).value], [], []);
  }

  lemma ReadOne(e: Env, name: string, verb: Verb, val: string)
    requires name in e.names && val in e.values
    ensures Decode(e, Atom([name], verb, [val])) == Some(Says([e.names[name]], verb, [e.values[val]]))
  {
    var f := Atom([name], verb, [val]);
    assert Bound(e, f.path, f.vals);
    assert Decode(e, f).value.path == [e.names[name]];
    assert Decode(e, f).value.args == [e.values[val]];
  }
}
