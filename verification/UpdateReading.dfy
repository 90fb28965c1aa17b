/** Update expressions as the table reads them: the text of each fragment taken apart again,
    its placeholders looked up, and the result against the calls that were made. */
module UpdateReading {
  import opened Wrappers
  import opened AttributeValues
  import opened Expressions
  import opened Builder
  import opened UpdateText
  import opened UpdateEncryption
  import opened EncryptedUpdates

  // ----- reading

  /** An attribute, or one element of a list; an operand, by its placeholder or looked up; or
      a function of two of these. */
  datatype Term =
    | Place(path: seq<string>, index: Option<nat>)
    | Operand(ref: string)
    | Value(v: AV)
    | Fn(name: string, x: Term, y: Term)
    | Unreadable

  datatype Clause =
    | Assign(target: Term, to: Term)
    | Increase(target: Term, amount: Term)
    | TakeOut(target: Term, what: Term)
    | Erase(target: Term)
    | Garbled

  predicate AllDigits(s: string) {
    s != "" && forall i :: 0 <= i < |s| ==> '0' <= s[i] <= '9'
  }

  /** `#a.#b` or `#a.#b[7]` */
  function ReadPlace(s: string): Term {
    var open := IndexOf(s, '[');
    if open < 0 then Place(Split(s), None)
    else if s[|s| - 1] == ']' && open + 1 < |s| - 1 && AllDigits(s[open + 1..|s| - 1]) then Place(Split(s[..open]), Some(Number(s[open + 1..|s| - 1])))
    else Unreadable
  }

  /** `:v` or a place */
  function ReadTerm(s: string): Term {
    if s != "" && s[0] == ':' then Operand(s) else ReadPlace(s)
  }

  /** `f(x, y)` or a term */
  function ReadValue(s: string): Term {
    var open := IndexOf(s, '(');
    if open < 0 then ReadTerm(s)
    else if s[|s| - 1] != ')' || open == |s| - 1 then Unreadable
    else
      var inner := s[open + 1..|s| - 1];
      var comma := IndexOf(inner, ',');
      if comma < 0 then Unreadable else Fn(s[..open], ReadTerm(Trim(inner[..comma])), ReadTerm(Trim(inner[comma + 1..])))
  }

  /** One fragment of a section. */
  function ReadClause(action: string, s: string): Clause {
    if action == "SET" then
      var equals := IndexOf(s, '=');
      if equals < 0 then Garbled else Assign(ReadPlace(Trim(s[..equals])), ReadValue(Trim(s[equals + 1..])))
    else if action == "REMOVE" then Erase(ReadPlace(s))
    else
      var space := IndexOf(s, ' ');
      if space < 0 then Garbled
      else if action == "ADD" then Increase(ReadPlace(s[..space]), ReadTerm(s[space + 1..]))
      else if action == "DELETE" then TakeOut(ReadPlace(s[..space]), ReadTerm(s[space + 1..]))
      else Garbled
  }

  // looking placeholders up

  function LookUp(e: Env, t: Term): Term {
    match t
    case Place(path, index) =>
      if forall i :: 0 <= i < |path| ==> path[i] in e.names
      then Place(seq(|path|, i requires 0 <= i < |path| => e.names[path[i]]), index) else Unreadable
    case Operand(ref) => if ref in e.values then Value(e.values[ref]) else Unreadable
    case Fn(name, x, y) => Fn(name, LookUp(e, x), LookUp(e, y))
    case Value(_) => t
    case Unreadable => t
  }

  function LookUpAll(e: Env, c: Clause): Clause {
    match c
    case Assign(t, to) => Assign(LookUp(e, t), LookUp(e, to))
    case Increase(t, v) => Increase(LookUp(e, t), LookUp(e, v))
    case TakeOut(t, what) => TakeOut(LookUp(e, t), LookUp(e, what))
    case Erase(t) => Erase(LookUp(e, t))
    case Garbled => c
  }

  /** One section of an update text, fragment by fragment, through the maps sent with it. */
  function ReadSection(e: Env, text: string, action: string): seq<Clause> {
    ReadEach(e, action, Section(Scan(Fields(text), map[], "", []), action))
  }

  function ReadEach(e: Env, action: string, ts: seq<string>): seq<Clause> {
    if ts == [] then [] else [LookUpAll(e, ReadClause(action, ts[0]))] + ReadEach(e, action, ts[1..])
  }

  // ----- reading what was printed

  lemma {:induction false} NumberOfDigits(n: nat)
    ensures Number(Digits(n)) == n
    decreases n
  {
    var s := Digits(n);
    DigitsEnd(n);
    assert s[|s| - 1] - '0' == (n % 10) as char;
    if n < 10 {
      assert s[..|s| - 1] == "";
    } else {
      NumberOfDigits(n / 10);
    }
  }

  lemma {:induction false} SplitJoined(path: seq<string>)
    requires path != [] && forall i :: 0 <= i < |path| ==> '.' !in path[i]
    ensures Split(Join(path, ".")) == path
    decreases |path|
  {
    if |path| == 1 {
      SplitPlain(path[0]);
    } else {
      var rest := Join(path[1..], ".");
      SplitJoined(path[1..]);
      SplitDot(rest);
      SplitAfter(path[0], "." + rest);
      assert Join(path, ".") == path[0] + ("." + rest);
      assert path[0] + "" == path[0] && path == [path[0]] + path[1..];
    }
  }

  predicate PlacePath(path: seq<string>) {
    path != [] && forall i :: 0 <= i < |path| ==> NameOk(path[i])
  }

  lemma IndexOfFirst(a: string, c: char, b: string)
    requires c !in a
    ensures IndexOf(a + [c] + b, c) == |a|
  {
    var s := a + [c] + b;
    assert s[|a|] == c && forall j :: 0 <= j < |a| ==> s[j] == a[j];
  }

  lemma IndexedReads(n: string, i: nat)
    requires '[' !in n
    ensures ReadPlace(n + "[" + Digits(i) + "]") == Place(Split(n), Some(i))
  {
    var digits := Digits(i);
    var s := n + "[" + digits + "]";
    NumberOfDigits(i);
    IndexOfFirst(n, '[', digits + "]");
    assert s == n + ['['] + (digits + "]");
    assert AllDigits(digits);
    hide Digits, Number, IndexOf, Split, AllDigits;
    assert s[..|n|] == n && s[|n| + 1..|s| - 1] == digits && s[|s| - 1] == ']';
  }

  lemma PlaceReads(path: seq<string>, index: Option<nat>)
    requires PlacePath(path)
    ensures ReadPlace(Target(path, index)) == Place(path, index)
  {
    NameTextNoBracket(path);
    assert forall i :: 0 <= i < |path| ==> NameOk(path[i]) && '.' !in path[i];
    SplitJoined(path);
    hide Digits, Number, Split, Join;
    if index.Some? {
      IndexedReads(NameText(path), index.value);
    }
  }

  lemma NotIn(s: string, c: char)
    requires Tame(s) && (c == '(' || c == '=' || c == ',' || c == ' ')
    ensures IndexOf(s, c) == -1
  {
  }

  lemma ValueReads(v: string)
    requires ValueOk(v)
    ensures ReadTerm(v) == Operand(v) && ReadValue(v) == Operand(v)
  {
    NotIn(v, '(');
  }

  lemma NameReads(path: seq<string>)
    requires PlacePath(path)
    ensures ReadTerm(NameText(path)) == Place(path, None)
  {
    NameTextTame(path);
    PlaceReads(path, None);
    hide ReadPlace, NameText;
  }

  lemma AssignReads(t: string, rhs: string)
    requires Tame(t) && rhs != "" && !Space(rhs[0]) && !Space(rhs[|rhs| - 1])
    ensures ReadClause("SET", t + " = " + rhs) == Assign(ReadPlace(t), ReadValue(rhs))
  {
    SplitAtEquals(t, rhs);
    hide ReadPlace, ReadValue, Trim, Tame;
  }

  lemma FnReads(f: string, x: string, y: string)
    requires Tame(f) && Tame(x) && Tame(y)
    ensures ReadValue(f + "(" + x + ", " + y + ")") == Fn(f, ReadTerm(x), ReadTerm(y))
  {
    var inner := x + ", " + y;
    var s := f + "(" + x + ", " + y + ")";
    assert s == f + ['('] + (inner + ")") && inner == x + [','] + (" " + y);
    IndexOfFirst(f, '(', inner + ")");
    IndexOfFirst(x, ',', " " + y);
    assert s[..|f|] == f && s[|f| + 1..|s| - 1] == inner && s[|s| - 1] == ')';
    assert inner[..|x|] == x && inner[|x| + 1..] == " " + y;
    TrimSolid(x);
    TrimSolid(y);
    hide ReadTerm, Trim, IndexOf, Tame;
  }

  lemma CallReads(n: string, f: string, x: string, y: string)
    requires Tame(n) && Tame(f) && Tame(x) && Tame(y)
    ensures ReadClause("SET", Call(n, f, x, y)) == Assign(ReadPlace(n), Fn(f, ReadTerm(x), ReadTerm(y)))
  {
    var rhs := f + "(" + x + ", " + y + ")";
    CallSplits(n, f, x, y);
    CallTrims(f, x, y);
    FnReads(f, x, y);
    assert !Space(f[0]) && rhs[|rhs| - 1] == ')';
    hide ReadPlace, ReadValue, ReadTerm, Trim, Tame, Call, ReadClause;
    AssignReads(n, rhs);
  }

  lemma PairReads(n: string, v: string)
    requires Tame(n)
    ensures ReadClause("ADD", n + " " + v) == Increase(ReadPlace(n), ReadTerm(v))
    ensures ReadClause("DELETE", n + " " + v) == TakeOut(ReadPlace(n), ReadTerm(v))
  {
    var s := n + " " + v;
    IndexOfFirst(n, ' ', v);
    assert s == n + [' '] + v && s[..|n|] == n && s[|n| + 1..] == v;
    hide ReadPlace, ReadTerm, IndexOf, Tame;
  }

  /** What a call's fragment should be read as, operands still by placeholder. */
  function AsRead(op: Op): Clause {
    match op
    case Set(path, index, v) => Assign(Place(path, index), Operand(v))
    case IfMissing(path, v) => Assign(Place(path, None), Fn("if_not_exists", Place(path, None), Operand(v)))
    case Append(path, v) => Assign(Place(path, None), Fn("list_append", Place(path, None), Operand(v)))
    case Prepend(path, v) => Assign(Place(path, None), Fn("list_append", Operand(v), Place(path, None)))
    case Concat(path, v, w) => Assign(Place(path, None), Fn("list_append", Operand(v), Operand(w)))
    case Add(path, v) => Increase(Place(path, None), Operand(v))
    case Delete(path, v) => TakeOut(Place(path, None), Operand(v))
    case Remove(path, index) => Erase(Place(path, index))
  }

  lemma RemoveReads(s: string)
    ensures ReadClause("REMOVE", s) == Erase(ReadPlace(s))
  {
    assert "REMOVE"[0] == 'R' && "SET"[0] == 'S';
  }

  lemma FnNamesTame()
    ensures Tame(LIST_APPEND) && Tame(IF_NOT_EXISTS)
  {
  }

  /** Print, then read: the path, the index, the operands and their order come back. */
  lemma PrintedReads(op: Op)
    requires Well(op)
    ensures ReadClause(Action(op), Printed(op)) == AsRead(op)
  {
    var n := NameText(op.path);
    assert PlacePath(op.path);
    FnNamesTame();
    NameTextTame(op.path);
    NameReads(op.path);
    PlaceReads(op.path, None);
    if !op.Remove? { ValueReads(op.v); }
    if op.Concat? { ValueReads(op.w); }
    hide ReadClause, ReadTerm, ReadValue, ReadPlace, NameText, Call;
    match op
    case Set(path, index, v) =>
      TargetTame(path, index);
      PlaceReads(path, index);
      hide Target;
      AssignReads(Target(path, index), v);
    case IfMissing(path, v) => CallReads(n, IF_NOT_EXISTS, n, v);
    case Append(path, v) => CallReads(n, LIST_APPEND, n, v);
    case Prepend(path, v) => CallReads(n, LIST_APPEND, v, n);
    case Concat(path, v, w) => CallReads(n, LIST_APPEND, v, w);
    case Add(path, v) => PairReads(n, v);
    case Delete(path, v) => PairReads(n, v);
    case Remove(path, index) =>
      PlaceReads(path, index);
      RemoveReads(Target(path, index));
  }

  // ----- what the calls state

  /** The section a call's fragment is printed in. */
  function SectionFor(change: Change): string {
    match change
    case Plus(_) => "ADD"
    case Less(_) => "DELETE"
    case Dropped(_) => "REMOVE"
    case ToValue(_, _) => "SET"
    case ToDefault(_) => "SET"
    case ToAppended(_) => "SET"
    case ToPrepended(_) => "SET"
    case ToJoined(_, _) => "SET"
  }

  /** What an update call states about the attribute at a path, if its operands convert. */
  function Statement(change: Change, path: seq<string>): Option<Clause> {
    var self := Place(path, None);
    match change
    case ToValue(index, Some(v)) => Some(Assign(Place(path, index), Value(v)))
    case ToDefault(Some(v)) => Some(Assign(self, Fn("if_not_exists", self, Value(v))))
    case ToAppended(Some(v)) => Some(Assign(self, Fn("list_append", self, Value(v))))
    case ToPrepended(Some(v)) => Some(Assign(self, Fn("list_append", Value(v), self)))
    case ToJoined(Some(v), Some(w)) => Some(Assign(self, Fn("list_append", Value(v), Value(w))))
    case Plus(Some(v)) => Some(Increase(self, Value(v)))
    case Less(Some(v)) => Some(TakeOut(self, Value(v)))
    case Dropped(index) => Some(Erase(Place(path, index)))
    case _ => None
  }

  /** What a run of calls states in one section, in the order of the calls. */
  function Statements(qs: seq<Request>, action: string): seq<Clause> {
    if qs == [] then [] else StatedBy(qs[0], action) + Statements(qs[1..], action)
  }

  function StatedBy(q: Request, action: string): seq<Clause> {
    if q.AddUpdate? && q.checked && SectionFor(q.change) == action && Statement(q.change, Split(q.field)).Some?
    then [Statement(q.change, Split(q.field)).value] else []
  }

  // the same, read off the meanings

  predicate IsUpdate(m: Meaning) {
    m.Says? &&
    match m.verb
    case JoinTo => |m.args| == 2
    case RemoveAt(_) => m.args == []
    case SetTo(_) => |m.args| == 1
    case DefaultTo => |m.args| == 1
    case AppendTo => |m.args| == 1
    case PrependTo => |m.args| == 1
    case AddTo => |m.args| == 1
    case DeleteFrom => |m.args| == 1
    case _ => false
  }

  function ChangeOf(m: Meaning): Change
    requires IsUpdate(m)
  {
    match m.verb
    case SetTo(index) => ToValue(index, Some(m.args[0]))
    case DefaultTo => ToDefault(Some(m.args[0]))
    case AppendTo => ToAppended(Some(m.args[0]))
    case PrependTo => ToPrepended(Some(m.args[0]))
    case JoinTo => ToJoined(Some(m.args[0]), Some(m.args[1]))
    case AddTo => Plus(Some(m.args[0]))
    case DeleteFrom => Less(Some(m.args[0]))
    case RemoveAt(index) => Dropped(index)
  }

  /** The accepted call a meaning comes from. */
  lemma AskedIsChange(d: Dialect, change: Change, field: string)
    ensures var m := Asked(d, AddUpdate(change, field, true));
            && (m.Some? <==> Statement(change, Split(field)).Some?)
            && (m.Some? ==> IsUpdate(m.value) && ChangeOf(m.value) == change && m.value.path == Split(field))
  {
    AskedUpdate(d, change, field);
    ConvertsIf(ValsOf(change));
    hide Asked, Converted;
  }

  lemma ConvertsIf(vs: seq<Option<AV>>)
    requires |vs| <= 2
    ensures Converted(vs).Some? <==> forall i :: 0 <= i < |vs| ==> vs[i].Some?
  {
    if vs != [] {
      assert |vs[1..]| <= 1;
      if |vs| == 2 { assert vs[1..][0] == vs[1] && vs[1..][1..] == []; }
    }
  }

  lemma UpdateShape(e: Env, f: Frag, m: Meaning)
    requires EncryptedUpdates.Reads(e, f, m)
    ensures f.Atom? && IsChange(f) && IsUpdate(m) && m.verb == f.verb && m.path != []
  {
    ShapedAtom(f);
    hide Shaped;
  }

  lemma SectionAgrees(f: Frag, m: Meaning)
    requires IsChange(f) && IsUpdate(m) && m.verb == f.verb
    ensures Action(OpOf(f)) == SectionFor(ChangeOf(m))
  {
  }

  lemma LookUpPath(e: Env, f: Frag, m: Meaning)
    requires EncryptedUpdates.Reads(e, f, m) && f.Atom?
    ensures forall index :: LookUp(e, Place(f.path, index)) == Place(m.path, index)
    ensures forall i :: 0 <= i < |f.vals| ==> LookUp(e, Operand(f.vals[i])) == Value(m.args[i])
  {
    hide Shaped;
    assert seq(|f.path|, i requires 0 <= i < |f.path| => e.names[f.path[i]]) == m.path;
  }

  lemma LookUpFn(e: Env, name: string, x: Term, y: Term)
    ensures LookUp(e, Fn(name, x, y)) == Fn(name, LookUp(e, x), LookUp(e, y))
  {
  }

  lemma AsReadStates(e: Env, f: Frag, m: Meaning)
    requires IsChange(f) && IsUpdate(m) && m.verb == f.verb && |m.args| == |f.vals|
    requires forall index :: LookUp(e, Place(f.path, index)) == Place(m.path, index)
    requires forall i :: 0 <= i < |f.vals| ==> LookUp(e, Operand(f.vals[i])) == Value(m.args[i])
    ensures Some(LookUpAll(e, AsRead(OpOf(f)))) == Statement(ChangeOf(m), m.path)
  {
    var self := Place(f.path, None);
    if |f.vals| == 1 {
      LookUpFn(e, "if_not_exists", self, Operand(f.vals[0]));
      LookUpFn(e, "list_append", self, Operand(f.vals[0]));
      LookUpFn(e, "list_append", Operand(f.vals[0]), self);
    }
    if |f.vals| == 2 {
      LookUpFn(e, "list_append", Operand(f.vals[0]), Operand(f.vals[1]));
    }
    hide LookUp;
  }

  /** A fragment, printed and read through the maps, states what it says. */
  lemma FragmentStates(e: Env, f: Frag, m: Meaning)
    requires EncryptedUpdates.Reads(e, f, m)
    ensures f.Atom? && IsUpdate(m) && m.path != [] && IsChange(f) && Action(OpOf(f)) == SectionFor(ChangeOf(m))
    ensures Some(LookUpAll(e, ReadClause(Action(OpOf(f)), Printed(OpOf(f))))) == Statement(ChangeOf(m), m.path)
  {
    UpdateShape(e, f, m);
    OpWell(f);
    assert |m.args| == |f.vals|;
    hide Well, Shaped, ReadClause, Printed, AsRead, LookUp, LookUpAll, Statement, Action, OpOf, ChangeOf, SectionFor, IsUpdate, IsChange;
    PrintedReads(OpOf(f));
    LookUpPath(e, f, m);
    hide EncryptedUpdates.Reads;
    SectionAgrees(f, m);
    AsReadStates(e, f, m);
  }

  // ----- whole updates

  predicate AllUpdates(ms: seq<Meaning>) {
    forall i :: 0 <= i < |ms| ==> IsUpdate(ms[i])
  }

  /** What a list of meanings states in one section. */
  function StatedIn(ms: seq<Meaning>, action: string): seq<Clause>
    requires AllUpdates(ms)
  {
    if ms == [] then [] else
      (if SectionFor(ChangeOf(ms[0])) == action && Statement(ChangeOf(ms[0]), ms[0].path).Some?
       then [Statement(ChangeOf(ms[0]), ms[0].path).value] else [])
      + StatedIn(ms[1..], action)
  }

  lemma OpsForCons(ops: seq<Op>, action: string)
    requires ops != []
    ensures OpsFor(ops, action) == if Action(ops[0]) == action then [ops[0]] + OpsFor(ops[1..], action) else OpsFor(ops[1..], action)
  {
    hide Action;
    assert [] + OpsFor(ops[1..], action) == OpsFor(ops[1..], action);
  }

  lemma ReadMore(e: Env, op: Op, os: seq<Op>, action: string)
    ensures ReadEach(e, action, PrintedAll([op] + os)) == [LookUpAll(e, ReadClause(action, Printed(op)))] + ReadEach(e, action, PrintedAll(os))
  {
    hide LookUpAll, ReadClause, Printed;
    var ts := PrintedAll([op] + os);
    assert ts[0] == Printed(op) && ts[1..] == PrintedAll(os);
  }

  lemma ReadCons(e: Env, ops: seq<Op>, action: string)
    requires ops != []
    ensures ReadEach(e, action, PrintedAll(OpsFor(ops, action))) ==
            (if Action(ops[0]) == action then [LookUpAll(e, ReadClause(action, Printed(ops[0])))] else [])
            + ReadEach(e, action, PrintedAll(OpsFor(ops[1..], action)))
  {
    hide *;
    OpsForCons(ops, action);
    ReadMore(e, ops[0], OpsFor(ops[1..], action), action);
    var rest := ReadEach(e, action, PrintedAll(OpsFor(ops[1..], action)));
    assert [] + rest == rest;
  }

  lemma StatedCons(ms: seq<Meaning>, action: string)
    requires ms != [] && AllUpdates(ms[1..]) && IsUpdate(ms[0])
    ensures AllUpdates(ms)
    ensures StatedIn(ms, action) ==
            (if SectionFor(ChangeOf(ms[0])) == action && Statement(ChangeOf(ms[0]), ms[0].path).Some?
             then [Statement(ChangeOf(ms[0]), ms[0].path).value] else []) + StatedIn(ms[1..], action)
  {
    hide IsUpdate, ChangeOf, SectionFor, Statement;
    assert forall i :: 0 <= i < |ms| ==> ms[i] == if i == 0 then ms[0] else ms[1..][i - 1];
  }

  /** The printed call, read through the maps, is what the meaning states. */
  ghost predicate Tells(e: Env, op: Op, m: Meaning) {
    && IsUpdate(m) && Action(op) == SectionFor(ChangeOf(m))
    && Some(LookUpAll(e, ReadClause(Action(op), Printed(op)))) == Statement(ChangeOf(m), m.path)
  }

  lemma {:induction false} CallsStates(e: Env, ops: seq<Op>, ms: seq<Meaning>, action: string)
    requires |ops| == |ms| && AllUpdates(ms) && forall i :: 0 <= i < |ops| ==> Tells(e, ops[i], ms[i])
    ensures ReadEach(e, action, PrintedAll(OpsFor(ops, action))) == StatedIn(ms, action)
    decreases |ops|
  {
    if ops != [] {
      var ot, mt := ops[1..], ms[1..];
      assert forall i :: 0 <= i < |ot| ==> ot[i] == ops[i + 1] && mt[i] == ms[i + 1];
      assert Tells(e, ops[0], ms[0]) && AllUpdates(mt);
      hide LookUpAll, ReadClause, Printed, Action, ChangeOf, SectionFor, IsUpdate, Statement, OpsFor, PrintedAll, ReadEach, StatedIn;
      CallsStates(e, ot, mt, action);
      StatedCons(ms, action);
      ReadCons(e, ops, action);
    }
  }

  lemma SectionStates(e: Env, fs: seq<Frag>, ms: seq<Meaning>, action: string)
    requires |fs| == |ms| && forall i :: 0 <= i < |fs| ==> EncryptedUpdates.Reads(e, fs[i], ms[i])
    ensures AllChanges(fs) && AllUpdates(ms)
    ensures ReadEach(e, action, PrintedAll(OpsFor(OpsOf(fs), action))) == StatedIn(ms, action)
  {
    hide LookUpAll, ReadClause, Printed, Action, ChangeOf, SectionFor, IsUpdate, IsChange, Statement, OpsFor, PrintedAll, ReadEach, StatedIn, EncryptedUpdates.Reads;
    forall i | 0 <= i < |fs| ensures IsChange(fs[i]) && IsUpdate(ms[i]) && Tells(e, OpOf(fs[i]), ms[i]) {
      FragmentStates(e, fs[i], ms[i]);
    }
    hide Tells, OpOf;
    CallsStates(e, OpsOf(fs), ms, action);
  }

  lemma {:induction false} AskedStates(d: Dialect, qs: seq<Request>, action: string)
    ensures AllUpdates(AllAsked(d, qs, Updates))
    ensures StatedIn(AllAsked(d, qs, Updates), action) == Statements(qs, action)
    decreases |qs|
  {
    if qs != [] {
      var q, rest := qs[0], AllAsked(d, qs[1..], Updates);
      AskedStates(d, qs[1..], action);
      OneStates(d, q, action);
      assert AllAsked(d, qs, Updates) == Extra(d, q, Updates) + rest;
      hide AllAsked, Extra, StatedBy, IsUpdate;
      StatedConcat(Extra(d, q, Updates), rest, action);
    }
  }

  lemma OneStates(d: Dialect, q: Request, action: string)
    ensures AllUpdates(Extra(d, q, Updates)) && StatedIn(Extra(d, q, Updates), action) == StatedBy(q, action)
  {
    if q.AddUpdate? && q.checked {
      AskedIsChange(d, q.change, q.field);
      assert q == AddUpdate(q.change, q.field, true);
    }
    hide IsUpdate, ChangeOf, SectionFor, Statement;
    var ms := Extra(d, q, Updates);
    if ms != [] { assert ms[1..] == []; }
  }

  lemma StatedConcat(xs: seq<Meaning>, ms: seq<Meaning>, action: string)
    requires |xs| <= 1 && AllUpdates(xs) && AllUpdates(ms)
    ensures AllUpdates(xs + ms) && StatedIn(xs + ms, action) == StatedIn(xs, action) + StatedIn(ms, action)
  {
    hide IsUpdate, ChangeOf, SectionFor, Statement;
    if xs == [] {
      assert xs + ms == ms;
    } else {
      assert (xs + ms)[1..] == ms && xs[1..] == [];
      assert forall i :: 0 <= i < |xs + ms| ==> (xs + ms)[i] == if i == 0 then xs[0] else ms[i - 1];
    }
  }

  /** The text of every update that can be built means what the calls said.  For any run of
      calls on a new builder and any order of sections: each section of the printed text, its
      fragments taken apart and looked up in the maps sent with it, states exactly what the
      accepted calls of that action stated, in the order of the calls: the attribute or list
      element at that index, the operand, the amount, and for list_append and if_not_exists
      the arguments in their order. */
  lemma UpdateTextStates(d: Dialect, qs: seq<Request>, b: Draft, parts: set<string>, order: seq<string>, action: string)
    requires Run(d, Empty(), qs, b) && Uses(d, qs, parts) && NoVariants(d, parts) && PlainWords(d)
    requires AllChanges(b.updates) ==> Order(SheetOf(OpsOf(b.updates)), order)
    requires action in {"SET", "ADD", "REMOVE", "DELETE"}
    ensures AllChanges(b.updates)
    ensures ReadSection(b.env, UpdateEncryption.Text(OpsOf(b.updates), order), action) == Statements(qs, action)
  {
    RunIsSound(d, qs, b, parts);
    hide Run, Uses, NoVariants, PlainWords, Order, ReadEach, Statements, Said;
    SoundReads(b);
    SoundOps(b);
    hide Sound;
    UpdateRoundTrip(OpsOf(b.updates), order, action);
    SectionStates(b.env, b.updates, Said(b, Updates).value, action);
    AskedStates(d, qs, action);
  }

  // ----- from the calls as their authors write them

  lemma {:induction false} LastIndexAt(a: string, c: char, b: string)
    requires c !in b
    ensures LastIndexOf(a + [c] + b, c) == |a|
    decreases |b|
  {
    var s := a + [c] + b;
    if b == "" {
      assert s[|s| - 1] == c && |s| - 1 == |a|;
    } else {
      var init := b[..|b| - 1];
      assert s[|s| - 1] == b[|b| - 1] && s[..|s| - 1] == a + [c] + init;
      LastIndexAt(a, c, init);
    }
  }

  lemma BracketAt(base: string, digits: string)
    requires '[' !in digits
    ensures var field := base + "[" + digits + "]";
            && LastIndexOf(field, '[') == |base| && field[|field| - 1] == ']' && |field| == |base| + |digits| + 2
            && field[..|base|] == base && field[|base| + 1..|field| - 1] == digits
  {
    LastIndexAt(base, '[', digits + "]");
    hide LastIndexOf;
    assert base + "[" + digits + "]" == base + ['['] + (digits + "]");
  }

  /** `name[7]` is element 7 of name, whatever the name. */
  lemma ElementParses(base: string, i: nat)
    requires base != "" && i <= 0x7fff_ffff_ffff_ffff
    ensures ParseIndex(base + "[" + Digits(i) + "]") == Indexed(base, i)
  {
    hide LastIndexOf, Number, Digits;
    BracketAt(base, Digits(i));
    NumberOfDigits(i);
    var field, digits := base + "[" + Digits(i) + "]", Digits(i);
    assert digits != "" && forall k :: 0 <= k < |digits| ==> '0' <= digits[k] <= '9';
  }

  /** And nothing else is: an element is a name, a decimal index in brackets, and no more. */
  lemma ParsedElement(field: string)
    ensures match ParseIndex(field)
            case Indexed(base, i) => base != "" && i <= 0x7fff_ffff_ffff_ffff && exists digits :: AllDigits(digits) && Number(digits) == i && field == base + "[" + digits + "]"
            case Plain => '[' !in field || field[|field| - 1] != ']'
            case BadIndex => '[' in field && field[|field| - 1] == ']' && !exists base, i: nat :: base != "" && i <= 0x7fff_ffff_ffff_ffff && field == base + "[" + Digits(i) + "]"
  {
    match ParseIndex(field)
    case Indexed(base, i) =>
      var open := LastIndexOf(field, '[');
      var digits := field[open + 1..|field| - 1];
      assert field == field[..open] + "[" + digits + "]";
      assert AllDigits(digits) && Number(digits) == i;
    case BadIndex =>
      forall base: string, i: nat | base != "" && i <= 0x7fff_ffff_ffff_ffff ensures field != base + "[" + Digits(i) + "]" {
        ElementParses(base, i);
      }
    case Plain =>
  }

  /** Set and Remove of an element, and of a whole attribute. */
  lemma SetAndRemoveState(d: Dialect, field: string, i: nat, v: AV)
    requires field != "" && i <= 0x7fff_ffff_ffff_ffff
    ensures var element := field + "[" + Digits(i) + "]";
            d.valid(element) ==>
              && StatedBy(SetRequest(d, element, Some(v)), "SET") == [Assign(Place(Split(field), Some(i)), Value(v))]
              && StatedBy(RemoveRequest(d, element), "REMOVE") == [Erase(Place(Split(field), Some(i)))]
    ensures d.valid(field) && ('[' !in field || field[|field| - 1] != ']') ==>
              && StatedBy(SetRequest(d, field, Some(v)), "SET") == [Assign(Place(Split(field), None), Value(v))]
              && StatedBy(RemoveRequest(d, field), "REMOVE") == [Erase(Place(Split(field), None))]
  {
    var element := field + "[" + Digits(i) + "]";
    ElementParses(field, i);
    ParsedElement(field);
    if '[' !in field || field[|field| - 1] != ']' { NotBad(field); }
    hide ParseIndex, Digits, Split, StatedBy, SetRequest, RemoveRequest, LastIndexOf;
    if d.valid(element) { ParsedStates(d, element, v); }
    if d.valid(field) { ParsedStates(d, field, v); }
  }

  lemma NotBad(field: string)
    requires field != "" && ('[' !in field || field[|field| - 1] != ']')
    ensures ParseIndex(field) == Plain
  {
  }

  /** A call on a valid field, by the parse of the field. */
  lemma ParsedStates(d: Dialect, field: string, v: AV)
    requires d.valid(field)
    ensures var sets, removes := StatedBy(SetRequest(d, field, Some(v)), "SET"), StatedBy(RemoveRequest(d, field), "REMOVE");
            match ParseIndex(field)
            case Indexed(base, i) => sets == [Assign(Place(Split(base), Some(i)), Value(v))] && removes == [Erase(Place(Split(base), Some(i)))]
            case Plain => sets == [Assign(Place(Split(field), None), Value(v))] && removes == [Erase(Place(Split(field), None))]
            case BadIndex => sets == [] && removes == []
  {
    hide ParseIndex, Split;
  }

  /** Add, Delete and the update functions, with their arguments where the caller put them. */
  lemma OtherCallsState(d: Dialect, field: string, x: FnArg, y: FnArg, v: AV)
    ensures d.valid(field) ==>
              && StatedBy(AddRequest(d, field, Some(v)), "ADD") == [Increase(Place(Split(field), None), Value(v))]
              && StatedBy(DeleteRequest(d, field, Some(v)), "DELETE") == [TakeOut(Place(Split(field), None), Value(v))]
    ensures y.v.Some? ==>
              StatedBy(FunctionRequest(field, "if_not_exists", [x, y]), "SET") ==
              [Assign(Place(Split(field), None), Fn("if_not_exists", Place(Split(field), None), Value(y.v.value)))]
    ensures (x.isField || x.v.Some?) && ((y.isField && !x.isField) || y.v.Some?) ==>
              StatedBy(FunctionRequest(field, "list_append", [x, y]), "SET") ==
              [Assign(Place(Split(field), None), Fn("list_append", ArgTerm(x, true, field), ArgTerm(y, !x.isField, field)))]
  {
    hide Split;
    assert "list_append"[0] == 'l' && "if_not_exists"[0] == 'i';
  }

  /** An argument of list_append: the attribute itself, where it may stand for it, or a value. */
  function ArgTerm(x: FnArg, mayBeField: bool, field: string): Term
    requires (x.isField && mayBeField) || x.v.Some?
  {
    if x.isField && mayBeField then Place(Split(field), None) else Value(x.v.value)
  }

  // ----- after the encryption pass

  /** The call with the value it gives a whole encrypted attribute encrypted. */
  function Encrypted(enc: Cipher, encrypted: set<string>, change: Change, path: seq<string>): Change {
    if |path| != 1 || path[0] == "" || path[0] !in encrypted then change
    else
      match change
      case ToValue(None, Some(v)) => ToValue(None, enc(path[0], v))
      case ToDefault(Some(v)) => ToDefault(enc(path[0], v))
      case _ => change
  }

  /** What the pass lets through: anything on attributes that are not encrypted; on an
      encrypted one, giving the whole of it a value that encrypts, removing it or a part of it,
      and adding to or deleting from the inside. */
  predicate LetThrough(enc: Cipher, encrypted: set<string>, change: Change, path: seq<string>) {
    path == [] || path[0] == "" || path[0] !in encrypted ||
    match change
    case ToValue(None, Some(v)) => |path| == 1 && enc(path[0], v).Some?
    case ToDefault(Some(v)) => |path| == 1 && enc(path[0], v).Some?
    case Plus(_) => |path| > 1
    case Less(_) => |path| > 1
    case Dropped(_) => true
    case _ => false
  }

  predicate Accepted(q: Request) {
    q.AddUpdate? && q.checked && Statement(q.change, Split(q.field)).Some?
  }

  /** The calls with their changes encrypted. */
  function EncryptedCalls(enc: Cipher, encrypted: set<string>, qs: seq<Request>): (r: seq<Request>)
    ensures |r| == |qs|
  {
    seq(|qs|, i requires 0 <= i < |qs| => EncryptedCall(enc, encrypted, qs[i]))
  }

  function EncryptedCall(enc: Cipher, encrypted: set<string>, q: Request): Request {
    if q.AddUpdate? then q.(change := Encrypted(enc, encrypted, q.change, Split(q.field))) else q
  }

  predicate AllLetThrough(enc: Cipher, encrypted: set<string>, qs: seq<Request>) {
    forall i :: 0 <= i < |qs| && Accepted(qs[i]) ==> LetThrough(enc, encrypted, qs[i].change, Split(qs[i].field))
  }

  lemma ChangeSealed(enc: Cipher, encrypted: set<string>, m: Meaning)
    requires IsUpdate(m) && m.path != []
    ensures Encryptable(enc, encrypted, m) <==> LetThrough(enc, encrypted, ChangeOf(m), m.path)
    ensures Encryptable(enc, encrypted, m) ==>
              var s := Sealed(enc, encrypted, m); IsUpdate(s) && s.path == m.path && ChangeOf(s) == Encrypted(enc, encrypted, ChangeOf(m), m.path)
  {
  }

  lemma ChangeEncrypted(enc: Cipher, encrypted: set<string>, change: Change, path: seq<string>)
    ensures var c := Encrypted(enc, encrypted, change, path);
            && SectionFor(c) == SectionFor(change)
            && (LetThrough(enc, encrypted, change, path) && Statement(change, path).Some? ==> Statement(c, path).Some?)
            && (Statement(change, path).None? ==> Statement(c, path).None?)
  {
  }

  lemma OneSealed(d: Dialect, enc: Cipher, encrypted: set<string>, q: Request, action: string)
    ensures var ms := Extra(d, q, Updates);
            && |ms| <= 1 && AllUpdates(ms) && (ms != [] <==> Accepted(q)) && (ms != [] ==> ms[0].path == Split(q.field) && ms[0].path != [])
            && (ms != [] ==> (Encryptable(enc, encrypted, ms[0]) <==> LetThrough(enc, encrypted, q.change, Split(q.field))))
            && (ms != [] && Encryptable(enc, encrypted, ms[0]) ==>
                  && IsUpdate(Sealed(enc, encrypted, ms[0]))
                  && StatedIn([Sealed(enc, encrypted, ms[0])], action) == StatedBy(EncryptedCall(enc, encrypted, q), action))
            && (ms == [] ==> StatedBy(EncryptedCall(enc, encrypted, q), action) == [])
  {
    var ms := Extra(d, q, Updates);
    if q.AddUpdate? {
      ChangeEncrypted(enc, encrypted, q.change, Split(q.field));
      if q.checked {
        AskedIsChange(d, q.change, q.field);
        assert q == AddUpdate(q.change, q.field, true);
      }
    }
    hide Asked, Encrypted, Statement, SectionFor, LetThrough, Split, Encryptable, Sealed, ChangeOf, IsUpdate;
    if ms != [] {
      ChangeSealed(enc, encrypted, ms[0]);
      if Encryptable(enc, encrypted, ms[0]) {
        var s := Sealed(enc, encrypted, ms[0]);
        assert [s][1..] == [];
        assert StatedIn([], action) == [];
      }
    }
  }

  ghost predicate AllEncryptable(enc: Cipher, encrypted: set<string>, ms: seq<Meaning>) {
    Proper(ms) && forall i :: 0 <= i < |ms| ==> Encryptable(enc, encrypted, ms[i])
  }

  lemma EncryptableCons(enc: Cipher, encrypted: set<string>, xs: seq<Meaning>, ms: seq<Meaning>)
    ensures AllEncryptable(enc, encrypted, xs + ms) <==> AllEncryptable(enc, encrypted, xs) && AllEncryptable(enc, encrypted, ms)
    ensures AllEncryptable(enc, encrypted, xs + ms) ==> SealedAll(enc, encrypted, xs + ms) == SealedAll(enc, encrypted, xs) + SealedAll(enc, encrypted, ms)
  {
    hide Encryptable, Sealed;
    var all := xs + ms;
    assert forall i :: 0 <= i < |xs| ==> all[i] == xs[i];
    assert forall i :: 0 <= i < |ms| ==> all[|xs| + i] == ms[i];
  }

  lemma LetThroughCons(enc: Cipher, encrypted: set<string>, qs: seq<Request>)
    requires qs != []
    ensures AllLetThrough(enc, encrypted, qs) <==>
            (Accepted(qs[0]) ==> LetThrough(enc, encrypted, qs[0].change, Split(qs[0].field))) && AllLetThrough(enc, encrypted, qs[1..])
    ensures EncryptedCalls(enc, encrypted, qs)[0] == EncryptedCall(enc, encrypted, qs[0])
    ensures EncryptedCalls(enc, encrypted, qs)[1..] == EncryptedCalls(enc, encrypted, qs[1..])
  {
    hide Statement, LetThrough, Split, EncryptedCall;
    var rest := qs[1..];
    assert forall i :: 0 <= i < |rest| ==> rest[i] == qs[i + 1];
    if AllLetThrough(enc, encrypted, rest) && (Accepted(qs[0]) ==> LetThrough(enc, encrypted, qs[0].change, Split(qs[0].field))) {
      forall i | 0 <= i < |qs| && Accepted(qs[i]) ensures LetThrough(enc, encrypted, qs[i].change, Split(qs[i].field)) {
        if i > 0 { assert qs[i] == rest[i - 1]; }
      }
    }
  }

  /** The pass lets an update through exactly when it lets every accepted call through. */
  lemma {:induction false} EncryptableIff(d: Dialect, enc: Cipher, encrypted: set<string>, qs: seq<Request>)
    ensures AllEncryptable(enc, encrypted, AllAsked(d, qs, Updates)) <==> AllLetThrough(enc, encrypted, qs)
    decreases |qs|
  {
    if qs != [] {
      var xs, ys := Extra(d, qs[0], Updates), AllAsked(d, qs[1..], Updates);
      assert AllAsked(d, qs, Updates) == xs + ys;
      OneSealed(d, enc, encrypted, qs[0], "SET");
      assert AllEncryptable(enc, encrypted, xs) <==> xs == [] || Encryptable(enc, encrypted, xs[0]);
      hide AllAsked, Extra, Encryptable, Sealed, LetThrough, IsUpdate, StatedBy, EncryptedCall, StatedIn, AllEncryptable, AllLetThrough, Accepted;
      EncryptableIff(d, enc, encrypted, qs[1..]);
      EncryptableCons(enc, encrypted, xs, ys);
      LetThroughCons(enc, encrypted, qs);
    }
  }

  /** Then the sealed meanings state what the encrypted calls state. */
  lemma {:induction false} SealedStates(d: Dialect, enc: Cipher, encrypted: set<string>, qs: seq<Request>, action: string)
    requires AllEncryptable(enc, encrypted, AllAsked(d, qs, Updates))
    ensures var sealed := SealedAll(enc, encrypted, AllAsked(d, qs, Updates));
            AllUpdates(sealed) && StatedIn(sealed, action) == Statements(EncryptedCalls(enc, encrypted, qs), action)
    decreases |qs|
  {
    if qs != [] {
      var xs, ys := Extra(d, qs[0], Updates), AllAsked(d, qs[1..], Updates);
      assert AllAsked(d, qs, Updates) == xs + ys;
      hide AllAsked, Extra, Encryptable, Sealed, LetThrough, IsUpdate, StatedBy, EncryptedCall, AllEncryptable, AllLetThrough, Accepted;
      EncryptableCons(enc, encrypted, xs, ys);
      SealedStates(d, enc, encrypted, qs[1..], action);
      LetThroughCons(enc, encrypted, qs);
      HeadSealed(d, enc, encrypted, qs[0], action);
      StatedConcat(SealedAll(enc, encrypted, xs), SealedAll(enc, encrypted, ys), action);
    } else {
      assert EncryptedCalls(enc, encrypted, qs) == [];
    }
  }

  lemma HeadSealed(d: Dialect, enc: Cipher, encrypted: set<string>, q: Request, action: string)
    requires AllEncryptable(enc, encrypted, Extra(d, q, Updates))
    ensures var sealed := SealedAll(enc, encrypted, Extra(d, q, Updates));
            |sealed| <= 1 && AllUpdates(sealed) && StatedIn(sealed, action) == StatedBy(EncryptedCall(enc, encrypted, q), action)
  {
    var xs := Extra(d, q, Updates);
    OneSealed(d, enc, encrypted, q, action);
    hide Extra, Encryptable, Sealed, StatedBy, EncryptedCall, IsUpdate, ChangeOf, SectionFor, Statement;
    if xs != [] {
      assert SealedAll(enc, encrypted, xs) == [Sealed(enc, encrypted, xs[0])];
    } else {
      assert SealedAll(enc, encrypted, xs) == [];
    }
  }

  /** End to end: the pass over the printed text fails exactly when some accepted call is not
      let through; otherwise the text, read through the values it leaves, states exactly what
      the calls stated, with the values given to whole encrypted attributes encrypted. */
  lemma EncryptedTextStates(d: Dialect, qs: seq<Request>, b: Draft, parts: set<string>, enc: Cipher, encrypted: set<string>, order: seq<string>, action: string)
    requires Run(d, Empty(), qs, b) && Uses(d, qs, parts) && NoVariants(d, parts) && PlainWords(d)
    requires AllChanges(b.updates) ==> Order(SheetOf(OpsOf(b.updates)), order)
    requires action in {"SET", "ADD", "REMOVE", "DELETE"}
    ensures AllChanges(b.updates)
    ensures var text := UpdateEncryption.Text(OpsOf(b.updates), order);
            var r := EncryptUpdate(enc, encrypted, text, b.env.names, b.env.values);
            && (r.Done? <==> AllLetThrough(enc, encrypted, qs))
            && (r.Done? ==> ReadSection(b.env.(values := r.values), text, action) == Statements(EncryptedCalls(enc, encrypted, qs), action))
  {
    EncryptedUpdateSays(d, qs, b, parts, enc, encrypted, order);
    RunIsSound(d, qs, b, parts);
    hide Run, Uses, NoVariants, PlainWords, Order, Statements, AllAsked, EncryptUpdate, Encryptable, Sealed, AllLetThrough, StatedIn;
    SoundOps(b);
    hide Sound;
    EncryptableIff(d, enc, encrypted, qs);
    var text := UpdateEncryption.Text(OpsOf(b.updates), order);
    var r := EncryptUpdate(enc, encrypted, text, b.env.names, b.env.values);
    if r.Done? {
      UpdateRoundTrip(OpsOf(b.updates), order, action);
      SealedStates(d, enc, encrypted, qs, action);
      var sealed := SealedAll(enc, encrypted, AllAsked(d, qs, Updates));
      SealedReadsAll(b, r.values, sealed);
      SectionStates(b.env.(values := r.values), b.updates, sealed, action);
    }
  }

  lemma SealedReadsAll(b: Draft, values: map<string, AV>, sealed: seq<Meaning>)
    requires Sound(b) && Said(WithNewValues(b, values), Updates) == Some(sealed)
    ensures |sealed| == |b.updates| && forall i :: 0 <= i < |sealed| ==> EncryptedUpdates.Reads(b.env.(values := values), b.updates[i], sealed[i])
  {
    var e := b.env.(values := values);
    forall i | 0 <= i < |sealed| ensures EncryptedUpdates.Reads(e, b.updates[i], sealed[i]) {
      DecodeEach(e, b.updates, i);
      DecodeReads(e, b.updates[i]);
    }
  }
}
