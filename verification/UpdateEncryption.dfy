/** EncryptUpdateExpressionValues of internal/encryption: from the text of an update
    expression back to the values that belong to encrypted attributes. */
module UpdateEncryption {
  import opened Wrappers
  import opened AttributeValues
  import opened Expressions
  import opened Builder
  import opened UpdateText

  /** One update call, with the placeholders the builder gave it. */
  datatype Op =
    | Set(path: seq<string>, index: Option<nat>, v: string)
    | IfMissing(path: seq<string>, v: string)
    | Append(path: seq<string>, v: string)
    | Prepend(path: seq<string>, v: string)
    | Concat(path: seq<string>, v: string, w: string)
    | Add(path: seq<string>, v: string)
    | Delete(path: seq<string>, v: string)
    | Remove(path: seq<string>, index: Option<nat>)

  predicate Tame(s: string) {
    s != "" && forall i :: 0 <= i < |s| ==> !Space(s[i]) && s[i] != ',' && s[i] != '(' && s[i] != ')' && s[i] != '='
  }

  predicate NameOk(r: string) {
    Tame(r) && r[0] == '#' && forall i :: 0 <= i < |r| ==> r[i] != '.' && r[i] != '['
  }

  predicate ValueOk(r: string) {
    Tame(r) && |r| > 1 && r[0] == ':'
  }

  predicate Well(op: Op) {
    && op.path != [] && (forall i :: 0 <= i < |op.path| ==> NameOk(op.path[i]))
    && (!op.Remove? ==> ValueOk(op.v)) && (op.Concat? ==> ValueOk(op.w))
  }

  /** The builder's own placeholders qualify. */
  lemma PlaceholdersQualify(n: nat, word: string)
    ensures NameOk(NameRef(n)) && ValueOk(ValueRef(n))
    ensures (forall i :: 0 <= i < |word| ==> 'a' <= word[i] <= 'z' || 'A' <= word[i] <= 'Z' || '0' <= word[i] <= '9' || word[i] == '_') ==> NameOk(WordRef(word))
  {
  }

  // ----- printing

  function NameText(path: seq<string>): string {
    Join(path, ".")
  }

  function Target(path: seq<string>, index: Option<nat>): string {
    match index
    case None => NameText(path)
    case Some(i) => NameText(path) + "[" + Digits(i) + "]"
  }

  function Call(n: string, f: string, x: string, y: string): string {
    n + " = " + f + "(" + x + ", " + y + ")"
  }

  const LIST_APPEND: string := "list_append"
  const IF_NOT_EXISTS: string := "if_not_exists"

  function Printed(op: Op): string {
    match op
    case Set(path, index, v) => Target(path, index) + " = " + v
    case IfMissing(path, v) => Call(NameText(path), IF_NOT_EXISTS, NameText(path), v)
    case Append(path, v) => Call(NameText(path), LIST_APPEND, NameText(path), v)
    case Prepend(path, v) => Call(NameText(path), LIST_APPEND, v, NameText(path))
    case Concat(path, v, w) => Call(NameText(path), LIST_APPEND, v, w)
    case Add(path, v) => NameText(path) + " " + v
    case Delete(path, v) => NameText(path) + " " + v
    case Remove(path, index) => Target(path, index)
  }

  function Action(op: Op): string {
    if op.Add? then "ADD" else if op.Delete? then "DELETE" else if op.Remove? then "REMOVE" else "SET"
  }

  function CallWords(n: string, f: string, x: string, y: string): seq<string> {
    [n, "=", f + "(" + x + ",", y + ")"]
  }

  function OpWords(op: Op): seq<string> {
    match op
    case Set(path, index, v) => [Target(path, index), "=", v]
    case IfMissing(path, v) => CallWords(NameText(path), IF_NOT_EXISTS, NameText(path), v)
    case Append(path, v) => CallWords(NameText(path), LIST_APPEND, NameText(path), v)
    case Prepend(path, v) => CallWords(NameText(path), LIST_APPEND, v, NameText(path))
    case Concat(path, v, w) => CallWords(NameText(path), LIST_APPEND, v, w)
    case Add(path, v) => [NameText(path), v]
    case Delete(path, v) => [NameText(path), v]
    case Remove(path, index) => [Target(path, index)]
  }

  lemma {:induction false} NameTextTame(path: seq<string>)
    requires path != [] && forall i :: 0 <= i < |path| ==> NameOk(path[i])
    ensures Tame(NameText(path)) && NameText(path)[0] == '#'
    decreases |path|
  {
    assert NameOk(path[0]);
    if |path| > 1 {
      NameTextTame(path[1..]);
    }
  }

  lemma TargetTame(path: seq<string>, index: Option<nat>)
    requires path != [] && forall i :: 0 <= i < |path| ==> NameOk(path[i])
    ensures Tame(Target(path, index)) && Target(path, index)[0] == '#'
  {
    NameTextTame(path);
  }

  lemma Join2(a: string, b: string)
    ensures Join([a, b], " ") == a + " " + b
  {
    assert [a, b][1..] == [b];
  }

  lemma Join3(a: string, b: string, c: string)
    ensures Join([a, b, c], " ") == a + " " + b + " " + c
  {
    assert [a, b, c][1..] == [b, c];
    Join2(b, c);
    assert a + " " + (b + " " + c) == a + " " + b + " " + c;
  }

  lemma CallIsWords(n: string, f: string, x: string, y: string)
    ensures Join(CallWords(n, f, x, y), " ") == Call(n, f, x, y)
  {
    var p, q := f + "(" + x + ",", y + ")";
    assert CallWords(n, f, x, y)[1..] == ["=", p, q];
    Join3("=", p, q);
    assert n + " " + ("=" + " " + p + " " + q) == Call(n, f, x, y);
  }

  lemma {:induction false} TameQuiet(s: string, depth: nat)
    requires forall i :: 0 <= i < |s| ==> s[i] != ',' && s[i] != '(' && s[i] != ')'
    ensures Quiet(s, depth) == Some(depth)
    decreases |s|
  {
    if s != "" {
      TameQuiet(s[1..], depth);
    }
  }

  function ArgText(x: string, y: string): string {
    x + ", " + y + ")"
  }

  lemma {:induction false} ArgsQuiet(x: string, y: string)
    requires Tame(x) && Tame(y)
    ensures Quiet(ArgText(x, y), 1) == Some(0)
  {
    TameQuiet(x, 1);
    TameQuiet(y, 1);
    hide Tame;
    var close := y + ")";
    QuietConcat(y, ")", 1);
    assert ")"[1..] == "";
    assert Quiet(close, 1) == Some(0);
    AfterComma(close);
    hide Quiet;
    QuietConcat(x, ", " + close, 1);
    assert ArgText(x, y) == x + (", " + close);
  }

  lemma {:induction false} AfterComma(s: string)
    ensures Quiet(", " + s, 1) == Quiet(s, 1)
  {
    assert (", " + s)[1..] == " " + s && (" " + s)[1..] == s;
  }

  lemma CallSolid(n: string, f: string, x: string, y: string)
    requires Tame(n) && Tame(f) && Tame(x) && Tame(y)
    ensures Solid(Call(n, f, x, y))
  {
    var head, tail := n + " = " + f, "(" + ArgText(x, y);
    TameQuiet(head, 0);
    ArgsQuiet(x, y);
    assert tail[1..] == ArgText(x, y);
    assert Quiet(tail, 0) == Some(0);
    QuietConcat(head, tail, 0);
    assert Call(n, f, x, y) == head + tail;
    assert (head + tail)[0] == n[0] && (head + tail)[|head + tail| - 1] == ')';
  }

  lemma PlainSolid(s: string)
    requires s != "" && !Space(s[0]) && !Space(s[|s| - 1])
    requires forall i :: 0 <= i < |s| ==> s[i] != ',' && s[i] != '(' && s[i] != ')'
    ensures Solid(s)
  {
    TameQuiet(s, 0);
  }

  predicate Lead(w: string) {
    w != "" && w[0] != 'S' && w[0] != 'R' && w[0] != 'A' && w[0] != 'D'
  }

  lemma NotKeyword(w: string)
    requires Lead(w)
    ensures !Keyword(w) && !Keyword(w + ",")
  {
    assert (w + ",")[0] == w[0];
  }

  lemma QuotedBy(ws: seq<string>)
    requires ws != [] && forall i :: 0 <= i < |ws| ==> Word(ws[i]) && Lead(ws[i])
    ensures Quoted(ws)
  {
    forall i | 0 <= i < |ws| ensures !Keyword(ws[i]) && !Keyword(ws[i] + ",") { NotKeyword(ws[i]); }
  }

  lemma CallWordsQuoted(n: string, f: string, x: string, y: string)
    requires Tame(n) && Lead(n) && Tame(f) && Lead(f) && Tame(x) && Tame(y) && Lead(y)
    ensures Quoted(CallWords(n, f, x, y))
  {
    var p, q := f + "(" + x + ",", y + ")";
    assert Word(p) && Word(q) && p[0] == f[0] && q[0] == y[0];
    QuotedBy(CallWords(n, f, x, y));
  }

  predicate Survives(text: string, ws: seq<string>) {
    text == Join(ws, " ") && Quoted(ws) && Solid(text)
  }

  lemma CallSurvives(n: string, f: string, x: string, y: string)
    requires Tame(n) && Lead(n) && Tame(f) && Lead(f) && Tame(x) && Tame(y) && Lead(y)
    ensures Survives(Call(n, f, x, y), CallWords(n, f, x, y))
  {
    CallIsWords(n, f, x, y);
    CallSolid(n, f, x, y);
    CallWordsQuoted(n, f, x, y);
  }

  lemma SetSurvives(t: string, v: string)
    requires Tame(t) && Lead(t) && Tame(v) && Lead(v)
    ensures Survives(t + " = " + v, [t, "=", v])
  {
    Join3(t, "=", v);
    assert t + " = " + v == t + " " + "=" + " " + v;
    PlainSolid(t + " = " + v);
    QuotedBy([t, "=", v]);
  }

  lemma PairSurvives(n: string, v: string)
    requires Tame(n) && Lead(n) && Tame(v) && Lead(v)
    ensures Survives(n + " " + v, [n, v])
  {
    Join2(n, v);
    PlainSolid(n + " " + v);
    QuotedBy([n, v]);
  }

  lemma OneSurvives(t: string)
    requires Tame(t) && Lead(t)
    ensures Survives(t, [t])
  {
    PlainSolid(t);
    QuotedBy([t]);
  }

  /** Every printed fragment is made of its words and survives both splitters. */
  lemma PrintedSurvives(op: Op)
    requires Well(op)
    ensures Survives(Printed(op), OpWords(op))
  {
    var n := NameText(op.path);
    NameTextTame(op.path);
    assert Tame(LIST_APPEND) && Tame(IF_NOT_EXISTS);
    hide Survives, Join, Call, CallWords, NameText;
    match op
    case Set(path, index, v) => TargetTame(path, index); SetSurvives(Target(path, index), v);
    case IfMissing(path, v) => CallSurvives(n, IF_NOT_EXISTS, n, v);
    case Append(path, v) => CallSurvives(n, LIST_APPEND, n, v);
    case Prepend(path, v) => CallSurvives(n, LIST_APPEND, v, n);
    case Concat(path, v, w) => CallSurvives(n, LIST_APPEND, v, w);
    case Add(path, v) => PairSurvives(n, v);
    case Delete(path, v) => PairSurvives(n, v);
    case Remove(path, index) => TargetTame(path, index); OneSurvives(Target(path, index));
  }

  // ----- reading one assignment

  datatype Outcome = Done(values: map<string, AV>) | Refused

  function IndexOf(s: string, c: char): (i: int)
    ensures -1 <= i < |s| && (i >= 0 ==> s[i] == c && forall j :: 0 <= j < i ==> s[j] != c) && (i < 0 ==> c !in s)
  {
    if s == "" then -1 else if s[0] == c then 0 else var i := IndexOf(s[1..], c); if i < 0 then -1 else i + 1
  }

  function SplitAssignment(s: string): Option<(string, string)> {
    var i := IndexOf(s, '=');
    if i < 0 then None else Some((Trim(s[..i]), Trim(s[i + 1..])))
  }

  function BaseName(text: string): (string, bool) {
    var lhs := Trim(text);
    var dot, bracket := IndexOf(lhs, '.'), IndexOf(lhs, '[');
    var stop := if dot >= 0 && (bracket < 0 || dot < bracket) then dot else if bracket >= 0 then bracket else |lhs|;
    (Trim(lhs[..stop]), dot >= 0 || bracket >= 0)
  }

  predicate StartsWith(s: string, p: string) {
    |p| <= |s| && s[..|p|] == p
  }

  predicate IsValueRef(s: string) {
    StartsWith(Trim(s), ":") && |Trim(s)| > 1
  }

  function DefaultRef(text: string): Option<string> {
    var rhs := Trim(text);
    if !StartsWith(rhs, IF_NOT_EXISTS + "(") || rhs == "" || rhs[|rhs| - 1] != ')' then None
    else
      var tail := rhs[|IF_NOT_EXISTS| + 1..];
      var inner := if tail != "" && tail[|tail| - 1] == ')' then tail[..|tail| - 1] else tail;
      var args := SplitTop(Trim(inner), 0, "");
      if |args| != 2 || !IsValueRef(Trim(args[1])) then None else Some(Trim(args[1]))
  }

  /** The encryption service: may fail. */
  type Cipher = (string, AV) -> Option<AV>

  function EncryptRef(enc: Cipher, attr: string, ref: string, values: map<string, AV>): Outcome {
    if ref !in values || enc(attr, values[ref]).None? then Refused
    else Done(values[ref := enc(attr, values[ref]).value])
  }

  function Lookup(names: map<string, string>, ref: string): string {
    if ref in names then names[ref] else ""
  }

  function EncryptAssignment(enc: Cipher, encrypted: set<string>, names: map<string, string>, text: string, values: map<string, AV>): Outcome {
    match SplitAssignment(text)
    case None => Done(values)
    case Some((lhs, rhs)) =>
      var (base, nested) := BaseName(lhs);
      var attr := Lookup(names, base);
      if attr == "" || attr !in encrypted then Done(values)
      else if nested then Refused
      else if StartsWith(Trim(rhs), IF_NOT_EXISTS + "(") then
        (match DefaultRef(Trim(rhs))
         case None => Refused
         case Some(ref) => EncryptRef(enc, attr, ref, values))
      else if IsValueRef(Trim(rhs)) then EncryptRef(enc, attr, Trim(rhs), values)
      else Refused
  }

  // what it should do, read off the call instead of the text

  predicate Nested(op: Op) {
    |op.path| > 1 || (op.Set? && op.index.Some?)
  }

  function Attr(names: map<string, string>, op: Op): string
    requires op.path != []
  {
    Lookup(names, op.path[0])
  }

  predicate Touches(encrypted: set<string>, names: map<string, string>, op: Op)
    requires op.path != []
  {
    Attr(names, op) != "" && Attr(names, op) in encrypted
  }

  function Effect(enc: Cipher, encrypted: set<string>, names: map<string, string>, op: Op, values: map<string, AV>): Outcome
    requires op.path != [] && Action(op) == "SET"
  {
    if !Touches(encrypted, names, op) then Done(values)
    else if Nested(op) || !(op.Set? || op.IfMissing?) then Refused
    else EncryptRef(enc, Attr(names, op), op.v, values)
  }

  lemma SplitAtEquals(lhs: string, rhs: string)
    requires Tame(lhs) && rhs != "" && !Space(rhs[0]) && !Space(rhs[|rhs| - 1])
    ensures SplitAssignment(lhs + " = " + rhs) == Some((lhs, rhs))
  {
    var s := lhs + " = " + rhs;
    var i := IndexOf(s, '=');
    assert s[|lhs| + 1] == '=';
    assert forall j :: 0 <= j < |lhs| ==> s[j] == lhs[j];
    assert s[|lhs|] == ' ';
    assert i == |lhs| + 1;
    assert s[..i] == lhs + " " && s[i + 1..] == " " + rhs;
    TrimSolid(lhs);
    TrimSolid(rhs);
  }

  lemma {:induction false} NameTextNoBracket(path: seq<string>)
    requires path != [] && forall i :: 0 <= i < |path| ==> NameOk(path[i])
    ensures '[' !in NameText(path)
    ensures |path| == 1 ==> '.' !in NameText(path)
    ensures |path| > 1 ==> |path[0]| < |NameText(path)| && NameText(path)[..|path[0]|] == path[0] && NameText(path)[|path[0]|] == '.'
    decreases |path|
  {
    assert NameOk(path[0]);
    if |path| > 1 {
      NameTextNoBracket(path[1..]);
    }
  }

  /** The target of a call starts with its first name, and goes on exactly if it is nested. */
  lemma TargetHead(path: seq<string>, index: Option<nat>)
    requires path != [] && forall i :: 0 <= i < |path| ==> NameOk(path[i])
    ensures var t, n := Target(path, index), |path[0]|;
            && n <= |t| && t[..n] == path[0] && (n < |t| <==> |path| > 1 || index.Some?)
            && (n < |t| ==> t[n] == '.' || t[n] == '[')
  {
    NameTextNoBracket(path);
    if |path| == 1 {
      assert NameText(path) == path[0];
    }
  }

  lemma BaseNameAt(t: string, stop: nat)
    requires Tame(t) && 0 < stop <= |t|
    requires (forall j :: 0 <= j < stop ==> t[j] != '.' && t[j] != '[') && (stop < |t| ==> t[stop] == '.' || t[stop] == '[')
    ensures BaseName(t) == (t[..stop], stop < |t|)
  {
    TrimSolid(t);
    TrimSolid(t[..stop]);
    hide Trim, Tame;
    var dot, bracket := IndexOf(t, '.'), IndexOf(t, '[');
    if stop == |t| {
      assert dot < 0 && bracket < 0;
    }
  }

  lemma BaseNameOf(path: seq<string>, index: Option<nat>)
    requires path != [] && forall i :: 0 <= i < |path| ==> NameOk(path[i])
    ensures BaseName(Target(path, index)) == (path[0], |path| > 1 || index.Some?)
  {
    assert NameOk(path[0]);
    TargetTame(path, index);
    TargetHead(path, index);
    var t, n := Target(path, index), |path[0]|;
    assert forall j :: 0 <= j < n ==> t[j] == path[0][j];
    hide BaseName, Target, Tame;
    BaseNameAt(t, n);
  }

  lemma InnerArgs(n: string, v: string)
    requires Tame(n) && ValueOk(v)
    ensures SplitTop(Trim(n + ", " + v), 0, "") == [n, v]
  {
    PlainSolid(n);
    PlainSolid(v);
    Join2Comma(n, v);
    hide SplitTop, Trim, Join, Solid;
    FragmentsRoundTrip([n, v]);
  }

  lemma FirstDiffers(s: string, p: string)
    requires s != "" && p != "" && s[0] != p[0]
    ensures !StartsWith(s, p)
  {
    if |p| <= |s| {
      assert s[..|p|][0] == s[0];
    }
  }

  lemma CallTrims(f: string, x: string, y: string)
    requires f != "" && !Space(f[0])
    ensures var rhs := f + "(" + x + ", " + y + ")"; Trim(rhs) == rhs && rhs[0] == f[0] && rhs[|rhs| - 1] == ')'
  {
    var rhs := f + "(" + x + ", " + y + ")";
    assert rhs == f + ("(" + x + ", " + y + ")");
    TrimSolid(rhs);
  }

  lemma CallPrefix(f: string, x: string, y: string)
    ensures var rhs := f + "(" + x + ", " + y + ")"; StartsWith(rhs, f + "(") && rhs[|f| + 1..] == x + ", " + y + ")"
  {
    assert f + "(" + x + ", " + y + ")" == (f + "(") + (x + ", " + y + ")");
  }

  lemma CallHasDefault(n: string, v: string)
    requires Tame(n) && ValueOk(v)
    ensures var rhs := IF_NOT_EXISTS + "(" + n + ", " + v + ")"; DefaultRef(rhs) == Some(v) && Trim(rhs) == rhs && StartsWith(rhs, IF_NOT_EXISTS + "(")
  {
    var inner := n + ", " + v;
    CallTrims(IF_NOT_EXISTS, n, v);
    CallPrefix(IF_NOT_EXISTS, n, v);
    TrimSolid(v);
    InnerArgs(n, v);
    assert v[..1] == ":";
    hide Trim, SplitTop, Tame;
    assert (inner + ")")[..|inner|] == inner;
  }

  lemma Join2Comma(a: string, b: string)
    ensures Join([a, b], ", ") == a + ", " + b
  {
    assert [a, b][1..] == [b];
  }

  lemma RhsOfCall(n: string, f: string, x: string, y: string)
    requires Tame(n) && Tame(f)
    ensures var rhs := f + "(" + x + ", " + y + ")"; SplitAssignment(Call(n, f, x, y)) == Some((n, rhs)) && Trim(rhs) == rhs
  {
    var rhs := f + "(" + x + ", " + y + ")";
    CallTrims(f, x, y);
    hide Trim;
    SplitAtEquals(n, rhs);
    hide SplitAssignment, Tame;
    assert Call(n, f, x, y) == n + " = " + rhs by { CallSplits(n, f, x, y); }
  }

  lemma CallSplits(n: string, f: string, x: string, y: string)
    ensures Call(n, f, x, y) == n + " = " + (f + "(" + x + ", " + y + ")")
  {
  }

  lemma ListAppendIsNoValue(x: string, y: string)
    ensures var rhs := LIST_APPEND + "(" + x + ", " + y + ")"; !StartsWith(rhs, IF_NOT_EXISTS + "(") && !IsValueRef(rhs)
  {
    CallTrims(LIST_APPEND, x, y);
    var rhs := LIST_APPEND + "(" + x + ", " + y + ")";
    assert rhs[0] == 'l' && (IF_NOT_EXISTS + "(")[0] == 'i' && ":"[0] == ':';
    FirstDiffers(rhs, IF_NOT_EXISTS + "(");
    FirstDiffers(rhs, ":");
  }

  lemma {:induction false} SetMeans(enc: Cipher, encrypted: set<string>, names: map<string, string>, op: Op, values: map<string, AV>)
    requires Well(op) && op.Set?
    ensures EncryptAssignment(enc, encrypted, names, Printed(op), values) == Effect(enc, encrypted, names, op, values)
  {
    var t := Target(op.path, op.index);
    TargetTame(op.path, op.index);
    BaseNameOf(op.path, op.index);
    SplitAtEquals(t, op.v);
    TrimSolid(op.v);
    assert op.v[..1] == ":" && (IF_NOT_EXISTS + "(")[0] == 'i';
    FirstDiffers(op.v, IF_NOT_EXISTS + "(");
    hide Trim, SplitAssignment, BaseName, Target, Tame, DefaultRef;
  }

  lemma IfMissingMeans(enc: Cipher, encrypted: set<string>, names: map<string, string>, op: Op, values: map<string, AV>)
    requires Well(op) && op.IfMissing?
    ensures EncryptAssignment(enc, encrypted, names, Printed(op), values) == Effect(enc, encrypted, names, op, values)
  {
    var n := NameText(op.path);
    NameTextTame(op.path);
    BaseNameOf(op.path, None);
    assert Tame(IF_NOT_EXISTS);
    CallHasDefault(n, op.v);
    RhsOfCall(n, IF_NOT_EXISTS, n, op.v);
    hide Trim, SplitAssignment, BaseName, NameText, Call, DefaultRef, StartsWith, Tame;
  }

  lemma ListAppendMeans(enc: Cipher, encrypted: set<string>, names: map<string, string>, op: Op, x: string, y: string, values: map<string, AV>)
    requires Well(op) && (op.Append? || op.Prepend? || op.Concat?) && Tame(x) && Tame(y)
    requires Printed(op) == Call(NameText(op.path), LIST_APPEND, x, y)
    ensures EncryptAssignment(enc, encrypted, names, Printed(op), values) == Effect(enc, encrypted, names, op, values)
  {
    NameTextTame(op.path);
    BaseNameOf(op.path, None);
    assert Tame(LIST_APPEND);
    RhsOfCall(NameText(op.path), LIST_APPEND, x, y);
    ListAppendIsNoValue(x, y);
    hide Trim, SplitAssignment, BaseName, NameText, Call, DefaultRef, StartsWith, IsValueRef, Tame, Printed;
  }

  /** Reading the printed assignment does what the call says. */
  lemma AssignmentMeansCall(enc: Cipher, encrypted: set<string>, names: map<string, string>, op: Op, values: map<string, AV>)
    requires Well(op) && Action(op) == "SET"
    ensures EncryptAssignment(enc, encrypted, names, Printed(op), values) == Effect(enc, encrypted, names, op, values)
  {
    var n := NameText(op.path);
    NameTextTame(op.path);
    hide EncryptAssignment, Effect, NameText, Call;
    match op
    case Set(path, index, v) => SetMeans(enc, encrypted, names, op, values);
    case IfMissing(path, v) => IfMissingMeans(enc, encrypted, names, op, values);
    case Append(path, v) => ListAppendMeans(enc, encrypted, names, op, n, v, values);
    case Prepend(path, v) => ListAppendMeans(enc, encrypted, names, op, v, n, values);
    case Concat(path, v, w) => ListAppendMeans(enc, encrypted, names, op, v, w, values);
  }

  // ----- the whole pass, on text

  function EncryptTexts(enc: Cipher, encrypted: set<string>, names: map<string, string>, ts: seq<string>, values: map<string, AV>): Outcome
    decreases |ts|
  {
    if ts == [] then Done(values) else
      match EncryptAssignment(enc, encrypted, names, ts[0], values)
      case Refused => Refused
      case Done(vs) => EncryptTexts(enc, encrypted, names, ts[1..], vs)
  }

  predicate RejectsPart(encrypted: set<string>, names: map<string, string>, part: string) {
    var base := Fields(part);
    base != [] && Lookup(names, base[0]) != "" && Lookup(names, base[0]) in encrypted
  }

  function Section(sections: map<string, string>, action: string): seq<string> {
    SplitTop(Trim(Lookup(sections, action)), 0, "")
  }

  predicate RejectsAny(encrypted: set<string>, names: map<string, string>, parts: seq<string>) {
    exists i :: 0 <= i < |parts| && RejectsPart(encrypted, names, parts[i])
  }

  function EncryptUpdate(enc: Cipher, encrypted: set<string>, text: string, names: map<string, string>, values: map<string, AV>): Outcome {
    if text == "" || |values| == 0 || encrypted == {} then Done(values) else
      var sections := Scan(Fields(text), map[], "", []);
      var r := EncryptTexts(enc, encrypted, names, Section(sections, "SET"), values);
      if r.Refused? || RejectsAny(encrypted, names, Section(sections, "ADD")) || RejectsAny(encrypted, names, Section(sections, "DELETE"))
      then Refused else r
  }

  method EncryptUpdateExpressionValues(enc: Cipher, encrypted: set<string>, text: string, names: map<string, string>, values: map<string, AV>)
    returns (r: Outcome)
    ensures r == EncryptUpdate(enc, encrypted, text, names, values)
  {
    if text == "" || |values| == 0 || encrypted == {} {
      return Done(values);
    }
    hide Fields, Scan, SplitTop, Trim, EncryptTexts, RejectsAny;
    var sections := SplitUpdateExpressionSections(text);
    var assignments := SplitTopLevelCommaSeparated(Lookup(sections, "SET"));
    r := EncryptSetAssignments(enc, encrypted, names, assignments, values);
    if r.Refused? {
      return;
    }
    var added := SplitTopLevelCommaSeparated(Lookup(sections, "ADD"));
    var bad := RejectEncryptedParts(encrypted, names, added);
    if bad {
      return Refused;
    }
    var deleted := SplitTopLevelCommaSeparated(Lookup(sections, "DELETE"));
    bad := RejectEncryptedParts(encrypted, names, deleted);
    if bad {
      return Refused;
    }
  }

  method EncryptSetAssignments(enc: Cipher, encrypted: set<string>, names: map<string, string>, assignments: seq<string>, values: map<string, AV>)
    returns (r: Outcome)
    ensures r == EncryptTexts(enc, encrypted, names, assignments, values)
  {
    hide EncryptAssignment;
    var current := values;
    for i := 0 to |assignments|
      invariant EncryptTexts(enc, encrypted, names, assignments, values) == EncryptTexts(enc, encrypted, names, assignments[i..], current)
    {
      assert assignments[i..][0] == assignments[i] && assignments[i..][1..] == assignments[i + 1..];
      var one := EncryptAssignment(enc, encrypted, names, assignments[i], current);
      if one.Refused? {
        return Refused;
      }
      current := one.values;
    }
    return Done(current);
  }

  method RejectEncryptedParts(encrypted: set<string>, names: map<string, string>, parts: seq<string>) returns (bad: bool)
    ensures bad <==> RejectsAny(encrypted, names, parts)
  {
    hide RejectsPart;
    for i := 0 to |parts|
      invariant forall j :: 0 <= j < i ==> !RejectsPart(encrypted, names, parts[j])
    {
      if RejectsPart(encrypted, names, parts[i]) {
        return true;
      }
    }
    return false;
  }

  // ----- the whole pass, on calls

  function OpsFor(ops: seq<Op>, action: string): seq<Op> {
    if ops == [] then [] else (if Action(ops[0]) == action then [ops[0]] else []) + OpsFor(ops[1..], action)
  }

  lemma {:induction false} OpsForMembers(ops: seq<Op>, action: string)
    ensures forall op :: op in OpsFor(ops, action) <==> op in ops && Action(op) == action
    decreases |ops|
  {
    if ops != [] {
      OpsForMembers(ops[1..], action);
    }
  }

  function WordsOf(ops: seq<Op>): (r: seq<seq<string>>)
    ensures |r| == |ops| && forall i :: 0 <= i < |ops| ==> r[i] == OpWords(ops[i])
  {
    seq(|ops|, i requires 0 <= i < |ops| => OpWords(ops[i]))
  }

  function PrintedAll(ops: seq<Op>): (r: seq<string>)
    ensures |r| == |ops| && forall i :: 0 <= i < |ops| ==> r[i] == Printed(ops[i])
  {
    seq(|ops|, i requires 0 <= i < |ops| => Printed(ops[i]))
  }

  function SheetOf(ops: seq<Op>): Sheet {
    map a | a in {"SET", "ADD", "REMOVE", "DELETE"} :: WordsOf(OpsFor(ops, a))
  }

  ghost predicate AllWell(ops: seq<Op>) {
    forall i :: 0 <= i < |ops| ==> Well(ops[i])
  }

  lemma OpsForWell(ops: seq<Op>, action: string)
    requires AllWell(ops)
    ensures AllWell(OpsFor(ops, action)) && forall i :: 0 <= i < |OpsFor(ops, action)| ==> Action(OpsFor(ops, action)[i]) == action
  {
    OpsForMembers(ops, action);
    forall i | 0 <= i < |OpsFor(ops, action)| ensures Well(OpsFor(ops, action)[i]) {
      assert OpsFor(ops, action)[i] in ops;
    }
  }

  lemma TextsArePrinted(os: seq<Op>)
    requires AllWell(os)
    ensures Texts(WordsOf(os)) == PrintedAll(os)
    ensures forall i :: 0 <= i < |os| ==> Quoted(WordsOf(os)[i]) && Solid(PrintedAll(os)[i])
  {
    forall i | 0 <= i < |os| ensures Texts(WordsOf(os))[i] == Printed(os[i]) && Quoted(OpWords(os[i])) && Solid(Printed(os[i])) {
      PrintedSurvives(os[i]);
    }
  }

  lemma SheetIsOk(ops: seq<Op>)
    requires AllWell(ops)
    ensures SheetOk(SheetOf(ops))
  {
    forall a | a in SheetOf(ops) ensures forall i :: 0 <= i < |SheetOf(ops)[a]| ==> Quoted(SheetOf(ops)[a][i]) {
      OpsForWell(ops, a);
      TextsArePrinted(OpsFor(ops, a));
    }
  }

  function Text(ops: seq<Op>, order: seq<string>): string
    requires Order(SheetOf(ops), order)
  {
    Join(Parts(TextsOf(SheetOf(ops)), order), " ")
  }

  /** Any order of printing: re-reading recovers each action's exact list of fragments. */
  lemma UpdateRoundTrip(ops: seq<Op>, order: seq<string>, action: string)
    requires AllWell(ops) && Order(SheetOf(ops), order) && action in {"SET", "ADD", "REMOVE", "DELETE"}
    ensures SheetOk(SheetOf(ops))
    ensures Section(Scan(Fields(Text(ops, order)), map[], "", []), action) == PrintedAll(OpsFor(ops, action))
  {
    SheetIsOk(ops);
    SectionsRoundTrip(SheetOf(ops), order);
    OpsForWell(ops, action);
    var os := OpsFor(ops, action);
    TextsArePrinted(os);
    assert SheetOf(ops)[action] == WordsOf(os);
    if os == [] {
      assert Trim("") == "" && SplitTop("", 0, "") == Piece("") == [];
    } else {
      FragmentsRoundTrip(PrintedAll(os));
    }
  }

  function Effects(enc: Cipher, encrypted: set<string>, names: map<string, string>, os: seq<Op>, values: map<string, AV>): Outcome
    requires forall i :: 0 <= i < |os| ==> os[i].path != [] && Action(os[i]) == "SET"
    decreases |os|
  {
    if os == [] then Done(values) else
      match Effect(enc, encrypted, names, os[0], values)
      case Refused => Refused
      case Done(vs) => Effects(enc, encrypted, names, os[1..], vs)
  }

  lemma {:induction false} TextsMeanCalls(enc: Cipher, encrypted: set<string>, names: map<string, string>, os: seq<Op>, values: map<string, AV>)
    requires AllWell(os) && forall i :: 0 <= i < |os| ==> os[i].path != [] && Action(os[i]) == "SET"
    ensures EncryptTexts(enc, encrypted, names, PrintedAll(os), values) == Effects(enc, encrypted, names, os, values)
    decreases |os|
  {
    if os != [] {
      assert Well(os[0]);
      AssignmentMeansCall(enc, encrypted, names, os[0], values);
      assert PrintedAll(os)[1..] == PrintedAll(os[1..]);
      var one := Effect(enc, encrypted, names, os[0], values);
      if one.Done? {
        assert AllWell(os[1..]) by { assert forall i :: 0 <= i < |os[1..]| ==> os[1..][i] == os[i + 1]; }
        TextsMeanCalls(enc, encrypted, names, os[1..], one.values);
      }
    }
  }

  /** ADD and DELETE look the whole name text up, so only an unnested name can be refused. */
  predicate Barred(encrypted: set<string>, names: map<string, string>, op: Op)
    requires op.path != []
  {
    |op.path| == 1 && Touches(encrypted, names, op)
  }

  lemma {:induction false} NestedNameHasDot(path: seq<string>)
    requires |path| > 1
    ensures '.' in NameText(path)
  {
    assert NameText(path) == path[0] + "." + Join(path[1..], ".");
    assert NameText(path)[|path[0]|] == '.';
  }

  lemma PartMeansCall(encrypted: set<string>, names: map<string, string>, op: Op)
    requires Well(op) && (op.Add? || op.Delete?) && forall k :: k in names ==> '.' !in k
    ensures RejectsPart(encrypted, names, Printed(op)) <==> Barred(encrypted, names, op)
  {
    NameTextTame(op.path);
    var ws := [NameText(op.path), op.v];
    Join2(ws[0], ws[1]);
    FieldsJoin(ws);
    if |op.path| > 1 {
      NestedNameHasDot(op.path);
    }
  }

  ghost predicate AnyBarred(encrypted: set<string>, names: map<string, string>, ops: seq<Op>, action: string) {
    exists i :: 0 <= i < |ops| && Action(ops[i]) == action && ops[i].path != [] && Barred(encrypted, names, ops[i])
  }

  lemma AddOrDelete(op: Op, action: string)
    requires Well(op) && Action(op) == action && (action == "ADD" || action == "DELETE")
    ensures op.path != [] && (op.Add? || op.Delete?)
  {
  }

  lemma PrintedBarred(encrypted: set<string>, names: map<string, string>, os: seq<Op>, action: string)
    requires AllWell(os) && (action == "ADD" || action == "DELETE") && forall k :: k in names ==> '.' !in k
    requires forall i :: 0 <= i < |os| ==> Action(os[i]) == action
    ensures RejectsAny(encrypted, names, PrintedAll(os)) <==> AnyBarred(encrypted, names, os, action)
  {
    hide RejectsPart, Barred, Well, Action, Printed;
    forall i | 0 <= i < |os| ensures os[i].path != [] && (RejectsPart(encrypted, names, PrintedAll(os)[i]) <==> Barred(encrypted, names, os[i])) {
      assert Well(os[i]);
      AddOrDelete(os[i], action);
      PartMeansCall(encrypted, names, os[i]);
    }
  }

  lemma BarredFor(encrypted: set<string>, names: map<string, string>, ops: seq<Op>, action: string)
    ensures AnyBarred(encrypted, names, OpsFor(ops, action), action) <==> AnyBarred(encrypted, names, ops, action)
  {
    OpsForMembers(ops, action);
    var os := OpsFor(ops, action);
    hide OpsFor, Action, Barred;
    if i :| 0 <= i < |ops| && Action(ops[i]) == action && ops[i].path != [] && Barred(encrypted, names, ops[i]) {
      assert ops[i] in os;
    }
    if i :| 0 <= i < |os| && Action(os[i]) == action && os[i].path != [] && Barred(encrypted, names, os[i]) {
      assert os[i] in ops;
    }
  }

  lemma PartsMeanCalls(encrypted: set<string>, names: map<string, string>, ops: seq<Op>, action: string)
    requires AllWell(ops) && (action == "ADD" || action == "DELETE") && forall k :: k in names ==> '.' !in k
    ensures RejectsAny(encrypted, names, PrintedAll(OpsFor(ops, action))) <==> AnyBarred(encrypted, names, ops, action)
  {
    hide AnyBarred, OpsFor, RejectsAny;
    OpsForWell(ops, action);
    BarredFor(encrypted, names, ops, action);
    PrintedBarred(encrypted, names, OpsFor(ops, action), action);
  }

  ghost predicate MeansCalls(enc: Cipher, encrypted: set<string>, names: map<string, string>, ops: seq<Op>, order: seq<string>, values: map<string, AV>)
    requires Order(SheetOf(ops), order)
  {
    var sets := OpsFor(ops, "SET");
    && (forall i :: 0 <= i < |sets| ==> sets[i].path != [] && Action(sets[i]) == "SET")
    && EncryptUpdate(enc, encrypted, Text(ops, order), names, values) ==
       (if AnyBarred(encrypted, names, ops, "ADD") || AnyBarred(encrypted, names, ops, "DELETE") then Refused
        else Effects(enc, encrypted, names, sets, values))
  }

  lemma NonTrivialPass(enc: Cipher, encrypted: set<string>, names: map<string, string>, ops: seq<Op>, order: seq<string>, values: map<string, AV>)
    requires AllWell(ops) && Order(SheetOf(ops), order) && forall k :: k in names ==> '.' !in k
    requires values != map[] && encrypted != {}
    ensures MeansCalls(enc, encrypted, names, ops, order, values)
  {
    var sets := OpsFor(ops, "SET");
    OpsForWell(ops, "SET");
    forall i | 0 <= i < |sets| ensures sets[i].path != [] { assert Well(sets[i]); }
    PassReadsSections(enc, encrypted, Text(ops, order), names, values);
    hide Text, EncryptUpdate, Scan, Fields, OpsFor, Section, PrintedAll, SheetOf, EncryptTexts, Effects, RejectsAny, Order, AllWell;
    UpdateRoundTrip(ops, order, "SET");
    UpdateRoundTrip(ops, order, "ADD");
    UpdateRoundTrip(ops, order, "DELETE");
    TextsMeanCalls(enc, encrypted, names, sets, values);
    PartsMeanCalls(encrypted, names, ops, "ADD");
    PartsMeanCalls(encrypted, names, ops, "DELETE");
  }

  /** The shortcut for an empty text agrees with reading it. */
  lemma PassReadsSections(enc: Cipher, encrypted: set<string>, text: string, names: map<string, string>, values: map<string, AV>)
    requires values != map[] && encrypted != {}
    ensures var sections := Scan(Fields(text), map[], "", []);
            var r := EncryptTexts(enc, encrypted, names, Section(sections, "SET"), values);
            EncryptUpdate(enc, encrypted, text, names, values) ==
            if r.Refused? || RejectsAny(encrypted, names, Section(sections, "ADD")) || RejectsAny(encrypted, names, Section(sections, "DELETE"))
            then Refused else r
  {
    hide Scan, Fields, Section;
    if text == "" {
      EmptyText("SET");
      EmptyText("ADD");
      EmptyText("DELETE");
    }
  }

  lemma EmptyText(action: string)
    ensures Section(Scan(Fields(""), map[], "", []), action) == []
  {
    assert Fields("") == [] && Trim("") == "" && Piece("") == [];
  }

  /** The pass over the printed text, in any section order, does exactly what the calls say. */
  lemma PassMeansCalls(enc: Cipher, encrypted: set<string>, names: map<string, string>, ops: seq<Op>, order: seq<string>, values: map<string, AV>)
    requires AllWell(ops) && Order(SheetOf(ops), order) && forall k :: k in names ==> '.' !in k
    requires forall i :: 0 <= i < |ops| && !ops[i].Remove? ==> ops[i].v in values
    ensures MeansCalls(enc, encrypted, names, ops, order, values)
  {
    if values != map[] && encrypted != {} {
      NonTrivialPass(enc, encrypted, names, ops, order, values);
    } else {
      var sets := OpsFor(ops, "SET");
      OpsForWell(ops, "SET");
      forall i | 0 <= i < |sets| ensures sets[i].path != [] { assert Well(sets[i]); }
      hide Text;
      if encrypted == {} {
        NothingEncrypted(enc, encrypted, names, sets, values);
      } else {
        OpsForMembers(ops, "SET");
      }
    }
  }

  lemma {:induction false} NothingEncrypted(enc: Cipher, encrypted: set<string>, names: map<string, string>, os: seq<Op>, values: map<string, AV>)
    requires encrypted == {} && forall i :: 0 <= i < |os| ==> os[i].path != [] && Action(os[i]) == "SET"
    ensures Effects(enc, encrypted, names, os, values) == Done(values)
    decreases |os|
  {
    if os != [] {
      NothingEncrypted(enc, encrypted, names, os[1..], values);
    }
  }

  // ----- what the calls do to the values

  predicate Fine(enc: Cipher, encrypted: set<string>, names: map<string, string>, op: Op, values: map<string, AV>)
    requires op.path != [] && Action(op) == "SET"
  {
    Touches(encrypted, names, op) ==>
      && !Nested(op) && (op.Set? || op.IfMissing?)
      && op.v in values && enc(Attr(names, op), values[op.v]).Some?
  }

  ghost predicate SetCalls(os: seq<Op>) {
    && (forall i :: 0 <= i < |os| ==> os[i].path != [] && !os[i].Remove? && Action(os[i]) == "SET")
    && (forall i, j :: 0 <= i < j < |os| ==> os[i].v != os[j].v)
  }

  /** With one placeholder per operand the pass fails exactly when some call touches an
      encrypted attribute in a way it cannot encrypt; otherwise it replaces exactly the
      values assigned to encrypted attributes and leaves every other value, conditions'
      values included, as it was. */
  lemma {:induction false} ExactlyTheEncrypted(enc: Cipher, encrypted: set<string>, names: map<string, string>, os: seq<Op>, values: map<string, AV>)
    requires SetCalls(os)
    ensures Effects(enc, encrypted, names, os, values).Done? <==> forall i :: 0 <= i < |os| ==> Fine(enc, encrypted, names, os[i], values)
    ensures var r := Effects(enc, encrypted, names, os, values);
            r.Done? ==> Replaced(enc, encrypted, names, os, values, r.values)
    decreases |os|
  {
    if os != [] {
      var one := Effect(enc, encrypted, names, os[0], values);
      assert one.Done? <==> Fine(enc, encrypted, names, os[0], values);
      if one.Done? {
        var rest := os[1..];
        assert forall i :: 0 <= i < |rest| ==> rest[i] == os[i + 1];
        assert SetCalls(rest);
        ExactlyTheEncrypted(enc, encrypted, names, rest, one.values);
        FineRest(enc, encrypted, names, os, values, one.values);
        var r := Effects(enc, encrypted, names, os, values);
        if r.Done? {
          ReplacedCons(enc, encrypted, names, os, values, one.values, r.values);
        }
      }
    }
  }

  /** The values assigned to encrypted attributes are encrypted; every other one is kept. */
  ghost predicate Replaced(enc: Cipher, encrypted: set<string>, names: map<string, string>, os: seq<Op>, values: map<string, AV>, values': map<string, AV>)
    requires forall i :: 0 <= i < |os| ==> os[i].path != [] && !os[i].Remove?
  {
    && values'.Keys == values.Keys
    && (forall i :: 0 <= i < |os| && Touches(encrypted, names, os[i]) ==>
          os[i].v in values && enc(Attr(names, os[i]), values[os[i].v]) == Some(values'[os[i].v]))
    && (forall k :: k in values && (forall i :: 0 <= i < |os| && Touches(encrypted, names, os[i]) ==> os[i].v != k) ==> values'[k] == values[k])
  }

  lemma ReplacedCons(enc: Cipher, encrypted: set<string>, names: map<string, string>, os: seq<Op>,
                     values: map<string, AV>, next: map<string, AV>, values': map<string, AV>)
    requires os != [] && SetCalls(os) && Effect(enc, encrypted, names, os[0], values) == Done(next)
    requires Replaced(enc, encrypted, names, os[1..], next, values')
    ensures Replaced(enc, encrypted, names, os, values, values')
  {
    var rest := os[1..];
    assert forall i :: 0 <= i < |rest| ==> rest[i] == os[i + 1];
    hide Touches, Attr;
    forall i | 0 <= i < |os| && Touches(encrypted, names, os[i])
      ensures os[i].v in values && enc(Attr(names, os[i]), values[os[i].v]) == Some(values'[os[i].v])
    {
      if i > 0 { assert rest[i - 1] == os[i]; }
    }
    forall k | k in values && (forall i :: 0 <= i < |os| && Touches(encrypted, names, os[i]) ==> os[i].v != k)
      ensures values'[k] == values[k]
    {
      assert next[k] == values[k];
    }
  }

  lemma FineRest(enc: Cipher, encrypted: set<string>, names: map<string, string>, os: seq<Op>, values: map<string, AV>, next: map<string, AV>)
    requires os != [] && SetCalls(os) && Effect(enc, encrypted, names, os[0], values) == Done(next)
    ensures forall i :: 0 < i < |os| ==> (Fine(enc, encrypted, names, os[i], next) <==> Fine(enc, encrypted, names, os[i], values))
    ensures forall i :: 0 < i < |os| ==> (os[i].v in next <==> os[i].v in values) && (os[i].v in values ==> next[os[i].v] == values[os[i].v])
  {
  }
}
