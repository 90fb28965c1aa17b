/** Update expressions as text: the fragments internal/expr prints, and the parser of
    internal/encryption that re-reads the text to find the values to encrypt. */
module UpdateText {
  import opened Wrappers
  import opened Builder

  // ----- words and joins

  function Join(ws: seq<string>, sep: string): string {
    if ws == [] then "" else if |ws| == 1 then ws[0] else ws[0] + sep + Join(ws[1..], sep)
  }

  lemma {:induction false} JoinConcat(a: seq<string>, b: seq<string>, sep: string)
    requires a != [] && b != []
    ensures Join(a + b, sep) == Join(a, sep) + sep + Join(b, sep)
    decreases |a|
  {
    assert (a + b)[0] == a[0] && (a + b)[1..] == a[1..] + b;
    if |a| == 1 {
      assert a[1..] + b == b;
    } else {
      JoinConcat(a[1..], b, sep);
      var x, y := Join(a[1..], sep), Join(b, sep);
      assert a[0] + sep + (x + sep + y) == (a[0] + sep + x) + sep + y;
    }
  }

  predicate Word(w: string) {
    w != "" && forall i :: 0 <= i < |w| ==> !Space(w[i])
  }

  predicate Words(ws: seq<string>) {
    forall i :: 0 <= i < |ws| ==> Word(ws[i])
  }

  function WordLen(s: string): (n: nat)
    ensures n <= |s| && (forall i :: 0 <= i < n ==> !Space(s[i])) && (n < |s| ==> Space(s[n]))
  {
    if s == "" || Space(s[0]) then 0 else 1 + WordLen(s[1..])
  }

  /** strings.Fields */
  function Fields(s: string): seq<string>
    decreases |s|
  {
    if s == "" then []
    else if Space(s[0]) then Fields(s[1..])
    else [s[..WordLen(s)]] + Fields(s[WordLen(s)..])
  }

  lemma WordLenIs(w: string, rest: string)
    requires Word(w) && (rest == "" || Space(rest[0]))
    ensures WordLen(w + rest) == |w|
  {
    assert forall i :: 0 <= i < |w| ==> (w + rest)[i] == w[i];
    assert rest != "" ==> (w + rest)[|w|] == rest[0];
  }

  /** Words joined by single spaces are read back one by one. */
  lemma {:induction false} FieldsJoin(ws: seq<string>)
    requires Words(ws)
    ensures Fields(Join(ws, " ")) == ws
    decreases |ws|
  {
    if ws == [] {
    } else if |ws| == 1 {
      var w := ws[0];
      WordLenIs(w, "");
      assert w + "" == w && w[..|w|] == w && w[|w|..] == "";
      assert Fields(w) == [w] + Fields("");
    } else {
      var w, rest := ws[0], Join(ws[1..], " ");
      var s := w + " " + rest;
      WordLenIs(w, " " + rest);
      assert s == w + (" " + rest);
      assert s[..|w|] == w && s[|w|..] == " " + rest && (" " + rest)[1..] == rest;
      assert Fields(s) == [w] + Fields(" " + rest);
      assert Fields(" " + rest) == Fields(rest);
      FieldsJoin(ws[1..]);
    }
  }

  // ----- comma-separated lists of fragments, as words

  function WithComma(ws: seq<string>): seq<string>
    requires ws != []
  {
    ws[..|ws| - 1] + [ws[|ws| - 1] + ","]
  }

  /** The words of a fragment list: a comma sticks to the last word of all but the last. */
  function ListWords(wss: seq<seq<string>>): (r: seq<string>)
    requires forall i :: 0 <= i < |wss| ==> wss[i] != []
    ensures wss != [] ==> r != []
  {
    if wss == [] then [] else if |wss| == 1 then wss[0] else WithComma(wss[0]) + ListWords(wss[1..])
  }

  function Texts(wss: seq<seq<string>>): (r: seq<string>)
    ensures |r| == |wss| && forall i :: 0 <= i < |wss| ==> r[i] == Join(wss[i], " ")
  {
    seq(|wss|, i requires 0 <= i < |wss| => Join(wss[i], " "))
  }

  lemma JoinWithComma(ws: seq<string>)
    requires ws != []
    ensures Join(WithComma(ws), " ") == Join(ws, " ") + ","
  {
    var last := ws[|ws| - 1];
    if |ws| == 1 {
      assert WithComma(ws) == [last + ","] && ws == [last];
    } else {
      var init := ws[..|ws| - 1];
      JoinConcat(init, [last], " ");
      JoinConcat(init, [last + ","], " ");
      assert ws == init + [last];
      assert Join(init, " ") + " " + (last + ",") == (Join(init, " ") + " " + last) + ",";
    }
  }

  lemma {:induction false} ListWordsJoin(wss: seq<seq<string>>)
    requires wss != [] && forall i :: 0 <= i < |wss| ==> wss[i] != []
    ensures Join(ListWords(wss), " ") == Join(Texts(wss), ", ")
    decreases |wss|
  {
    if |wss| == 1 {
      assert Texts(wss) == [Join(wss[0], " ")];
    } else {
      ListWordsJoin(wss[1..]);
      JoinConcat(WithComma(wss[0]), ListWords(wss[1..]), " ");
      JoinWithComma(wss[0]);
      assert Texts(wss)[1..] == Texts(wss[1..]);
      var a, b := Join(wss[0], " "), Join(Texts(wss[1..]), ", ");
      assert (a + ",") + " " + b == a + ", " + b;
    }
  }

  // ----- printing and re-reading the sections

  predicate Keyword(w: string) {
    w == "SET" || w == "REMOVE" || w == "ADD" || w == "DELETE"
  }

  lemma KeywordIsWord(a: string)
    requires Keyword(a)
    ensures Word(a)
  {
  }

  /** Fragments by action, as word lists; order is the order in which Build meets them. */
  type Sheet = map<string, seq<seq<string>>>

  predicate Quoted(ws: seq<string>) {
    ws != [] && Words(ws) && forall i :: 0 <= i < |ws| ==> !Keyword(ws[i]) && !Keyword(ws[i] + ",")
  }

  predicate SheetOk(sheet: Sheet) {
    forall a :: a in sheet ==> Keyword(a) && forall i :: 0 <= i < |sheet[a]| ==> Quoted(sheet[a][i])
  }

  predicate Order(sheet: Sheet, order: seq<string>) {
    && (forall i :: 0 <= i < |order| ==> order[i] in sheet)
    && (forall i, j :: 0 <= i < j < |order| ==> order[i] != order[j])
    && (forall a :: a in sheet ==> a in order)
  }

  /** Build: each action with at least one fragment prints "ACTION f1, f2"; parts are joined by spaces. */
  method BuildUpdateExpression(exprs: map<string, seq<string>>, order: seq<string>) returns (text: string)
    requires forall i :: 0 <= i < |order| ==> order[i] in exprs
    ensures text == Join(Parts(exprs, order), " ")
  {
    var parts: seq<string> := [];
    for i := 0 to |order|
      invariant parts == Parts(exprs, order[..i])
    {
      var action := order[i];
      assert order[..i + 1] == order[..i] + [action];
      PartsAppend(exprs, order[..i], action);
      if |exprs[action]| > 0 {
        parts := parts + [action + " " + Join(exprs[action], ", ")];
      }
    }
    assert order[..|order|] == order;
    return Join(parts, " ");
  }

  function Parts(exprs: map<string, seq<string>>, order: seq<string>): seq<string>
    requires forall i :: 0 <= i < |order| ==> order[i] in exprs
  {
    if order == [] then []
    else Part(exprs, order[0]) + Parts(exprs, order[1..])
  }

  function Part(exprs: map<string, seq<string>>, a: string): seq<string>
    requires a in exprs
  {
    if exprs[a] == [] then [] else [a + " " + Join(exprs[a], ", ")]
  }

  lemma {:induction false} PartsAppend(exprs: map<string, seq<string>>, order: seq<string>, a: string)
    requires a in exprs && forall i :: 0 <= i < |order| ==> order[i] in exprs
    ensures Parts(exprs, order + [a]) == Parts(exprs, order) + Part(exprs, a)
    decreases |order|
  {
    hide Part;
    if order == [] {
      assert order + [a] == [a] && [a][1..] == [];
    } else {
      assert (order + [a])[0] == order[0] && (order + [a])[1..] == order[1..] + [a];
      PartsAppend(exprs, order[1..], a);
    }
  }

  function TextsOf(sheet: Sheet): map<string, seq<string>> {
    map a | a in sheet :: Texts(sheet[a])
  }

  function Tokens(sheet: Sheet, order: seq<string>): seq<string>
    requires SheetOk(sheet) && forall i :: 0 <= i < |order| ==> order[i] in sheet
  {
    if order == [] then []
    else SectionTokens(sheet, order[0]) + Tokens(sheet, order[1..])
  }

  function SectionTokens(sheet: Sheet, a: string): seq<string>
    requires SheetOk(sheet) && a in sheet
  {
    if sheet[a] == [] then [] else [a] + ListWords(sheet[a])
  }

  lemma PartWords(sheet: Sheet, a: string)
    requires SheetOk(sheet) && a in sheet && sheet[a] != []
    ensures Join([a] + ListWords(sheet[a]), " ") == a + " " + Join(Texts(sheet[a]), ", ")
  {
    JoinConcat([a], ListWords(sheet[a]), " ");
    ListWordsJoin(sheet[a]);
  }

  /** The printed text is the token list joined by spaces. */
  lemma {:induction false} PrintedTokens(sheet: Sheet, order: seq<string>)
    requires SheetOk(sheet) && forall i :: 0 <= i < |order| ==> order[i] in sheet
    ensures Join(Parts(TextsOf(sheet), order), " ") == Join(Tokens(sheet, order), " ")
    ensures Parts(TextsOf(sheet), order) == [] <==> Tokens(sheet, order) == []
    decreases |order|
  {
    if order != [] {
      var a := order[0];
      var rest, restTokens := Parts(TextsOf(sheet), order[1..]), Tokens(sheet, order[1..]);
      PrintedTokens(sheet, order[1..]);
      if sheet[a] == [] {
        assert [] + rest == rest && [] + restTokens == restTokens;
      } else {
        PartWords(sheet, a);
        var part := a + " " + Join(Texts(sheet[a]), ", ");
        assert Parts(TextsOf(sheet), order) == [part] + rest;
        if rest == [] {
          assert [part] + rest == [part] && ([a] + ListWords(sheet[a])) + restTokens == [a] + ListWords(sheet[a]);
        } else {
          JoinConcat([part], rest, " ");
          JoinConcat([a] + ListWords(sheet[a]), restTokens, " ");
        }
      }
    }
  }

  lemma {:induction false} ListWordsQuoted(wss: seq<seq<string>>)
    requires forall i :: 0 <= i < |wss| ==> wss[i] != [] && Quoted(wss[i])
    ensures Words(ListWords(wss)) && forall i :: 0 <= i < |ListWords(wss)| ==> !Keyword(ListWords(wss)[i])
    decreases |wss|
  {
    if |wss| > 1 {
      ListWordsQuoted(wss[1..]);
      var ws := wss[0];
      var cs := WithComma(ws);
      forall i | 0 <= i < |cs| ensures Word(cs[i]) && !Keyword(cs[i]) {
        if i == |ws| - 1 {
          assert cs[i] == ws[i] + "," && Word(ws[i]);
        } else {
          assert cs[i] == ws[i];
        }
      }
    }
  }

  lemma {:induction false} TokensAreWords(sheet: Sheet, order: seq<string>)
    requires SheetOk(sheet) && forall i :: 0 <= i < |order| ==> order[i] in sheet
    ensures Words(Tokens(sheet, order))
    decreases |order|
  {
    if order != [] {
      TokensAreWords(sheet, order[1..]);
      SectionWords(sheet, order[0]);
      var head, rest := SectionTokens(sheet, order[0]), Tokens(sheet, order[1..]);
      assert Tokens(sheet, order) == head + rest;
      hide *;
      WordsConcat(head, rest);
    }
  }

  lemma SectionWords(sheet: Sheet, a: string)
    requires SheetOk(sheet) && a in sheet
    ensures Words(SectionTokens(sheet, a))
  {
    KeywordIsWord(a);
    ListWordsQuoted(sheet[a]);
    hide Keyword, Quoted, ListWords, Word;
    assert Words([a]);
    WordsConcat([a], ListWords(sheet[a]));
  }

  lemma WordsConcat(a: seq<string>, b: seq<string>)
    requires Words(a) && Words(b)
    ensures Words(a + b)
  {
    hide Word;
  }

  // the parser

  function Flush(sections: map<string, string>, action: string, buf: seq<string>): map<string, string> {
    if action == "" then sections else sections[action := Join(buf, " ")]
  }

  function Scan(tokens: seq<string>, sections: map<string, string>, action: string, buf: seq<string>): map<string, string>
    decreases |tokens|
  {
    if tokens == [] then Flush(sections, action, buf)
    else if Keyword(tokens[0]) then Scan(tokens[1..], Flush(sections, action, buf), tokens[0], if action == "" then buf else [])
    else Scan(tokens[1..], sections, action, if action != "" then buf + [tokens[0]] else buf)
  }

  method SplitUpdateExpressionSections(expr: string) returns (sections: map<string, string>)
    ensures sections == Scan(Fields(expr), map[], "", [])
  {
    var tokens := Fields(expr);
    sections := map[];
    var action: string, buf: seq<string> := "", [];
    for i := 0 to |tokens|
      invariant Scan(tokens, map[], "", []) == Scan(tokens[i..], sections, action, buf)
    {
      var tok := tokens[i];
      assert tokens[i..][0] == tok && tokens[i..][1..] == tokens[i + 1..];
      if Keyword(tok) {
        if action != "" {
          sections := sections[action := Join(buf, " ")];
          buf := [];
        }
        action := tok;
      } else if action != "" {
        buf := buf + [tok];
      }
    }
    if action != "" {
      sections := sections[action := Join(buf, " ")];
    }
  }

  lemma {:induction false} ScanWords(ws: seq<string>, rest: seq<string>, sections: map<string, string>, action: string, buf: seq<string>)
    requires action != "" && forall i :: 0 <= i < |ws| ==> !Keyword(ws[i])
    ensures Scan(ws + rest, sections, action, buf) == Scan(rest, sections, action, buf + ws)
    decreases |ws|
  {
    if ws == [] {
      assert ws + rest == rest && buf + ws == buf;
    } else {
      assert (ws + rest)[0] == ws[0] && (ws + rest)[1..] == ws[1..] + rest;
      ScanWords(ws[1..], rest, sections, action, buf + [ws[0]]);
      assert (buf + [ws[0]]) + ws[1..] == buf + ws;
    }
  }

  /** The sections a sheet should be read back as. */
  function Sections(sheet: Sheet, order: seq<string>): map<string, string>
    requires forall i :: 0 <= i < |order| ==> order[i] in sheet
  {
    map a | a in order && sheet[a] != [] :: Join(Texts(sheet[a]), ", ")
  }

  lemma {:induction false} ScanTokens(sheet: Sheet, order: seq<string>, sections: map<string, string>, action: string, buf: seq<string>)
    requires SheetOk(sheet) && (forall i :: 0 <= i < |order| ==> order[i] in sheet)
    requires (forall i, j :: 0 <= i < j < |order| ==> order[i] != order[j]) && action !in order && (action == "" ==> buf == [])
    ensures Scan(Tokens(sheet, order), sections, action, buf) == Flush(sections, action, buf) + Sections(sheet, order)
    decreases |order|
  {
    if order == [] {
      assert Sections(sheet, order) == map[];
    } else {
      var a, rest := order[0], order[1..];
      assert forall i :: 0 <= i < |rest| ==> rest[i] == order[i + 1];
      SectionsCons(sheet, order);
      hide Scan, ListWords, Join, Sections, Quoted;
      if sheet[a] == [] {
        assert Tokens(sheet, order) == Tokens(sheet, rest);
        ScanTokens(sheet, rest, sections, action, buf);
      } else {
        var flushed := Flush(sections, action, buf);
        ScanSection(sheet, a, Tokens(sheet, rest), sections, action, buf);
        assert Tokens(sheet, order) == [a] + ListWords(sheet[a]) + Tokens(sheet, rest);
        ScanTokens(sheet, rest, flushed, a, ListWords(sheet[a]));
        ListWordsJoin(sheet[a]);
        AddFirst(flushed, a, Join(Texts(sheet[a]), ", "), Sections(sheet, rest));
      }
    }
  }

  lemma AddFirst(m: map<string, string>, k: string, v: string, rest: map<string, string>)
    ensures m[k := v] + rest == m + (map[k := v] + rest)
  {
  }

  lemma SectionsCons(sheet: Sheet, order: seq<string>)
    requires order != [] && (forall i :: 0 <= i < |order| ==> order[i] in sheet) && order[0] !in order[1..]
    ensures Sections(sheet, order) ==
            if sheet[order[0]] == [] then Sections(sheet, order[1..])
            else map[order[0] := Join(Texts(sheet[order[0]]), ", ")] + Sections(sheet, order[1..])
  {
    assert forall a :: a in order <==> a == order[0] || a in order[1..];
  }

  lemma ScanSection(sheet: Sheet, a: string, rest: seq<string>, sections: map<string, string>, action: string, buf: seq<string>)
    requires SheetOk(sheet) && a in sheet && sheet[a] != [] && (action == "" ==> buf == [])
    ensures Scan([a] + ListWords(sheet[a]) + rest, sections, action, buf) == Scan(rest, Flush(sections, action, buf), a, ListWords(sheet[a]))
  {
    var ws := ListWords(sheet[a]);
    ListWordsQuoted(sheet[a]);
    var tokens := [a] + ws + rest;
    assert tokens[0] == a && tokens[1..] == ws + rest;
    ScanWords(ws, rest, Flush(sections, action, buf), a, []);
    assert [] + ws == ws;
  }

  lemma PrintedReads(sheet: Sheet, order: seq<string>)
    requires SheetOk(sheet) && forall i :: 0 <= i < |order| ==> order[i] in sheet
    ensures Fields(Join(Parts(TextsOf(sheet), order), " ")) == Tokens(sheet, order)
  {
    PrintedTokens(sheet, order);
    TokensAreWords(sheet, order);
    hide Fields, Join, Parts, Tokens, TextsOf;
    FieldsJoin(Tokens(sheet, order));
  }

  /** Printer and parser undo each other, section by section: in whatever order Build meets
      the actions, re-reading its text gives back, for every action that had fragments,
      exactly their comma-joined list, and no other section. */
  lemma SectionsRoundTrip(sheet: Sheet, order: seq<string>)
    requires SheetOk(sheet) && Order(sheet, order)
    ensures Scan(Fields(Join(Parts(TextsOf(sheet), order), " ")), map[], "", []) == Sections(sheet, order)
  {
    hide Keyword, Quoted, Scan, Fields, Join, Parts, Tokens, Sections, TextsOf;
    if "" in order {
      KeywordIsWord("");
    }
    PrintedReads(sheet, order);
    ScanTokens(sheet, order, map[], "", []);
    assert map[] + Sections(sheet, order) == Sections(sheet, order);
  }

  // ----- splitting a section into fragments

  /** The pieces between commas at parenthesis depth zero, trimmed, empty ones dropped. */
  function SplitTop(s: string, depth: nat, cur: string): seq<string>
    decreases |s|
  {
    if s == "" then Piece(cur)
    else if s[0] == ',' && depth == 0 then Piece(cur) + SplitTop(s[1..], 0, "")
    else SplitTop(s[1..], Deeper(s[0], depth), cur + [s[0]])
  }

  function Piece(cur: string): seq<string> {
    if Trim(cur) == "" then [] else [Trim(cur)]
  }

  method SplitTopLevelCommaSeparated(text: string) returns (parts: seq<string>)
    ensures parts == SplitTop(Trim(text), 0, "")
  {
    var s := Trim(text);
    parts := [];
    if s == "" {
      assert Trim("") == "";
      return;
    }
    var start, depth := 0, 0;
    assert s[0..] == s && s[0..0] == "" && [] + SplitTop(s, 0, "") == SplitTop(s, 0, "");
    for i := 0 to |s|
      invariant 0 <= start <= i && depth >= 0
      invariant Splits(s, i, parts, start, depth)
    {
      SplitsStep(s, i, parts, start, depth);
      hide Splits;
      if s[i] == '(' {
        depth := depth + 1;
      } else if s[i] == ')' {
        if depth > 0 {
          depth := depth - 1;
        }
      } else if s[i] == ',' && depth == 0 {
        var part := Trim(s[start..i]);
        if part != "" {
          parts := parts + [part];
        } else {
          assert parts + [] == parts;
        }
        start := i + 1;
      }
    }
    assert s[|s|..] == "" && s[start..|s|] == s[start..];
    var last := Trim(s[start..]);
    if last != "" {
      parts := parts + [last];
    }
  }

  /** The pieces so far, and what the rest of the text will add to them. */
  ghost predicate Splits(s: string, i: nat, parts: seq<string>, start: nat, depth: nat)
    requires start <= i <= |s|
  {
    SplitTop(s, 0, "") == parts + SplitTop(s[i..], depth, s[start..i])
  }

  lemma SplitsStep(s: string, i: nat, parts: seq<string>, start: nat, depth: nat)
    requires start <= i < |s| && Splits(s, i, parts, start, depth)
    ensures if s[i] == ',' && depth == 0 then Splits(s, i + 1, parts + Piece(s[start..i]), i + 1, 0)
            else Splits(s, i + 1, parts, start, Deeper(s[i], depth))
  {
    var ahead := s[i..];
    assert ahead[0] == s[i];
    assert ahead[1..] == s[i + 1..];
    if s[i] == ',' && depth == 0 {
      var piece, rest := Piece(s[start..i]), SplitTop(s[i + 1..], 0, "");
      assert SplitTop(s[i..], depth, s[start..i]) == piece + rest;
      hide SplitTop, Piece;
      assert parts + (piece + rest) == (parts + piece) + rest;
      assert s[i + 1..i + 1] == "";
    } else {
      assert s[start..i] + [s[i]] == s[start..i + 1];
    }
  }

  /** The parenthesis depth after one character. */
  function Deeper(c: char, depth: nat): nat {
    if c == '(' then depth + 1 else if c == ')' && depth > 0 then depth - 1 else depth
  }

  /** The depth after reading s, if no comma shows up at depth zero. */
  function Quiet(s: string, depth: nat): Option<nat>
    decreases |s|
  {
    if s == "" then Some(depth)
    else if s[0] == ',' && depth == 0 then None
    else Quiet(s[1..], Deeper(s[0], depth))
  }

  lemma {:induction false} QuietConcat(a: string, b: string, depth: nat)
    requires Quiet(a, depth).Some?
    ensures Quiet(a + b, depth) == Quiet(b, Quiet(a, depth).value)
    decreases |a|
  {
    if a == "" {
      assert a + b == b;
    } else {
      assert (a + b)[0] == a[0] && (a + b)[1..] == a[1..] + b;
      QuietConcat(a[1..], b, Deeper(a[0], depth));
    }
  }

  lemma {:induction false} SplitTopQuiet(a: string, b: string, depth: nat, cur: string)
    requires Quiet(a, depth).Some?
    ensures SplitTop(a + b, depth, cur) == SplitTop(b, Quiet(a, depth).value, cur + a)
    decreases |a|
  {
    if a == "" {
      assert a + b == b && cur + a == cur;
    } else {
      assert (a + b)[0] == a[0] && (a + b)[1..] == a[1..] + b;
      assert (cur + [a[0]]) + a[1..] == cur + a;
      SplitTopQuiet(a[1..], b, Deeper(a[0], depth), cur + [a[0]]);
    }
  }

  /** A fragment text that survives the splitter: balanced, trimmed and not empty. */
  predicate Solid(t: string) {
    t != "" && !Space(t[0]) && !Space(t[|t| - 1]) && Quiet(t, 0) == Some(0)
  }

  lemma TrimSolid(t: string)
    requires t != "" && !Space(t[0]) && !Space(t[|t| - 1])
    ensures Trim(t) == t && Trim(" " + t) == t && Trim(t + " ") == t
  {
    assert (" " + t)[1..] == t && (t + " ")[..|t|] == t;
    assert TrimLeft(t) == t && TrimRight(t) == t && TrimLeft(" " + t) == t;
    assert TrimLeft(t + " ") == t + " " && TrimRight(t + " ") == TrimRight((t + " ")[..|t|]);
  }

  lemma {:induction false} SplitTopJoined(ts: seq<string>, lead: string)
    requires ts != [] && (lead == "" || lead == " ") && forall i :: 0 <= i < |ts| ==> Solid(ts[i])
    ensures SplitTop(lead + Join(ts, ", "), 0, "") == ts
    decreases |ts|
  {
    assert Solid(ts[0]);
    hide SplitTop, Solid;
    if |ts| == 1 {
      assert lead + Join(ts, ", ") == lead + ts[0];
      SplitLast(lead, ts[0]);
      assert ts == [ts[0]];
    } else {
      var rest := Join(ts[1..], ", ");
      assert lead + Join(ts, ", ") == lead + ts[0] + ", " + rest;
      SplitFirst(lead, ts[0], rest);
      SplitTopJoined(ts[1..], " ");
      assert ts == [ts[0]] + ts[1..];
    }
  }

  lemma SplitLast(lead: string, t: string)
    requires (lead == "" || lead == " ") && Solid(t)
    ensures SplitTop(lead + t, 0, "") == [t]
  {
    LeadKept(lead, t);
    hide Quiet, Solid, Trim, Piece;
    SplitTopQuiet(lead + t, "", 0, "");
    assert (lead + t) + "" == lead + t && "" + (lead + t) == lead + t;
  }

  lemma SplitFirst(lead: string, t: string, rest: string)
    requires (lead == "" || lead == " ") && Solid(t)
    ensures SplitTop(lead + t + ", " + rest, 0, "") == [t] + SplitTop(" " + rest, 0, "")
  {
    var u, tail := lead + t, ", " + rest;
    LeadKept(lead, t);
    hide SplitTop, Quiet, Solid, Trim, Piece;
    SplitTopQuiet(u, tail, 0, "");
    SplitAtComma(u, rest);
    assert u + tail == lead + t + ", " + rest && "" + u == u;
  }

  lemma SplitAtComma(cur: string, rest: string)
    ensures SplitTop(", " + rest, 0, cur) == Piece(cur) + SplitTop(" " + rest, 0, "")
  {
    var tail := ", " + rest;
    assert tail[0] == ',' && tail[1..] == " " + rest;
  }

  lemma LeadTrims(lead: string, t: string)
    requires (lead == "" || lead == " ") && Solid(t)
    ensures Trim(lead + t) == t && t != ""
  {
    TrimSolid(t);
    assert lead == "" ==> lead + t == t;
  }

  lemma LeadKept(lead: string, t: string)
    requires (lead == "" || lead == " ") && Solid(t)
    ensures Quiet(lead + t, 0) == Some(0) && Piece(lead + t) == [t]
  {
    LeadQuiet(lead, t);
    LeadTrims(lead, t);
  }

  lemma LeadQuiet(lead: string, t: string)
    requires (lead == "" || lead == " ") && Quiet(t, 0) == Some(0)
    ensures Quiet(lead + t, 0) == Some(0)
  {
    if lead == "" {
      assert lead + t == t;
    } else {
      assert (lead + t)[1..] == t;
    }
  }

  /** The whole way: a section's text splits into exactly the fragments that were printed. */
  lemma {:induction false} FragmentsRoundTrip(ts: seq<string>)
    requires ts != [] && forall i :: 0 <= i < |ts| ==> Solid(ts[i])
    ensures SplitTop(Trim(Join(ts, ", ")), 0, "") == ts
  {
    JoinEnds(ts);
    hide Solid, SplitTop, Join, Trim;
    var s := Join(ts, ", ");
    TrimSolid(s);
    SplitTopJoined(ts, "");
    assert "" + s == s;
  }

  lemma {:induction false} JoinEnds(ts: seq<string>)
    requires ts != [] && forall i :: 0 <= i < |ts| ==> ts[i] != "" && !Space(ts[i][0]) && !Space(ts[i][|ts[i]| - 1])
    ensures var s := Join(ts, ", "); s != "" && !Space(s[0]) && !Space(s[|s| - 1])
    decreases |ts|
  {
    if |ts| > 1 {
      JoinEnds(ts[1..]);
    }
  }
}
