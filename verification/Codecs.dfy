/** Two encodings of attribute values: the plaintext form of internal/encryption, a record
    whose empty fields JSON drops, and the cursor form of pkg/query, untyped JSON. */
module Codecs {
  import opened Wrappers
  import opened AttributeValues
  import opened Base64

  // ----- internal/encryption

  /** avJSON: an absent list or map and an empty one are the same. */
  datatype Encoded = Encoded(t: string, s: Option<string>, n: Option<string>, b: Option<string>, flag: Option<bool>,
                             l: seq<Encoded>, m: map<string, Encoded>, ss: seq<string>, ns: seq<string>, bs: seq<string>, isNull: bool)

  const BLANK: Encoded := Encoded("", None, None, None, None, [], map[], [], [], [], false)

  function EncodeBytes(bs: seq<seq<byte>>): (r: seq<string>)
    ensures |r| == |bs| && forall i :: 0 <= i < |bs| ==> r[i] == Encode(Std, bs[i])
  {
    seq(|bs|, i requires 0 <= i < |bs| => Encode(Std, bs[i]))
  }

  function DecodeBytes(ss: seq<string>): (r: Option<seq<seq<byte>>>)
    ensures r.Some? ==> |r.value| == |ss|
  {
    if ss == [] then Some([]) else
      match (Decode(Std, ss[0]), DecodeBytes(ss[1..]))
      case (Some(b), Some(rest)) => Some([b] + rest)
      case _ => None
  }

  lemma {:induction false} BytesRoundTrip(bs: seq<seq<byte>>)
    ensures DecodeBytes(EncodeBytes(bs)) == Some(bs)
    decreases |bs|
  {
    if bs != [] {
      RoundTrip(Std, bs[0]);
      assert EncodeBytes(bs)[1..] == EncodeBytes(bs[1..]);
      BytesRoundTrip(bs[1..]);
      assert [bs[0]] + bs[1..] == bs;
    }
  }

  function Marshal(av: AV): Encoded {
    match av
    case S(s) => BLANK.(t := "S", s := Some(s))
    case N(n) => BLANK.(t := "N", n := Some(n))
    case B(b) => BLANK.(t := "B", b := Some(Encode(Std, b)))
    case BOOL(flag) => BLANK.(t := "BOOL", flag := Some(flag))
    case NULL => BLANK.(t := "NULL", isNull := true)
    case L(list) => BLANK.(t := "L", l := seq(|list|, i requires 0 <= i < |list| => Marshal(list[i])))
    case M(fields) => BLANK.(t := "M", m := map k | k in fields :: Marshal(fields[k]))
    case SS(strings) => BLANK.(t := "SS", ss := strings)
    case NS(numbers) => BLANK.(t := "NS", ns := numbers)
    case BS(binaries) => BLANK.(t := "BS", bs := EncodeBytes(binaries))
  }

  /** Missing fields fall back to "", "0", no bytes and false. */
  function Unmarshal(e: Encoded): Option<AV> {
    if e.t == "S" then Some(S(if e.s.Some? then e.s.value else ""))
    else if e.t == "N" then Some(N(if e.n.Some? then e.n.value else "0"))
    else if e.t == "B" then
      if e.b.None? then Some(B([]))
      else (match Decode(Std, e.b.value) case Some(b) => Some(B(b)) case None => None)
    else if e.t == "BOOL" then Some(BOOL(e.flag.Some? && e.flag.value))
    else if e.t == "NULL" then Some(NULL)
    else if e.t == "L" then
      (if forall i :: 0 <= i < |e.l| ==> Unmarshal(e.l[i]).Some?
       then Some(L(seq(|e.l|, i requires 0 <= i < |e.l| => Unmarshal(e.l[i]).value))) else None)
    else if e.t == "M" then
      (if forall k :: k in e.m ==> Unmarshal(e.m[k]).Some?
       then Some(M(map k | k in e.m :: Unmarshal(e.m[k]).value)) else None)
    else if e.t == "SS" then Some(SS(e.ss))
    else if e.t == "NS" then Some(NS(e.ns))
    else if e.t == "BS" then (match DecodeBytes(e.bs) case Some(bs) => Some(BS(bs)) case None => None)
    else None
  }

  lemma {:induction false} MarshalRoundTrip(av: AV)
    ensures Unmarshal(Marshal(av)) == Some(av)
    decreases av, 1
  {
    hide Marshal, Unmarshal;
    if av.L? {
      MarshalList(av);
    } else if av.M? {
      MarshalMap(av);
    } else {
      MarshalFlat(av);
    }
  }

  lemma MarshalFlat(av: AV)
    requires !av.L? && !av.M?
    ensures Unmarshal(Marshal(av)) == Some(av)
  {
    hide Encode, Decode, EncodeBytes, DecodeBytes;
    match av
    case B(b) => RoundTrip(Std, b);
    case BS(binaries) => BytesRoundTrip(binaries);
    case _ =>
  }

  lemma {:induction false} MarshalList(av: AV)
    requires av.L?
    ensures Unmarshal(Marshal(av)) == Some(av)
    decreases av, 0
  {
    var e := Marshal(av);
    forall i | 0 <= i < |av.list| ensures Unmarshal(e.l[i]) == Some(av.list[i]) {
      MarshalRoundTrip(av.list[i]);
    }
    hide Marshal;
    assert seq(|e.l|, i requires 0 <= i < |e.l| => Unmarshal(e.l[i]).value) == av.list;
  }

  lemma {:induction false} MarshalMap(av: AV)
    requires av.M?
    ensures Unmarshal(Marshal(av)) == Some(av)
    decreases av, 0
  {
    var e := Marshal(av);
    forall k | k in av.fields ensures Unmarshal(e.m[k]) == Some(av.fields[k]) {
      MarshalRoundTrip(av.fields[k]);
    }
    assert e.m.Keys == av.fields.Keys && e.t == "M";
    hide Marshal, Unmarshal;
    UnmarshalMap(e, av.fields);
  }

  lemma UnmarshalMap(e: Encoded, fields: map<string, AV>)
    requires e.t == "M" && e.m.Keys == fields.Keys && forall k :: k in fields ==> Unmarshal(e.m[k]) == Some(fields[k])
    ensures Unmarshal(e) == Some(M(fields))
  {
    UnmarshalReadsMap(e);
    hide Unmarshal;
    assert (map k | k in e.m :: Unmarshal(e.m[k]).value) == fields;
  }

  lemma UnmarshalReadsMap(e: Encoded)
    requires e.t == "M" && forall k :: k in e.m ==> Unmarshal(e.m[k]).Some?
    ensures Unmarshal(e) == Some(M(map k | k in e.m :: Unmarshal(e.m[k]).value))
  {
    assert e.t[0] == 'M' && |e.t| == 1;
    var r := Unmarshal(e);
    assert r.Some? && r.value.M?;
    assert r.value.fields == map k | k in e.m :: Unmarshal(e.m[k]).value;
  }

  // what encoding/json does to the record: "omitempty" leaves empty fields out of the document

  datatype Name = OfS | OfN | OfB | OfBool | OfL | OfM | OfSS | OfNS | OfBS | OfNull

  datatype Payload = PStr(s: string) | PBool(b: bool) | PStrs(strings: seq<string>) | PDocs(docs: seq<Doc>) | PMap(byKey: map<string, Doc>)

  datatype Doc = Doc(t: string, fields: map<Name, Payload>)

  predicate Kept(e: Encoded, f: Name) {
    match f
    case OfS => e.s.Some?
    case OfN => e.n.Some?
    case OfB => e.b.Some?
    case OfBool => e.flag.Some?
    case OfL => e.l != []
    case OfM => e.m != map[]
    case OfSS => e.ss != []
    case OfNS => e.ns != []
    case OfBS => e.bs != []
    case OfNull => e.isNull
  }

  function Write(e: Encoded): Doc
    decreases e, 1
  {
    Doc(e.t, map f: Name | Kept(e, f) :: WriteField(e, f))
  }

  function WriteField(e: Encoded, f: Name): Payload
    requires Kept(e, f)
    decreases e, 0
  {
    match f
    case OfS => PStr(e.s.value)
    case OfN => PStr(e.n.value)
    case OfB => PStr(e.b.value)
    case OfBool => PBool(e.flag.value)
    case OfL => PDocs(seq(|e.l|, i requires 0 <= i < |e.l| => Write(e.l[i])))
    case OfM => PMap(map k | k in e.m :: Write(e.m[k]))
    case OfSS => PStrs(e.ss)
    case OfNS => PStrs(e.ns)
    case OfBS => PStrs(e.bs)
    case OfNull => PBool(true)
  }

  function StrAt(d: Doc, f: Name): Option<string> {
    if f in d.fields && d.fields[f].PStr? then Some(d.fields[f].s) else None
  }

  function BoolAt(d: Doc, f: Name): Option<bool> {
    if f in d.fields && d.fields[f].PBool? then Some(d.fields[f].b) else None
  }

  function StrsAt(d: Doc, f: Name): seq<string> {
    if f in d.fields && d.fields[f].PStrs? then d.fields[f].strings else []
  }

  /** Reading the document: a field that is not there gets its zero value. */
  function Read(d: Doc): Encoded {
    Encoded(d.t, StrAt(d, OfS), StrAt(d, OfN), StrAt(d, OfB), BoolAt(d, OfBool),
            if OfL in d.fields && d.fields[OfL].PDocs? then
              seq(|d.fields[OfL].docs|, i requires 0 <= i < |d.fields[OfL].docs| => Read(d.fields[OfL].docs[i])) else [],
            if OfM in d.fields && d.fields[OfM].PMap? then
              map k | k in d.fields[OfM].byKey :: Read(d.fields[OfM].byKey[k]) else map[],
            StrsAt(d, OfSS), StrsAt(d, OfNS), StrsAt(d, OfBS), BoolAt(d, OfNull) == Some(true))
  }

  /** The type code of a value and the field that carries it. */
  function Tag(av: AV): (string, Name) {
    match av
    case S(_) => ("S", OfS)
    case N(_) => ("N", OfN)
    case B(_) => ("B", OfB)
    case BOOL(_) => ("BOOL", OfBool)
    case NULL => ("NULL", OfNull)
    case L(_) => ("L", OfL)
    case M(_) => ("M", OfM)
    case SS(_) => ("SS", OfSS)
    case NS(_) => ("NS", OfNS)
    case BS(_) => ("BS", OfBS)
  }

  predicate Hollow(av: AV) {
    match av
    case L(list) => |list| == 0
    case M(fields) => |fields| == 0
    case SS(strings) => |strings| == 0
    case NS(numbers) => |numbers| == 0
    case BS(binaries) => |binaries| == 0
    case _ => false
  }

  lemma MarshalTag(av: AV)
    ensures Marshal(av).t == Tag(av).0 && forall f :: Kept(Marshal(av), f) <==> f == Tag(av).1 && !Hollow(av)
  {
    var e := Marshal(av);
    hide Encode;
    assert av.M? ==> e.m.Keys == av.fields.Keys && (|av.fields| == 0 <==> e.m == map[]);
  }

  /** The document of a value holds its type code and the one field of that type, and not
      even that for an empty collection. */
  lemma DocumentHolds(av: AV)
    ensures var d := Write(Marshal(av)); d.t == Tag(av).0 && d.fields.Keys == if Hollow(av) then {} else {Tag(av).1}
  {
    MarshalTag(av);
    hide Marshal, Kept, Tag, Hollow, WriteField;
  }

  /** Dropping the empty fields loses nothing. */
  lemma {:induction false} DocRoundTrip(e: Encoded)
    ensures Read(Write(e)) == e
    decreases e, 1
  {
    DocList(e);
    DocMap(e);
    var d := Write(e);
    hide Write, Read;
    DocScalars(e);
  }

  lemma DocScalars(e: Encoded)
    ensures var d := Write(e);
            && d.t == e.t && StrAt(d, OfS) == e.s && StrAt(d, OfN) == e.n && StrAt(d, OfB) == e.b && BoolAt(d, OfBool) == e.flag
            && StrsAt(d, OfSS) == e.ss && StrsAt(d, OfNS) == e.ns && StrsAt(d, OfBS) == e.bs && (BoolAt(d, OfNull) == Some(true)) == e.isNull
  {
  }

  lemma {:induction false} DocList(e: Encoded)
    ensures Read(Write(e)).l == e.l
    decreases e, 0
  {
    if e.l != [] {
      assert Kept(e, OfL) && Write(e).fields[OfL] == WriteField(e, OfL);
      var docs := Write(e).fields[OfL].docs;
      forall i | 0 <= i < |e.l| ensures Read(docs[i]) == e.l[i] {
        DocRoundTrip(e.l[i]);
      }
    }
  }

  lemma {:induction false} DocMap(e: Encoded)
    ensures Read(Write(e)).m == e.m
    decreases e, 0
  {
    if e.m != map[] {
      assert Kept(e, OfM) && Write(e).fields[OfM] == WriteField(e, OfM);
      var byKey := Write(e).fields[OfM].byKey;
      forall k | k in e.m ensures Read(byKey[k]) == e.m[k] {
        DocRoundTrip(e.m[k]);
      }
    }
  }

  /** The plaintext encoding, written as JSON without its empty fields and read back, gives
      the attribute value it was made from; so it is injective. */
  lemma EncryptionRoundTrip(av: AV)
    ensures Unmarshal(Read(Write(Marshal(av)))) == Some(av)
  {
    DocRoundTrip(Marshal(av));
    MarshalRoundTrip(av);
  }

  lemma EncryptionInjective(av: AV, other: AV)
    requires Write(Marshal(av)) == Write(Marshal(other))
    ensures av == other
  {
    EncryptionRoundTrip(av);
    EncryptionRoundTrip(other);
  }

  // ----- pkg/query cursors

  /** The Go values attributeValueToJSON builds: a []string is not yet a []any. */
  datatype Go = GStr(s: string) | GBool(b: bool) | GStrs(strings: seq<string>) | GList(items: seq<Go>) | GMap(fields: map<string, Go>)

  function ToCursor(av: AV): Go {
    match av
    case S(s) => GMap(map["S" := GStr(s)])
    case N(n) => GMap(map["N" := GStr(n)])
    case B(b) => GMap(map["B" := GStr(Encode(Std, b))])
    case BOOL(flag) => GMap(map["BOOL" := GBool(flag)])
    case NULL => GMap(map["NULL" := GBool(true)])
    case L(list) => GMap(map["L" := GList(seq(|list|, i requires 0 <= i < |list| => ToCursor(list[i])))])
    case M(fields) => GMap(map["M" := GMap(map k | k in fields :: ToCursor(fields[k]))])
    case SS(strings) => GMap(map["SS" := GStrs(strings)])
    case NS(numbers) => GMap(map["NS" := GStrs(numbers)])
    case BS(binaries) => GMap(map["BS" := GStrs(EncodeBytes(binaries))])
  }

  /** Through JSON and back into map[string]any: string lists become generic lists. */
  function Wire(g: Go): Go {
    match g
    case GStr(_) => g
    case GBool(_) => g
    case GStrs(ss) => GList(seq(|ss|, i requires 0 <= i < |ss| => GStr(ss[i])))
    case GList(items) => GList(seq(|items|, i requires 0 <= i < |items| => Wire(items[i])))
    case GMap(fields) => GMap(map k | k in fields :: Wire(fields[k]))
  }

  function GoStrings(g: Go): Option<seq<string>> {
    if g.GList? && (forall i :: 0 <= i < |g.items| ==> g.items[i].GStr?)
    then Some(seq(|g.items|, i requires 0 <= i < |g.items| => g.items[i].s)) else None
  }

  lemma OnlyKey(o: map<string, Go>)
    requires |o| == 1
    ensures exists k :: k in o
    ensures forall k, k' :: k in o && k' in o ==> k == k'
  {
    var k :| k in o.Keys;
    assert |o.Keys - {k}| == 0;
  }

  /** jsonToAttributeValue: exactly one entry, whose key names the type. */
  function FromCursor(g: Go): Option<AV>
    decreases g, 1
  {
    if !g.GMap? || |g.fields| != 1 then None else
      OnlyKey(g.fields);
      var k :| k in g.fields;
      Typed(k, g.fields[k])
  }

  function Typed(k: string, v: Go): Option<AV>
    decreases v, 0
  {
    if k == "S" then (if v.GStr? then Some(S(v.s)) else None)
    else if k == "N" then (if v.GStr? then Some(N(v.s)) else None)
    else if k == "B" then (if v.GStr? && Decode(Std, v.s).Some? then Some(B(Decode(Std, v.s).value)) else None)
    else if k == "BOOL" then (if v.GBool? then Some(BOOL(v.b)) else None)
    else if k == "NULL" then Some(NULL)
    else if k == "L" then
      (if v.GList? && (forall i :: 0 <= i < |v.items| ==> FromCursor(v.items[i]).Some?)
       then Some(L(seq(|v.items|, i requires 0 <= i < |v.items| => FromCursor(v.items[i]).value))) else None)
    else if k == "M" then
      (if v.GMap? && (forall a :: a in v.fields ==> FromCursor(v.fields[a]).Some?)
       then Some(M(map a | a in v.fields :: FromCursor(v.fields[a]).value)) else None)
    else if k == "SS" then (if GoStrings(v).Some? then Some(SS(GoStrings(v).value)) else None)
    else if k == "NS" then (if GoStrings(v).Some? then Some(NS(GoStrings(v).value)) else None)
    else if k == "BS" then
      (if GoStrings(v).Some? && DecodeBytes(GoStrings(v).value).Some? then Some(BS(DecodeBytes(GoStrings(v).value).value)) else None)
    else None
  }

  lemma WiredStrings(ss: seq<string>)
    ensures GoStrings(Wire(GStrs(ss))) == Some(ss)
  {
    var g := Wire(GStrs(ss));
    assert seq(|g.items|, i requires 0 <= i < |g.items| => g.items[i].s) == ss;
  }

  /** A single tagged entry is read by its tag, after JSON as before. */
  lemma OneField(k: string, g: Go)
    ensures Wire(GMap(map[k := g])) == GMap(map[k := Wire(g)])
    ensures FromCursor(GMap(map[k := g])) == Typed(k, g)
  {
    assert Wire(GMap(map[k := g])).fields == map[k := Wire(g)];
    assert |map[k := g]| == 1;
    OnlyKey(map[k := g]);
  }

  lemma Tagged(k: string, g: Go)
    ensures FromCursor(Wire(GMap(map[k := g]))) == Typed(k, Wire(g))
  {
    OneField(k, g);
    OneField(k, Wire(g));
  }

  /** Cursors carry every key attribute faithfully: through JSON and back nothing is lost. */
  lemma {:induction false} CursorRoundTrip(av: AV)
    ensures FromCursor(Wire(ToCursor(av))) == Some(av)
    decreases av, 1
  {
    hide FromCursor;
    match av
    case S(s) => Tagged("S", GStr(s));
    case N(n) => Tagged("N", GStr(n));
    case B(b) => Tagged("B", GStr(Encode(Std, b))); RoundTrip(Std, b);
    case BOOL(flag) => Tagged("BOOL", GBool(flag));
    case NULL => Tagged("NULL", GBool(true));
    case L(_) => CursorList(av);
    case M(_) => CursorMap(av);
    case SS(strings) => Tagged("SS", GStrs(strings)); WiredStrings(strings);
    case NS(numbers) => Tagged("NS", GStrs(numbers)); WiredStrings(numbers);
    case BS(binaries) => Tagged("BS", GStrs(EncodeBytes(binaries))); WiredStrings(EncodeBytes(binaries)); BytesRoundTrip(binaries);
  }

  lemma {:induction false} CursorList(av: AV)
    requires av.L?
    ensures FromCursor(Wire(ToCursor(av))) == Some(av)
    decreases av, 0
  {
    var list := av.list;
    var inner := GList(seq(|list|, i requires 0 <= i < |list| => ToCursor(list[i])));
    Tagged("L", inner);
    var items := Wire(inner).items;
    forall i | 0 <= i < |list| ensures FromCursor(items[i]) == Some(list[i]) {
      CursorRoundTrip(list[i]);
    }
    hide FromCursor;
    assert seq(|items|, i requires 0 <= i < |items| => FromCursor(items[i]).value) == list;
  }

  lemma {:induction false} CursorMap(av: AV)
    requires av.M?
    ensures FromCursor(Wire(ToCursor(av))) == Some(av)
    decreases av, 0
  {
    var fields := av.fields;
    var inner := GMap(map k | k in fields :: ToCursor(fields[k]));
    Tagged("M", inner);
    var back := Wire(inner).fields;
    assert back.Keys == fields.Keys;
    forall k | k in fields ensures FromCursor(back[k]) == Some(fields[k]) {
      CursorRoundTrip(fields[k]);
    }
    hide FromCursor, Wire, ToCursor;
    ReadMap(back, fields);
  }

  lemma ReadMap(back: map<string, Go>, fields: map<string, AV>)
    requires back.Keys == fields.Keys && forall k :: k in fields ==> FromCursor(back[k]) == Some(fields[k])
    ensures Typed("M", GMap(back)) == Some(M(fields))
  {
    hide FromCursor;
    assert (map k | k in back :: FromCursor(back[k]).value) == fields;
  }

  /** A whole last-evaluated key: EncodeCursor, then DecodeCursor and ToAttributeValues. */
  function CursorKey(key: map<string, AV>): map<string, Go> {
    map a | a in key :: Wire(ToCursor(key[a]))
  }

  function KeyOfCursor(c: map<string, Go>): Option<map<string, AV>> {
    if forall a :: a in c ==> FromCursor(c[a]).Some? then Some(map a | a in c :: FromCursor(c[a]).value) else None
  }

  lemma {:induction false} CursorKeyRoundTrip(key: map<string, AV>)
    ensures KeyOfCursor(CursorKey(key)) == Some(key)
  {
    hide FromCursor, Wire, ToCursor;
    var c := CursorKey(key);
    assert c.Keys == key.Keys;
    forall a | a in key ensures FromCursor(c[a]) == Some(key[a]) {
      assert c[a] == Wire(ToCursor(key[a]));
      CursorRoundTrip(key[a]);
    }
    hide CursorKey;
    assert (map a | a in c :: FromCursor(c[a]).value) == key;
  }

  /** Different keys never share a cursor. */
  lemma CursorsInjective(key: map<string, AV>, other: map<string, AV>)
    requires CursorKey(key) == CursorKey(other)
    ensures key == other
  {
    CursorKeyRoundTrip(key);
    CursorKeyRoundTrip(other);
  }

  /** Before JSON the string sets are []string, which the decoder refuses: only a cursor
      that went through JSON can be read. */
  lemma UnwiredSetsAreRefused(strings: seq<string>)
    ensures FromCursor(ToCursor(SS(strings))) == None
  {
    OneField("SS", GStrs(strings));
  }
}
