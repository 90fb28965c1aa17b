/** The encryption pass over updates as they are really built: from the calls made on a
    builder, through the printed text and back, to what the update then says. */
module EncryptedUpdates {
  import opened Wrappers
  import opened AttributeValues
  import opened Expressions
  import opened Builder
  import opened UpdateText
  import opened UpdateEncryption

  // ----- a builder's update fragments as printed calls

  predicate IsChange(f: Frag) {
    f.Atom? &&
    match f.verb
    case JoinTo => |f.vals| == 2
    case RemoveAt(_) => f.vals == []
    case SetTo(_) => |f.vals| == 1
    case DefaultTo => |f.vals| == 1
    case AppendTo => |f.vals| == 1
    case PrependTo => |f.vals| == 1
    case AddTo => |f.vals| == 1
    case DeleteFrom => |f.vals| == 1
    case _ => false
  }

  function OpOf(f: Frag): Op
    requires IsChange(f)
  {
    match f.verb
    case SetTo(index) => Op.Set(f.path, index, f.vals[0])
    case DefaultTo => Op.IfMissing(f.path, f.vals[0])
    case AppendTo => Op.Append(f.path, f.vals[0])
    case PrependTo => Op.Prepend(f.path, f.vals[0])
    case JoinTo => Op.Concat(f.path, f.vals[0], f.vals[1])
    case AddTo => Op.Add(f.path, f.vals[0])
    case DeleteFrom => Op.Delete(f.path, f.vals[0])
    case RemoveAt(index) => Op.Remove(f.path, index)
  }

  predicate AllChanges(fs: seq<Frag>) {
    forall i :: 0 <= i < |fs| ==> IsChange(fs[i])
  }

  function OpsOf(fs: seq<Frag>): (ops: seq<Op>)
    requires AllChanges(fs)
    ensures |ops| == |fs| && forall i :: 0 <= i < |fs| ==> ops[i] == OpOf(fs[i])
  {
    seq(|fs|, i requires 0 <= i < |fs| => OpOf(fs[i]))
  }

  // ----- every run leaves printable fragments

  /** Reserved words are made of capital letters, digits and underscores. */
  predicate PlainWords(d: Dialect) {
    forall w :: w in d.reserved ==> forall i :: 0 <= i < |w| ==> 'A' <= w[i] <= 'Z' || '0' <= w[i] <= '9' || w[i] == '_'
  }

  predicate NamesOk(names: map<string, string>) {
    forall k :: k in names ==> NameOk(k)
  }

  predicate PathOk(path: seq<string>) {
    path != [] && forall i :: 0 <= i < |path| ==> NameOk(path[i])
  }

  predicate ValsOk(vals: seq<string>) {
    forall i :: 0 <= i < |vals| ==> ValueOk(vals[i])
  }

  predicate Shaped(f: Frag) {
    IsChange(f) && PathOk(f.path) && ValsOk(f.vals)
  }

  ghost predicate Printable(b: Draft) {
    && NamesOk(b.env.names) && (forall i :: 0 <= i < |b.updates| ==> Shaped(b.updates[i]))
    && forall slot, i :: 0 <= i < |b.At(slot)| ==> b.At(slot)[i].Atom?
  }

  lemma RefForOk(d: Dialect, part: string, n: nat)
    requires PlainWords(d)
    ensures NameOk(RefFor(d, part, n))
  {
    if Reserved(d, part) {
      var w := Upper(part);
      assert w in d.reserved;
      assert forall i :: 0 <= i < |w| ==> 'A' <= w[i] <= 'Z' || '0' <= w[i] <= '9' || w[i] == '_';
      assert WordRef(part) == "#" + w;
    } else {
      PlaceholdersQualify(n, "");
    }
  }

  lemma {:induction false} BindPartsOk(d: Dialect, names: map<string, string>, counter: nat, ps: seq<string>)
    requires PlainWords(d) && NamesOk(names)
    ensures var b := BindParts(d, names, counter, ps);
            NamesOk(b.names) && |b.refs| <= |ps| && (b.ok ==> |b.refs| == |ps|) && forall i :: 0 <= i < |b.refs| ==> NameOk(b.refs[i])
    decreases |ps|
  {
    if ps != [] && d.valid(ps[0]) {
      hide NameOk, PlainWords, RefFor;
      RefForOk(d, ps[0], counter + 1);
      BindPartsOk(d, names[RefFor(d, ps[0], counter + 1) := ps[0]], counter + 1, ps[1..]);
    }
  }

  lemma NameAddedOk(d: Dialect, e: Env, field: string, e': Env, path: seq<string>)
    requires NameAdded(d, e, field, e', path) && PlainWords(d) && NamesOk(e.names)
    ensures NamesOk(e'.names) && PathOk(path)
  {
    assert NameOk(INVALID);
    BindPartsOk(d, e.names, e.nameCounter, Split(field));
    hide NameOk, PlainWords, BindParts;
  }

  lemma RefsOk(counter: nat, n: nat)
    ensures ValsOk(ValueRefs(counter, n))
  {
    forall i | 0 <= i < n ensures ValueOk(ValueRefs(counter, n)[i]) { PlaceholdersQualify(counter + 1 + i, ""); }
  }

  lemma BoundOk(d: Dialect, e: Env, field: string, verb: Verb, vs: seq<AV>, e': Env, f: Frag)
    requires Bound2(d, e, field, verb, vs, e', f) && PlainWords(d) && NamesOk(e.names)
    ensures NamesOk(e'.names) && f.Atom? && PathOk(f.path) && ValsOk(f.vals) && f.verb == verb && |f.vals| == |vs|
  {
    var mid, path := BoundParts(d, e, field, verb, vs, e', f);
    hide NameAdded, PlainWords, NamesOk, PathOk, ValsOk;
    NameAddedOk(d, e, field, mid, path);
    RefsOk(mid.valueCounter, |vs|);
  }

  lemma ChangeShape(d: Dialect, q: Request, f: Frag)
    requires q.AddUpdate? && Asked(d, q).Some? && f.Atom? && f.verb == Asked(d, q).value.verb && |f.vals| == |Asked(d, q).value.args|
    ensures IsChange(f)
  {
  }

  lemma StepPrintable(d: Dialect, b: Draft, q: Request, m: Draft)
    requires Stepped(d, b, q, m) && PlainWords(d) && Printable(b)
    ensures Printable(m)
  {
    assert NamesOk(b.env.names);
    hide Stepped, Built, Printable, Asked, Shaped, NamesOk, PlainWords;
    var e, r := StepParts(d, b, q, m);
    BuiltOk(d, b.env, q, e, r);
    if r.Some? {
      PrintableMore(b, m, SlotOf(q), r.value);
    } else {
      PrintableSame(b, m);
    }
  }

  lemma PrintableSame(b: Draft, m: Draft)
    requires Printable(b) && NamesOk(m.env.names) && forall s :: m.At(s) == b.At(s)
    ensures Printable(m)
  {
    hide Shaped, NamesOk;
    assert m.At(Updates) == m.updates && b.At(Updates) == b.updates;
  }

  lemma BuiltOk(d: Dialect, e: Env, q: Request, e': Env, r: Option<Frag>)
    requires Built(d, e, q.field, Asked(d, q), e', r) && PlainWords(d) && NamesOk(e.names)
    ensures NamesOk(e'.names) && (r.Some? ==> r.value.Atom? && (SlotOf(q) == Updates ==> Shaped(r.value)))
  {
    AskedPath(d, q);
    if r.Some? {
      var w := Asked(d, q).value;
      BoundOk(d, e, q.field, w.verb, w.args, e', r.value);
      FragShaped(d, q, r.value);
    } else {
      ResidueOk(d, e, q.field, e');
    }
  }

  lemma FragShaped(d: Dialect, q: Request, f: Frag)
    requires Asked(d, q).Some? && Asked(d, q).value.Says? && f.Atom? && PathOk(f.path) && ValsOk(f.vals)
    requires f.verb == Asked(d, q).value.verb && |f.vals| == |Asked(d, q).value.args|
    ensures SlotOf(q) == Updates ==> Shaped(f)
  {
    if SlotOf(q) == Updates {
      assert q.AddUpdate?;
      hide PathOk, ValsOk;
      ChangeShape(d, q, f);
    }
  }

  lemma PrintableMore(b: Draft, m: Draft, slot: Slot, f: Frag)
    requires Printable(b) && NamesOk(m.env.names) && f.Atom? && (slot == Updates ==> Shaped(f))
    requires forall s :: m.At(s) == if s == slot then b.At(s) + [f] else b.At(s)
    ensures Printable(m)
  {
    hide Shaped, NamesOk;
    assert m.At(Updates) == m.updates && b.At(Updates) == b.updates;
    forall s, i | 0 <= i < |m.At(s)| ensures m.At(s)[i].Atom? {
      assert m.At(s)[i] == if i < |b.At(s)| then b.At(s)[i] else f;
    }
  }

  lemma ResidueOk(d: Dialect, e: Env, field: string, e': Env)
    requires Residue(d, e, field, e') && PlainWords(d) && NamesOk(e.names)
    ensures NamesOk(e'.names)
  {
    if e' != e {
      var verb, vs, f :| Bound2(d, e, field, verb, vs, e', f);
      BoundOk(d, e, field, verb, vs, e', f);
    }
  }

  lemma {:induction false} RunPrintable(d: Dialect, b: Draft, qs: seq<Request>, b': Draft)
    requires Run(d, b, qs, b') && PlainWords(d) && Printable(b)
    ensures Printable(b')
    decreases |qs|
  {
    if qs != [] {
      hide Stepped, PlainWords, Printable;
      var m := RunFirst(d, b, qs, b');
      StepPrintable(d, b, qs[0], m);
      RunPrintable(d, m, qs[1..], b');
    }
  }

  // ----- no operand is shared

  lemma {:induction false} RefsHave(fs: seq<Frag>, i: nat)
    requires i < |fs| && fs[i].Atom?
    ensures multiset(fs[i].vals) <= Refs(fs)
    decreases i
  {
    if i > 0 {
      RefsHave(fs[1..], i - 1);
    }
  }

  lemma {:induction false} RefsApart(fs: seq<Frag>, i: nat, j: nat, k: string)
    requires i < j < |fs| && fs[i].Atom? && fs[j].Atom? && k in fs[i].vals && k in fs[j].vals
    ensures Refs(fs)[k] >= 2
    decreases i
  {
    if i > 0 {
      RefsApart(fs[1..], i - 1, j - 1, k);
    } else {
      RefsHave(fs[1..], j - 1);
      assert k in multiset(fs[j].vals) && k in multiset(fs[0].vals);
    }
  }

  /** No placeholder stands in two places. */
  lemma UpdateRefsDistinct(b: Draft, i: nat, j: nat, k: string)
    requires Unshared(b) && i < |b.updates| && j < |b.updates| && b.updates[i].Atom? && b.updates[j].Atom?
    requires k in b.updates[i].vals && k in b.updates[j].vals
    ensures i == j
  {
    RefsHave(b.updates, i);
    assert k in multiset(b.updates[i].vals);
    assert k in AllRefs(b) && AllRefs(b)[k] == 1;
    if i < j { RefsApart(b.updates, i, j, k); }
    if j < i { RefsApart(b.updates, j, i, k); }
  }

  lemma SlotRefsDistinct(b: Draft, slot: Slot, i: nat, j: nat, k: string)
    requires Unshared(b) && slot != Updates && i < |b.At(slot)| && b.At(slot)[i].Atom? && k in b.At(slot)[i].vals
    requires j < |b.updates| && b.updates[j].Atom?
    ensures k !in b.updates[j].vals
  {
    RefsHave(b.At(slot), i);
    RefsHave(b.updates, j);
    assert k in multiset(b.At(slot)[i].vals);
    TwoSlots(b, slot, k);
    assert k in AllRefs(b);
    assert multiset(b.updates[j].vals)[k] == 0;
  }

  lemma TwoSlots(b: Draft, slot: Slot, k: string)
    requires slot != Updates
    ensures AllRefs(b)[k] >= Refs(b.At(slot))[k] + Refs(b.updates)[k]
  {
    hide Refs;
  }

  // ----- what the pass should do, read off the meanings

  predicate Touched(encrypted: set<string>, m: Meaning)
    requires m.Says? && m.path != []
  {
    m.path[0] != "" && m.path[0] in encrypted
  }

  /** A whole attribute given a value, at once or by default. */
  predicate Assigns(m: Meaning)
    requires m.Says?
  {
    |m.path| == 1 && (m.verb == SetTo(None) || m.verb == DefaultTo) && |m.args| == 1
  }

  /** Everything goes on an attribute that is not encrypted.  An encrypted one may be assigned
      whole, if its new value encrypts; it may be removed, and, which is the gap, added to or
      deleted from on the inside. */
  predicate Encryptable(enc: Cipher, encrypted: set<string>, m: Meaning)
    requires m.Says? && m.path != []
  {
    Touched(encrypted, m) ==>
      match m.verb
      case RemoveAt(_) => true
      case AddTo => |m.path| > 1
      case DeleteFrom => |m.path| > 1
      case _ => Assigns(m) && enc(m.path[0], m.args[0]).Some?
  }

  function Sealed(enc: Cipher, encrypted: set<string>, m: Meaning): Meaning
    requires m.Says? && m.path != [] && Encryptable(enc, encrypted, m)
  {
    if Touched(encrypted, m) && Assigns(m) then Says(m.path, m.verb, [enc(m.path[0], m.args[0]).value]) else m
  }

  predicate Proper(ms: seq<Meaning>) {
    forall i :: 0 <= i < |ms| ==> ms[i].Says? && ms[i].path != []
  }

  function SealedAll(enc: Cipher, encrypted: set<string>, ms: seq<Meaning>): (r: seq<Meaning>)
    requires Proper(ms) && forall i :: 0 <= i < |ms| ==> Encryptable(enc, encrypted, ms[i])
    ensures |r| == |ms| && forall i :: 0 <= i < |ms| ==> r[i] == Sealed(enc, encrypted, ms[i])
  {
    seq(|ms|, i requires 0 <= i < |ms| => Sealed(enc, encrypted, ms[i]))
  }

  /** A fragment and what it says. */
  ghost predicate Reads(e: Env, f: Frag, m: Meaning) {
    && Shaped(f) && Bound(e, f.path, f.vals) && m.Says? && m.verb == f.verb && |m.path| == |f.path| && |m.args| == |f.vals|
    && (forall i :: 0 <= i < |f.path| ==> m.path[i] == e.names[f.path[i]]) && (forall i :: 0 <= i < |f.vals| ==> m.args[i] == e.values[f.vals[i]])
  }

  lemma DecodeReads(e: Env, f: Frag)
    requires Shaped(f) && Decode(e, f).Some?
    ensures Reads(e, f, Decode(e, f).value)
  {
    hide Shaped;
    assert f.Atom? by { ShapedAtom(f); }
  }

  lemma ShapedAtom(f: Frag)
    requires Shaped(f)
    ensures f.Atom? && IsChange(f) && f.path != []
  {
  }

  lemma ReadsDecode(e: Env, f: Frag, m: Meaning)
    requires Reads(e, f, m)
    ensures Decode(e, f) == Some(m)
  {
    ShapedAtom(f);
    var d := Decode(e, f).value;
    assert d.path == m.path && d.args == m.args;
  }

  lemma OpWell(f: Frag)
    requires Shaped(f)
    ensures Well(OpOf(f)) && OpOf(f).path == f.path
  {
    hide NameOk, ValueOk;
  }

  /** The call's own view of what it touches is the meaning's. */
  lemma OpTouches(e: Env, f: Frag, m: Meaning, encrypted: set<string>)
    requires Reads(e, f, m)
    ensures f.path != [] && Touches(encrypted, e.names, OpOf(f)) == Touched(encrypted, m) && Attr(e.names, OpOf(f)) == m.path[0]
  {
    OpWell(f);
    hide Shaped, Well;
    assert f.path[0] in e.names;
  }

  lemma OpFine(enc: Cipher, e: Env, f: Frag, m: Meaning, encrypted: set<string>)
    requires Reads(e, f, m)
    ensures OpOf(f).path != [] && m.path != [] && Judged(enc, encrypted, e, OpOf(f), m)
  {
    OpTouches(e, f, m, encrypted);
    ShapedAtom(f);
    ActionOf(f);
    hide Touches, Attr, Touched, Shaped, Action;
  }

  /** The action of a call, as the verb tells it. */
  lemma ActionOf(f: Frag)
    requires IsChange(f)
    ensures var a := Action(OpOf(f));
            && (a == "ADD" <==> f.verb.AddTo?) && (a == "DELETE" <==> f.verb.DeleteFrom?) && (a == "REMOVE" <==> f.verb.RemoveAt?)
            && (a == "SET" <==> f.verb.SetTo? || f.verb.DefaultTo? || f.verb.AppendTo? || f.verb.PrependTo? || f.verb.JoinTo?)
  {
    assert "SET"[0] == 'S' && "ADD"[0] == 'A' && "DELETE"[0] == 'D' && "REMOVE"[0] == 'R';
  }

  // ----- the pass on a draft

  /** What every run on a new builder leaves: printable, unshared, and readable. */
  ghost predicate Sound(b: Draft) {
    Printable(b) && Unshared(b) && forall slot :: Said(b, slot).Some?
  }

  ghost predicate ReadsAll(b: Draft, ms: seq<Meaning>) {
    |ms| == |b.updates| && forall i :: 0 <= i < |ms| ==> Reads(b.env, b.updates[i], ms[i])
  }

  lemma {:induction false} DecodeAllBy(e: Env, fs: seq<Frag>, ms: seq<Meaning>)
    requires |fs| == |ms| && forall i :: 0 <= i < |fs| ==> Decode(e, fs[i]) == Some(ms[i])
    ensures DecodeAll(e, fs) == Some(ms)
    decreases |fs|
  {
    if fs != [] {
      assert forall i :: 0 <= i < |fs[1..]| ==> fs[1..][i] == fs[i + 1] && ms[1..][i] == ms[i + 1];
      DecodeAllBy(e, fs[1..], ms[1..]);
      assert ms == [ms[0]] + ms[1..];
    }
  }

  lemma SoundReads(b: Draft)
    requires Sound(b)
    ensures ReadsAll(b, Said(b, Updates).value) && Proper(Said(b, Updates).value)
  {
    var ms := Said(b, Updates).value;
    forall i | 0 <= i < |ms| ensures Reads(b.env, b.updates[i], ms[i]) && ms[i].Says? && ms[i].path != [] {
      DecodeEach(b.env, b.updates, i);
      DecodeReads(b.env, b.updates[i]);
      ShapedAtom(b.updates[i]);
    }
  }

  lemma SoundOps(b: Draft)
    requires Sound(b)
    ensures AllChanges(b.updates) && AllWell(OpsOf(b.updates)) && forall k :: k in b.env.names ==> '.' !in k
  {
    forall i | 0 <= i < |b.updates| ensures IsChange(b.updates[i]) && Well(OpOf(b.updates[i])) {
      assert Shaped(b.updates[i]);
      OpWell(b.updates[i]);
    }
  }

  lemma OpValsBound(b: Draft, ms: seq<Meaning>)
    requires ReadsAll(b, ms) && AllChanges(b.updates)
    ensures forall i :: 0 <= i < |b.updates| && !OpOf(b.updates[i]).Remove? ==> OpOf(b.updates[i]).v == b.updates[i].vals[0] && OpOf(b.updates[i]).v in b.env.values
  {
    forall i | 0 <= i < |b.updates| && !OpOf(b.updates[i]).Remove?
      ensures OpOf(b.updates[i]).v == b.updates[i].vals[0] && OpOf(b.updates[i]).v in b.env.values
    {
      assert Reads(b.env, b.updates[i], ms[i]) && IsChange(b.updates[i]);
    }
  }

  lemma {:induction false} OpsForDistinct(ops: seq<Op>, action: string)
    requires Distinct(ops)
    ensures Distinct(OpsFor(ops, action))
    decreases |ops|
  {
    if ops != [] {
      hide Action;
      var rest := ops[1..];
      assert forall i :: 0 <= i < |rest| ==> rest[i] == ops[i + 1];
      OpsForDistinct(rest, action);
      OpsForMembers(rest, action);
      var os := OpsFor(rest, action);
      assert OpsFor(ops, action) == (if Action(ops[0]) == action then [ops[0]] else []) + os;
      hide OpsFor;
      forall j | 0 <= j < |os| && !ops[0].Remove? && !os[j].Remove? ensures ops[0].v != os[j].v {
        assert os[j] in rest;
        var i :| 0 <= i < |rest| && rest[i] == os[j];
        assert ops[i + 1] == os[j];
      }
      DistinctCons(ops[0], os);
      assert [] + os == os;
    }
  }

  ghost predicate Distinct(os: seq<Op>) {
    forall i, j :: 0 <= i < j < |os| && !os[i].Remove? && !os[j].Remove? ==> os[i].v != os[j].v
  }

  lemma DistinctCons(op: Op, os: seq<Op>)
    requires Distinct(os) && forall j :: 0 <= j < |os| && !op.Remove? && !os[j].Remove? ==> op.v != os[j].v
    ensures Distinct([op] + os)
  {
  }

  lemma SoundSetCalls(b: Draft, ms: seq<Meaning>)
    requires Sound(b) && ReadsAll(b, ms) && AllChanges(b.updates)
    ensures SetCalls(OpsFor(OpsOf(b.updates), "SET"))
  {
    var ops := OpsOf(b.updates);
    OpValsBound(b, ms);
    forall i, j | 0 <= i < j < |ops| && !ops[i].Remove? && !ops[j].Remove? ensures ops[i].v != ops[j].v {
      if ops[i].v == ops[j].v {
        assert ops[i].v in b.updates[i].vals && ops[i].v in b.updates[j].vals;
        UpdateRefsDistinct(b, i, j, ops[i].v);
      }
    }
    OpsForDistinct(ops, "SET");
    SoundOps(b);
    OpsForWell(ops, "SET");
    var os := OpsFor(ops, "SET");
    forall i | 0 <= i < |os| ensures os[i].path != [] && !os[i].Remove? && Action(os[i]) == "SET" {
      assert Well(os[i]);
      NotRemove(os[i]);
    }
  }

  lemma NotRemove(op: Op)
    requires Action(op) == "SET"
    ensures !op.Remove?
  {
    assert "SET"[0] == 'S' && "REMOVE"[0] == 'R';
  }

  /** The pass succeeds exactly when every update can be encrypted. */
  lemma DoneIffEncryptable(enc: Cipher, encrypted: set<string>, b: Draft, ms: seq<Meaning>)
    requires Sound(b) && ReadsAll(b, ms) && Proper(ms) && AllChanges(b.updates) && SetCalls(OpsFor(OpsOf(b.updates), "SET"))
    ensures var ops := OpsOf(b.updates);
            Passes(enc, encrypted, b.env, ops, OpsFor(ops, "SET")) <==> forall i :: 0 <= i < |ms| ==> Encryptable(enc, encrypted, ms[i])
  {
    var ops := OpsOf(b.updates);
    OpsForMembers(ops, "SET");
    forall i | 0 <= i < |ms| ensures ops[i].path != [] && Judged(enc, encrypted, b.env, ops[i], ms[i]) {
      OpFine(enc, b.env, b.updates[i], ms[i], encrypted);
    }
    hide Sound, OpsFor, SetCalls, ReadsAll, Encryptable;
    if forall i :: 0 <= i < |ms| ==> Encryptable(enc, encrypted, ms[i]) {
      AllPass(enc, encrypted, b.env, ops, OpsFor(ops, "SET"), ms);
    }
    if Passes(enc, encrypted, b.env, ops, OpsFor(ops, "SET")) {
      PassingIsEncryptable(enc, encrypted, b.env, ops, OpsFor(ops, "SET"), ms);
    }
  }

  /** How the pass judges a call, and what its meaning says about it. */
  ghost predicate Judged(enc: Cipher, encrypted: set<string>, e: Env, op: Op, m: Meaning)
    requires op.path != [] && m.Says? && m.path != []
  {
    && (Action(op) == "SET" ==> (Fine(enc, encrypted, e.names, op, e.values) <==> Encryptable(enc, encrypted, m)))
    && (Action(op) == "ADD" || Action(op) == "DELETE" ==> (Barred(encrypted, e.names, op) <==> !Encryptable(enc, encrypted, m)))
    && (Encryptable(enc, encrypted, m) || Action(op) == "SET" || Action(op) == "ADD" || Action(op) == "DELETE")
  }

  ghost predicate Passes(enc: Cipher, encrypted: set<string>, e: Env, ops: seq<Op>, os: seq<Op>)
    requires forall i :: 0 <= i < |os| ==> os[i].path != [] && Action(os[i]) == "SET"
  {
    && !AnyBarred(encrypted, e.names, ops, "ADD") && !AnyBarred(encrypted, e.names, ops, "DELETE")
    && (forall i :: 0 <= i < |os| ==> Fine(enc, encrypted, e.names, os[i], e.values))
  }

  lemma AllPass(enc: Cipher, encrypted: set<string>, e: Env, ops: seq<Op>, os: seq<Op>, ms: seq<Meaning>)
    requires |ops| == |ms| && Proper(ms) && forall i :: 0 <= i < |ms| ==> ops[i].path != [] && Judged(enc, encrypted, e, ops[i], ms[i])
    requires forall i :: 0 <= i < |os| ==> os[i].path != [] && Action(os[i]) == "SET" && os[i] in ops
    requires forall i :: 0 <= i < |ms| ==> Encryptable(enc, encrypted, ms[i])
    ensures Passes(enc, encrypted, e, ops, os)
  {
    hide Fine, Barred, Action, Encryptable;
    forall i | 0 <= i < |os| ensures Fine(enc, encrypted, e.names, os[i], e.values) {
      assert os[i] in ops;
      var j :| 0 <= j < |ops| && ops[j] == os[i];
      assert Judged(enc, encrypted, e, ops[j], ms[j]);
    }
  }

  lemma PassingIsEncryptable(enc: Cipher, encrypted: set<string>, e: Env, ops: seq<Op>, os: seq<Op>, ms: seq<Meaning>)
    requires |ops| == |ms| && Proper(ms) && forall i :: 0 <= i < |ms| ==> ops[i].path != [] && Judged(enc, encrypted, e, ops[i], ms[i])
    requires forall i :: 0 <= i < |os| ==> os[i].path != [] && Action(os[i]) == "SET"
    requires (forall op :: op in ops && Action(op) == "SET" ==> op in os) && Passes(enc, encrypted, e, ops, os)
    ensures forall i :: 0 <= i < |ms| ==> Encryptable(enc, encrypted, ms[i])
  {
    hide Fine, Barred, Action, Encryptable;
    forall i | 0 <= i < |ms| ensures Encryptable(enc, encrypted, ms[i]) {
      assert Judged(enc, encrypted, e, ops[i], ms[i]);
      if Action(ops[i]) == "SET" {
        assert ops[i] in os;
        var j :| 0 <= j < |os| && os[j] == ops[i];
      }
    }
  }

  lemma ReadsWith(e: Env, values': map<string, AV>, f: Frag, m: Meaning, m': Meaning)
    requires Reads(e, f, m) && m'.Says? && m'.path == m.path && m'.verb == m.verb && |m'.args| == |f.vals| && values'.Keys == e.values.Keys
    requires forall i :: 0 <= i < |f.vals| && f.vals[i] in values' ==> values'[f.vals[i]] == m'.args[i]
    ensures Reads(e.(values := values'), f, m')
  {
    hide Shaped;
  }

  /** The values of encrypted attributes are replaced under their placeholders. */
  lemma SealedReads(enc: Cipher, encrypted: set<string>, b: Draft, ms: seq<Meaning>, values': map<string, AV>, i: nat)
    requires Sound(b) && ReadsAll(b, ms) && Proper(ms) && AllChanges(b.updates) && SetCalls(OpsFor(OpsOf(b.updates), "SET"))
    requires Replaced(enc, encrypted, b.env.names, OpsFor(OpsOf(b.updates), "SET"), b.env.values, values')
    requires i < |ms| && Encryptable(enc, encrypted, ms[i])
    ensures Reads(b.env.(values := values'), b.updates[i], Sealed(enc, encrypted, ms[i]))
  {
    var f, m := b.updates[i], ms[i];
    assert Reads(b.env, f, m) && values'.Keys == b.env.values.Keys;
    hide Sound, OpsFor, Shaped, SetCalls, Replaced, Encryptable, Touched;
    if Touched(encrypted, m) && Assigns(m) {
      AssignedIsSealed(enc, encrypted, b, ms, values', i);
    } else {
      forall k | k in f.vals && k in b.env.values ensures values'[k] == b.env.values[k] {
        RestIsKept(enc, encrypted, b, ms, values', i, k);
      }
    }
    hide ReadsAll, AllChanges, Assigns;
    ReadsWith(b.env, values', f, m, Sealed(enc, encrypted, m));
  }

  lemma AssignedIsSealed(enc: Cipher, encrypted: set<string>, b: Draft, ms: seq<Meaning>, values': map<string, AV>, i: nat)
    requires ReadsAll(b, ms) && Proper(ms) && AllChanges(b.updates) && SetCalls(OpsFor(OpsOf(b.updates), "SET"))
    requires Replaced(enc, encrypted, b.env.names, OpsFor(OpsOf(b.updates), "SET"), b.env.values, values')
    requires i < |ms| && Touched(encrypted, ms[i]) && Assigns(ms[i])
    ensures var v := b.updates[i].vals[0]; |b.updates[i].vals| == 1 && v in values' && enc(ms[i].path[0], ms[i].args[0]) == Some(values'[v])
  {
    var ops, f, m := OpsOf(b.updates), b.updates[i], ms[i];
    var os := OpsFor(ops, "SET");
    assert Reads(b.env, f, m);
    ShapedAtom(f);
    OpTouches(b.env, f, m, encrypted);
    ActionOf(f);
    OpsForMembers(ops, "SET");
    hide ReadsAll, OpsFor, Shaped, Touches, Touched, Action, Attr;
    assert ops[i] in os;
    var j :| 0 <= j < |os| && os[j] == ops[i];
    assert f.vals == [os[j].v];
  }

  lemma RestIsKept(enc: Cipher, encrypted: set<string>, b: Draft, ms: seq<Meaning>, values': map<string, AV>, i: nat, k: string)
    requires Sound(b) && ReadsAll(b, ms) && Proper(ms) && AllChanges(b.updates) && SetCalls(OpsFor(OpsOf(b.updates), "SET"))
    requires Replaced(enc, encrypted, b.env.names, OpsFor(OpsOf(b.updates), "SET"), b.env.values, values')
    requires i < |ms| && Encryptable(enc, encrypted, ms[i]) && !(Touched(encrypted, ms[i]) && Assigns(ms[i])) && k in b.updates[i].vals && k in b.env.values
    ensures k in values' && values'[k] == b.env.values[k]
  {
    var ops := OpsOf(b.updates);
    var os := OpsFor(ops, "SET");
    OpsForMembers(ops, "SET");
    hide Sound, ReadsAll, OpsFor, Touches, Touched, Action, Encryptable, Assigns;
    forall j | 0 <= j < |os| && Touches(encrypted, b.env.names, os[j]) ensures os[j].v != k {
      UntouchedRef(enc, encrypted, b, ms, i, os[j], k);
    }
  }

  lemma UntouchedRef(enc: Cipher, encrypted: set<string>, b: Draft, ms: seq<Meaning>, i: nat, op: Op, k: string)
    requires Sound(b) && ReadsAll(b, ms) && Proper(ms) && AllChanges(b.updates) && i < |ms| && k in b.updates[i].vals
    requires op in OpsOf(b.updates) && Action(op) == "SET" && op.path != [] && Touches(encrypted, b.env.names, op) && !op.Remove?
    requires Encryptable(enc, encrypted, ms[i]) && !(Touched(encrypted, ms[i]) && Assigns(ms[i]))
    ensures op.v != k
  {
    var ops := OpsOf(b.updates);
    var j :| 0 <= j < |ops| && ops[j] == op;
    OpValsBound(b, ms);
    assert Reads(b.env, b.updates[i], ms[i]) && Reads(b.env, b.updates[j], ms[j]);
    ShapedAtom(b.updates[i]);
    ShapedAtom(b.updates[j]);
    if op.v == k {
      UpdateRefsDistinct(b, i, j, k);
      OpTouches(b.env, b.updates[i], ms[i], encrypted);
      ActionOf(b.updates[i]);
    }
  }

  lemma OtherSlotsKept(enc: Cipher, encrypted: set<string>, b: Draft, ms: seq<Meaning>, values': map<string, AV>, slot: Slot)
    requires Sound(b) && ReadsAll(b, ms) && AllChanges(b.updates) && SetCalls(OpsFor(OpsOf(b.updates), "SET")) && slot != Updates
    requires Replaced(enc, encrypted, b.env.names, OpsFor(OpsOf(b.updates), "SET"), b.env.values, values')
    ensures DecodeAll(b.env.(values := values'), b.At(slot)) == Said(b, slot)
  {
    hide OpsFor, Shaped, SetCalls, Touches, Action, Decode, Unshared, ReadsAll;
    var e' := b.env.(values := values');
    var fs, said := b.At(slot), Said(b, slot).value;
    assert Printable(b) && DecodeAll(b.env, fs) == Some(said);
    hide DecodeAll;
    forall i | 0 <= i < |fs| ensures Decode(e', fs[i]) == Some(said[i]) {
      DecodeEach(b.env, fs, i);
      assert fs[i].Atom?;
      forall k | k in fs[i].vals && k in b.env.values ensures values'[k] == b.env.values[k] {
        OtherRefKept(enc, encrypted, b, ms, values', slot, i, k);
      }
      SameDecode(b.env, e', fs[i]);
    }
    DecodeAllBy(e', fs, said);
  }

  lemma OtherRefKept(enc: Cipher, encrypted: set<string>, b: Draft, ms: seq<Meaning>, values': map<string, AV>, slot: Slot, i: nat, k: string)
    requires Sound(b) && ReadsAll(b, ms) && AllChanges(b.updates) && SetCalls(OpsFor(OpsOf(b.updates), "SET")) && slot != Updates
    requires Replaced(enc, encrypted, b.env.names, OpsFor(OpsOf(b.updates), "SET"), b.env.values, values')
    requires i < |b.At(slot)| && b.At(slot)[i].Atom? && k in b.At(slot)[i].vals && k in b.env.values
    ensures k in values' && values'[k] == b.env.values[k]
  {
    var ops := OpsOf(b.updates);
    var os := OpsFor(ops, "SET");
    OpsForMembers(ops, "SET");
    OpValsBound(b, ms);
    hide OpsFor, Shaped, Touches, Action, Unshared, ReadsAll;
    forall j | 0 <= j < |os| && Touches(encrypted, b.env.names, os[j]) ensures os[j].v != k {
      assert os[j] in ops;
      var n :| 0 <= n < |ops| && ops[n] == os[j];
      assert Shaped(b.updates[n]);
      ShapedAtom(b.updates[n]);
      SlotRefsDistinct(b, slot, i, n, k);
    }
  }

  lemma SameDecode(e: Env, e': Env, f: Frag)
    requires f.Atom? && Decode(e, f).Some? && e'.names == e.names && e'.values.Keys == e.values.Keys
    requires forall k :: k in f.vals && k in e.values ==> e'.values[k] == e.values[k]
    ensures Decode(e', f) == Decode(e, f)
  {
    assert Decode(e', f).value.path == Decode(e, f).value.path;
    assert Decode(e', f).value.args == Decode(e, f).value.args;
  }

  /** The state after the pass put the new values in. */
  function WithNewValues(b: Draft, values': map<string, AV>): Draft {
    b.(env := b.env.(values := values'))
  }

  lemma PassOnDraft(enc: Cipher, encrypted: set<string>, b: Draft, order: seq<string>)
    requires Sound(b) && AllChanges(b.updates) && Proper(Said(b, Updates).value) && Order(SheetOf(OpsOf(b.updates)), order)
    ensures var r := EncryptUpdate(enc, encrypted, UpdateEncryption.Text(OpsOf(b.updates), order), b.env.names, b.env.values);
            var ms := Said(b, Updates).value;
            && (r.Done? <==> forall i :: 0 <= i < |ms| ==> Encryptable(enc, encrypted, ms[i]))
            && (r.Done? ==>
                  && Said(WithNewValues(b, r.values), Updates) == Some(SealedAll(enc, encrypted, ms))
                  && forall slot :: slot != Updates ==> Said(WithNewValues(b, r.values), slot) == Said(b, slot))
  {
    var ops, ms := OpsOf(b.updates), Said(b, Updates).value;
    var os := OpsFor(ops, "SET");
    SoundReads(b);
    SoundOps(b);
    SoundSetCalls(b, ms);
    OpValsBound(b, ms);
    DoneIffEncryptable(enc, encrypted, b, ms);
    hide Sound, OpsFor, Reads, Order, EncryptUpdate, UpdateEncryption.Text, AllWell;
    PassMeansCalls(enc, encrypted, b.env.names, ops, order, b.env.values);
    ExactlyTheEncrypted(enc, encrypted, b.env.names, os, b.env.values);
    var r := EncryptUpdate(enc, encrypted, UpdateEncryption.Text(ops, order), b.env.names, b.env.values);
    hide SetCalls, Fine, AnyBarred, Effects, Encryptable;
    if r.Done? {
      SealedDraft(enc, encrypted, b, ms, r.values);
    }
  }

  lemma SealedDraft(enc: Cipher, encrypted: set<string>, b: Draft, ms: seq<Meaning>, values': map<string, AV>)
    requires Sound(b) && ReadsAll(b, ms) && Proper(ms) && AllChanges(b.updates) && SetCalls(OpsFor(OpsOf(b.updates), "SET"))
    requires Replaced(enc, encrypted, b.env.names, OpsFor(OpsOf(b.updates), "SET"), b.env.values, values')
    requires forall i :: 0 <= i < |ms| ==> Encryptable(enc, encrypted, ms[i])
    ensures Said(WithNewValues(b, values'), Updates) == Some(SealedAll(enc, encrypted, ms))
    ensures forall slot :: slot != Updates ==> Said(WithNewValues(b, values'), slot) == Said(b, slot)
  {
    var e' := b.env.(values := values');
    hide Sound, OpsFor, Reads, Replaced, SetCalls, Encryptable, Sealed;
    forall i | 0 <= i < |ms| ensures Decode(e', b.updates[i]) == Some(Sealed(enc, encrypted, ms[i])) {
      SealedReads(enc, encrypted, b, ms, values', i);
      ReadsDecode(e', b.updates[i], Sealed(enc, encrypted, ms[i]));
    }
    DecodeAllBy(e', b.updates, SealedAll(enc, encrypted, ms));
    forall slot | slot != Updates ensures Said(WithNewValues(b, values'), slot) == Said(b, slot) {
      OtherSlotsKept(enc, encrypted, b, ms, values', slot);
    }
  }

  // ----- the theorem

  lemma RunIsSound(d: Dialect, qs: seq<Request>, b: Draft, parts: set<string>)
    requires Run(d, Empty(), qs, b) && Uses(d, qs, parts) && NoVariants(d, parts) && PlainWords(d)
    ensures Sound(b) && AllChanges(b.updates) && forall slot :: Said(b, slot) == Some(AllAsked(d, qs, slot))
  {
    NothingYet();
    hide Run, Uses, NoVariants, PlainWords, Unshared, AllAsked, Printable, Empty;
    RunPrintable(d, Empty(), qs, b);
    OperandsUnshared(d, Empty(), qs, b);
    forall slot ensures Said(b, slot) == Some(AllAsked(d, qs, slot)) {
      EmptySays(parts, slot);
      RunSays(d, Empty(), qs, b, parts, slot);
      Reassociate(AllAsked(d, qs, slot), [], []);
    }
    SoundOps(b);
  }

  lemma NothingYet()
    ensures Printable(Empty()) && Unshared(Empty())
  {
  }

  lemma AskedProper(d: Dialect, qs: seq<Request>, b: Draft)
    requires Sound(b) && Said(b, Updates) == Some(AllAsked(d, qs, Updates))
    ensures Proper(AllAsked(d, qs, Updates))
  {
    SoundReads(b);
  }

  /** The encryption pass does its work on every update that can be built.  For any run of
      calls on a new builder, whatever order Build prints the sections in: the pass over the
      printed text fails if and only if some update asked for cannot be encrypted; otherwise,
      with the values it leaves, the update says exactly what was asked with the values
      assigned to encrypted attributes encrypted, and every condition, key, filter and
      projection still says exactly what was asked. */
  lemma EncryptedUpdateSays(d: Dialect, qs: seq<Request>, b: Draft, parts: set<string>, enc: Cipher, encrypted: set<string>, order: seq<string>)
    requires Run(d, Empty(), qs, b) && Uses(d, qs, parts) && NoVariants(d, parts) && PlainWords(d)
    requires AllChanges(b.updates) ==> Order(SheetOf(OpsOf(b.updates)), order)
    ensures AllChanges(b.updates) && Proper(AllAsked(d, qs, Updates))
    ensures var r := EncryptUpdate(enc, encrypted, UpdateEncryption.Text(OpsOf(b.updates), order), b.env.names, b.env.values);
            var ms := AllAsked(d, qs, Updates);
            && (r.Done? <==> forall i :: 0 <= i < |ms| ==> Encryptable(enc, encrypted, ms[i]))
            && (r.Done? ==>
                  && Said(WithNewValues(b, r.values), Updates) == Some(SealedAll(enc, encrypted, ms))
                  && forall slot :: slot != Updates ==> Said(WithNewValues(b, r.values), slot) == Some(AllAsked(d, qs, slot)))
  {
    RunIsSound(d, qs, b, parts);
    AskedProper(d, qs, b);
    hide Run, Uses, NoVariants, PlainWords, Sound, AllAsked, EncryptUpdate, Order, Encryptable;
    PassOnDraft(enc, encrypted, b, order);
  }

  /** The path `secret.hits`. */
  function Inside(): string { "secret" + ("." + "hits") }

  function Hits(verb: Verb, v: AV): Meaning {
    Says(["secret", "hits"], verb, [v])
  }

  /** A gap the text cannot show: Add("secret.hits", v), built on a new builder, printed in any
      order and read again, passes with its operand in the clear although `secret` is
      encrypted. */
  lemma NestedAddSlipsThrough(d: Dialect, v: AV, enc: Cipher, b: Draft, order: seq<string>)
    requires d.reserved == {} && d.valid(Inside()) && d.valid("secret") && d.valid("hits")
    requires Run(d, Empty(), [AddRequest(d, Inside(), Some(v))], b)
    requires AllChanges(b.updates) ==> Order(SheetOf(OpsOf(b.updates)), order)
    ensures AllChanges(b.updates)
    ensures var r := EncryptUpdate(enc, {"secret"}, UpdateEncryption.Text(OpsOf(b.updates), order), b.env.names, b.env.values);
            r.Done? && Said(WithNewValues(b, r.values), Updates) == Some([Hits(AddTo, v)])
  {
    hide *;
    InsideAsked(d, v);
    HitsJudged(enc, v);
    OneUpdate(d, AddRequest(d, Inside(), Some(v)), b, enc, {"secret"}, order, Hits(AddTo, v));
  }

  /** Set on the same path is refused. */
  lemma NestedSetIsRefused(d: Dialect, v: AV, enc: Cipher, b: Draft, order: seq<string>)
    requires d.reserved == {} && d.valid(Inside()) && d.valid("secret") && d.valid("hits")
    requires Run(d, Empty(), [SetRequest(d, Inside(), Some(v))], b)
    requires AllChanges(b.updates) ==> Order(SheetOf(OpsOf(b.updates)), order)
    ensures AllChanges(b.updates)
    ensures EncryptUpdate(enc, {"secret"}, UpdateEncryption.Text(OpsOf(b.updates), order), b.env.names, b.env.values) == Refused
  {
    hide *;
    InsideAsked(d, v);
    HitsJudged(enc, v);
    OneUpdate(d, SetRequest(d, Inside(), Some(v)), b, enc, {"secret"}, order, Hits(SetTo(None), v));
  }

  /** The theorem for a single update. */
  lemma OneUpdate(d: Dialect, q: Request, b: Draft, enc: Cipher, encrypted: set<string>, order: seq<string>, m: Meaning)
    requires Run(d, Empty(), [q], b) && Uses(d, [q], {"secret", "hits"}) && NoVariants(d, {"secret", "hits"}) && PlainWords(d)
    requires AllAsked(d, [q], Updates) == [m] && m.Says? && m.path != []
    requires AllChanges(b.updates) ==> Order(SheetOf(OpsOf(b.updates)), order)
    ensures AllChanges(b.updates)
    ensures var r := EncryptUpdate(enc, encrypted, UpdateEncryption.Text(OpsOf(b.updates), order), b.env.names, b.env.values);
            && (r.Done? <==> Encryptable(enc, encrypted, m))
            && (r.Done? ==> Said(WithNewValues(b, r.values), Updates) == Some([Sealed(enc, encrypted, m)]))
  {
    hide Run, Uses, NoVariants, PlainWords, AllAsked, AllChanges, Order, EncryptUpdate, Encryptable, Sealed, Said, WithNewValues, SheetOf, UpdateEncryption.Text, OpsOf;
    EncryptedUpdateSays(d, [q], b, {"secret", "hits"}, enc, encrypted, order);
    assert [m][0] == m;
    if Encryptable(enc, encrypted, m) {
      assert SealedAll(enc, encrypted, [m]) == [Sealed(enc, encrypted, m)];
    }
  }

  lemma HitsJudged(enc: Cipher, v: AV)
    ensures var a, s := Hits(AddTo, v), Hits(SetTo(None), v);
            && a.Says? && s.Says? && a.path != [] && s.path != []
            && Encryptable(enc, {"secret"}, a) && Sealed(enc, {"secret"}, a) == a && !Encryptable(enc, {"secret"}, s)
  {
  }

  lemma InsideAsked(d: Dialect, v: AV)
    requires d.reserved == {} && d.valid(Inside()) && d.valid("secret") && d.valid("hits")
    ensures var qa, qs := AddRequest(d, Inside(), Some(v)), SetRequest(d, Inside(), Some(v));
            && Uses(d, [qa], {"secret", "hits"}) && Uses(d, [qs], {"secret", "hits"})
            && AllAsked(d, [qa], Updates) == [Hits(AddTo, v)] && AllAsked(d, [qs], Updates) == [Hits(SetTo(None), v)]
    ensures NoVariants(d, {"secret", "hits"}) && PlainWords(d)
  {
    var qa, qs := AddRequest(d, Inside(), Some(v)), SetRequest(d, Inside(), Some(v));
    SplitInside();
    InsideIsPlain();
    hide Split, Inside, ParseIndex;
    OneAsked(d, qa, v);
    OneAsked(d, qs, v);
    assert [qa][0] == qa && [qs][0] == qs;
  }

  lemma InsideIsPlain()
    ensures ParseIndex(Inside()) == Plain
  {
    assert '[' !in Inside();
  }

  lemma OneAsked(d: Dialect, q: Request, v: AV)
    requires q.AddUpdate? && q.checked && ValsOf(q.change) == [Some(v)]
    ensures AllAsked(d, [q], Updates) == [Says(Split(q.field), VerbOf(q.change), [v])]
  {
    AllConverted([Some(v)], [v]);
    assert Asked(d, q) == Some(Says(Split(q.field), VerbOf(q.change), [v]));
    hide Asked, Converted, ValsOf, VerbOf, Split;
    AllAskedOne(d, q, Updates);
  }

  lemma AllAskedOne(d: Dialect, q: Request, slot: Slot)
    ensures AllAsked(d, [q], slot) == Extra(d, q, slot)
  {
    hide Extra;
    var none: seq<Request> := [];
    assert [q][1..] == none && AllAsked(d, none, slot) == [];
    Reassociate(Extra(d, q, slot), [], []);
  }

  lemma SplitInside()
    ensures Split(Inside()) == ["secret", "hits"]
  {
    hide Split;
    SplitPlain("hits");
    SplitDot("hits");
    SplitAfter("secret", "." + "hits");
    HeadAndTail("secret", "hits");
  }

  lemma HeadAndTail(a: string, b: string)
    ensures [a + ([""] + [b])[0]] + ([""] + [b])[1..] == [a, b]
  {
    assert a + "" == a && ([""] + [b])[1..] == [b];
  }

  lemma SplitDot(b: string)
    ensures Split("." + b) == [""] + Split(b)
  {
    assert ("." + b)[1..] == b;
  }

  /** Characters other than dots in front lengthen the first part. */
  lemma {:induction false} SplitAfter(a: string, b: string)
    requires '.' !in a
    ensures Split(a + b) == [a + Split(b)[0]] + Split(b)[1..]
    decreases |a|
  {
    if a == "" {
      assert a + b == b && "" + Split(b)[0] == Split(b)[0];
    } else {
      assert (a + b)[0] == a[0] && (a + b)[1..] == a[1..] + b;
      SplitAfter(a[1..], b);
      assert [a[0]] + (a[1..] + Split(b)[0]) == a + Split(b)[0];
    }
  }
}
