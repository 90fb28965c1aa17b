/** The standard base64 of section 4 of RFC 4648 and its URL-safe variant of section 5,
    with padding, as encoding/base64 uses them here. */
module Base64 {
  import opened Wrappers
  import opened AttributeValues

  /** The two alphabets differ in their last two characters. */
  datatype Alphabet = Std | Url

  function Char(a: Alphabet, v: nat): char
    requires v < 64
  {
    if v < 26 then 'A' + v as char
    else if v < 52 then 'a' + (v - 26) as char
    else if v < 62 then '0' + (v - 52) as char
    else if v == 62 then (if a.Std? then '+' else '-')
    else (if a.Std? then '/' else '_')
  }

  function Value(a: Alphabet, c: char): Option<nat> {
    if 'A' <= c <= 'Z' then Some((c - 'A') as nat)
    else if 'a' <= c <= 'z' then Some(26 + (c - 'a') as nat)
    else if '0' <= c <= '9' then Some(52 + (c - '0') as nat)
    else if c == (if a.Std? then '+' else '-') then Some(62)
    else if c == (if a.Std? then '/' else '_') then Some(63)
    else None
  }

  lemma CharValue(a: Alphabet, v: nat)
    requires v < 64
    ensures Value(a, Char(a, v)) == Some(v) && Char(a, v) != '='
  {
  }

  function First(x: byte): nat { x as int / 4 }
  function Second(x: byte, y: byte): nat { x as int % 4 * 16 + y as int / 16 }
  function Third(y: byte, z: byte): nat { y as int % 16 * 4 + z as int / 64 }
  function Fourth(z: byte): nat { z as int % 64 }

  /** Four characters for the first n of three bytes; the rest of the group is '='. */
  function Quad(a: Alphabet, x: byte, y: byte, z: byte, n: nat): (q: string)
    requires 1 <= n <= 3
    ensures |q| == 4
  {
    [Char(a, First(x)), Char(a, Second(x, y)), if n > 1 then Char(a, Third(y, z)) else '=', if n > 2 then Char(a, Fourth(z)) else '=']
  }

  function Short(n: nat): nat {
    if n < 3 then n else 3
  }

  /** Three bytes become four characters; a shorter last group is padded. */
  function Encode(a: Alphabet, bs: seq<byte>): string {
    if bs == [] then ""
    else Quad(a, ByteAt(bs, 0), ByteAt(bs, 1), ByteAt(bs, 2), Short(|bs|)) + Encode(a, bs[Short(|bs|)..])
  }

  function Byte1(v: nat, w: nat): byte
    requires v < 64 && w < 64
  {
    (v * 4 + w / 16) as byte
  }

  function Byte2(w: nat, x: nat): byte
    requires w < 64 && x < 64
  {
    (w % 16 * 16 + x / 4) as byte
  }

  function Byte3(x: nat, y: nat): byte
    requires x < 64 && y < 64
  {
    (x % 4 * 64 + y) as byte
  }

  lemma ValueSmall(a: Alphabet, c: char)
    ensures Value(a, c).Some? ==> Value(a, c).value < 64
  {
  }

  /** Padding is accepted in the last group only. */
  function Unquad(a: Alphabet, c: char, d: char, e: char, f: char, last: bool): Option<seq<byte>> {
    var v, w, x, y := Value(a, c), Value(a, d), Value(a, e), Value(a, f);
    ValueSmall(a, c); ValueSmall(a, d); ValueSmall(a, e); ValueSmall(a, f);
    if v.None? || w.None? then None
    else if last && e == '=' && f == '=' then Some([Byte1(v.value, w.value)])
    else if x.None? then None
    else if last && f == '=' then Some([Byte1(v.value, w.value), Byte2(w.value, x.value)])
    else if y.None? then None
    else Some([Byte1(v.value, w.value), Byte2(w.value, x.value), Byte3(x.value, y.value)])
  }

  function Decode(a: Alphabet, s: string): Option<seq<byte>> {
    if s == "" then Some([])
    else if |s| < 4 then None
    else match (Unquad(a, s[0], s[1], s[2], s[3], |s| == 4), Decode(a, s[4..]))
      case (Some(head), Some(rest)) => Some(head + rest)
      case _ => None
  }

  lemma BytesBack(x: byte, y: byte, z: byte)
    ensures First(x) < 64 && Second(x, y) < 64 && Third(y, z) < 64 && Fourth(z) < 64
    ensures Byte1(First(x), Second(x, y)) == x && Byte2(Second(x, y), Third(y, z)) == y && Byte3(Third(y, z), Fourth(z)) == z
  {
  }

  lemma CharsBack(a: Alphabet, x: byte, y: byte, z: byte)
    ensures First(x) < 64 && Second(x, y) < 64 && Third(y, z) < 64 && Fourth(z) < 64
    ensures Value(a, Char(a, First(x))) == Some(First(x)) && Value(a, Char(a, Second(x, y))) == Some(Second(x, y))
    ensures Value(a, Char(a, Third(y, z))) == Some(Third(y, z)) && Value(a, Char(a, Fourth(z))) == Some(Fourth(z))
    ensures Char(a, Third(y, z)) != '=' && Char(a, Fourth(z)) != '='
  {
    hide Char, Value;
    CharValue(a, First(x));
    CharValue(a, Second(x, y));
    CharValue(a, Third(y, z));
    CharValue(a, Fourth(z));
  }

  /** Reading four characters whose values are known. */
  lemma UnquadReads(a: Alphabet, c: char, d: char, e: char, f: char, v: nat, w: nat, x: nat, y: nat, last: bool)
    requires v < 64 && w < 64 && x < 64 && y < 64 && Value(a, c) == Some(v) && Value(a, d) == Some(w)
    ensures last ==> Unquad(a, c, d, '=', '=', last) == Some([Byte1(v, w)])
    ensures Value(a, e) == Some(x) && e != '=' && last ==> Unquad(a, c, d, e, '=', last) == Some([Byte1(v, w), Byte2(w, x)])
    ensures Value(a, e) == Some(x) && e != '=' && Value(a, f) == Some(y) && f != '=' ==>
              Unquad(a, c, d, e, f, last) == Some([Byte1(v, w), Byte2(w, x), Byte3(x, y)])
  {
    hide Value, Byte1, Byte2, Byte3;
  }

  /** One group, through characters and back. */
  lemma QuadBack(a: Alphabet, x: byte, y: byte, z: byte, n: nat, last: bool)
    requires 1 <= n <= 3 && (n < 3 ==> last)
    ensures var q := Quad(a, x, y, z, n); Unquad(a, q[0], q[1], q[2], q[3], last) == Some([x, y, z][..n])
  {
    hide Char, Value, First, Second, Third, Fourth, Byte1, Byte2, Byte3, Unquad;
    BytesBack(x, y, z);
    CharsBack(a, x, y, z);
    var c, d, e, f := Char(a, First(x)), Char(a, Second(x, y)), Char(a, Third(y, z)), Char(a, Fourth(z));
    UnquadReads(a, c, d, e, f, First(x), Second(x, y), Third(y, z), Fourth(z), last);
    if n == 1 {
      assert Quad(a, x, y, z, n) == [c, d, '=', '='] && [x, y, z][..1] == [x];
    } else if n == 2 {
      assert Quad(a, x, y, z, n) == [c, d, e, '='] && [x, y, z][..2] == [x, y];
    } else {
      assert Quad(a, x, y, z, n) == [c, d, e, f] && [x, y, z][..3] == [x, y, z];
    }
  }

  lemma DecodeAfter(a: Alphabet, q: string, rest: string, head: seq<byte>, tail: seq<byte>)
    requires |q| == 4 && Unquad(a, q[0], q[1], q[2], q[3], rest == "") == Some(head) && Decode(a, rest) == Some(tail)
    ensures Decode(a, q + rest) == Some(head + tail)
  {
    hide Unquad;
    var s := q + rest;
    assert s[4..] == rest && s[0] == q[0] && s[1] == q[1] && s[2] == q[2] && s[3] == q[3];
  }

  /** The bytes of the first group, with zeros for those that are missing. */
  function ByteAt(bs: seq<byte>, i: nat): byte {
    if i < |bs| then bs[i] else 0
  }

  lemma FirstGroup(bs: seq<byte>)
    requires bs != []
    ensures [ByteAt(bs, 0), ByteAt(bs, 1), ByteAt(bs, 2)][..Short(|bs|)] + bs[Short(|bs|)..] == bs
  {
  }

  /** Decoding gives every byte string back. */
  lemma {:induction false} RoundTrip(a: Alphabet, bs: seq<byte>)
    ensures Decode(a, Encode(a, bs)) == Some(bs)
    decreases |bs|
  {
    if bs != [] {
      var x, y, z, n := ByteAt(bs, 0), ByteAt(bs, 1), ByteAt(bs, 2), Short(|bs|);
      var q, rest := Quad(a, x, y, z, n), Encode(a, bs[n..]);
      RoundTrip(a, bs[n..]);
      EncodeEmpty(a, bs[n..]);
      QuadBack(a, x, y, z, n, rest == "");
      FirstGroup(bs);
      hide Quad, Unquad, Decode;
      DecodeAfter(a, q, rest, [x, y, z][..n], bs[n..]);
    }
  }

  lemma EncodeEmpty(a: Alphabet, bs: seq<byte>)
    ensures Encode(a, bs) == "" <==> bs == []
  {
  }
}
