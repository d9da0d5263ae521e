/** UTF-8, as `TextEncoder` writes it and `TextDecoder` reads well-formed
    input. A Dafny `char` is a Unicode scalar value, so every string has an
    encoding. The default `TextDecoder` (`ignoreBOM` false) removes one
    leading U+FEFF from what it decodes. */
module Utf8 {
  import opened Common

  predicate IsContinuation(b: byte) {
    0x80 <= b < 0xC0
  }

  /** The one to four bytes of a scalar value. */
  function EncodeChar(c: char): (r: seq<byte>)
    ensures 1 <= |r| <= 4
    ensures |r| == 1 <==> c as int < 0x80
    ensures |r| == 1 ==> r[0] == c as int
    ensures forall k :: 1 <= k < |r| ==> IsContinuation(r[k])
    ensures |r| > 1 ==> r[0] >= 0xC0
  {
    var n := c as int;
    if n < 0x80 then [n]
    else if n < 0x800 then [0xC0 + n / 0x40, 0x80 + n % 0x40]
    else if n < 0x10000 then [0xE0 + n / 0x1000, 0x80 + (n / 0x40) % 0x40, 0x80 + n % 0x40]
    else [0xF0 + n / 0x40000, 0x80 + (n / 0x1000) % 0x40, 0x80 + (n / 0x40) % 0x40, 0x80 + n % 0x40]
  }

  /** `new TextEncoder().encode(s)`. */
  function Encode(s: string): (r: seq<byte>)
    ensures |r| >= |s|
    ensures s == [] <==> r == []
  {
    if s == [] then [] else EncodeChar(s[0]) + Encode(s[1..])
  }

  lemma {:induction false} EncodeAppend(a: string, b: string)
    ensures Encode(a + b) == Encode(a) + Encode(b)
  {
    if a != [] {
      EncodeAppend(a[1..], b);
      EncodeAppendStep(a, b);
    } else {
      assert a + b == b;
    }
  }

  lemma EncodeAppendStep(a: string, b: string)
    requires a != [] && Encode(a[1..] + b) == Encode(a[1..]) + Encode(b)
    ensures Encode(a + b) == Encode(a) + Encode(b)
  {
    assert (a + b)[0] == a[0] && (a + b)[1..] == a[1..] + b;
    EncodeFirst(a + b);
    EncodeFirst(a);
    Regroup(EncodeChar(a[0]), Encode(a[1..]), Encode(b));
  }

  lemma EncodeFirst(s: string)
    requires s != []
    ensures Encode(s) == EncodeChar(s[0]) + Encode(s[1..])
  {
  }

  lemma Regroup(e: seq<byte>, x: seq<byte>, y: seq<byte>)
    ensures e + (x + y) == (e + x) + y
  {
  }

  /** A byte below 0x80 occurs in the encoding exactly where its character
      occurs in the text: multi-byte sequences are made of bytes 0x80 and up. */
  lemma {:induction false} EncodeAsciiByte(s: string, b: byte)
    requires b < 0x80
    ensures b in Encode(s) <==> b as char in s
  {
    if s != [] {
      EncodeAsciiByte(s[1..], b);
      var e := EncodeChar(s[0]);
      assert b in e <==> s[0] == b as char;
      assert Encode(s) == e + Encode(s[1..]);
      assert s == [s[0]] + s[1..];
    }
  }

  /** How many bytes a sequence starting with `b` has; 0 for a byte that
      cannot start one. */
  function SequenceLength(b: byte): nat {
    if b < 0x80 then 1
    else if 0xC2 <= b < 0xE0 then 2
    else if 0xE0 <= b < 0xF0 then 3
    else if 0xF0 <= b < 0xF5 then 4
    else 0
  }

  /** The scalar value one well-formed sequence denotes. */
  function DecodeSequence(u: seq<byte>): Option<char>
    requires 1 <= |u| <= 4
  {
    if exists k :: 1 <= k < |u| && !IsContinuation(u[k]) then None
    else
      var v := SequenceValue(u);
      var least := if |u| == 1 then 0 else if |u| == 2 then 0x80 else if |u| == 3 then 0x800 else 0x10000;
      if least <= v && (v < 0xD800 || 0xE000 <= v < 0x110000) then Some(v as char) else None
  }

  /** The bits a lead byte and its continuation bytes carry. */
  function SequenceValue(u: seq<byte>): int
    requires 1 <= |u| <= 4
  {
    var b0: int := u[0];
    if |u| == 1 then b0
    else
      var b1: int := u[1] as int - 0x80;
      if |u| == 2 then (b0 - 0xC0) * 0x40 + b1
      else
        var b2: int := u[2] as int - 0x80;
        if |u| == 3 then (b0 - 0xE0) * 0x1000 + b1 * 0x40 + b2
        else (b0 - 0xF0) * 0x40000 + b1 * 0x1000 + b2 * 0x40 + (u[3] as int - 0x80)
  }

  /** The scalar values well-formed UTF-8 denotes, a leading U+FEFF
      included: `new TextDecoder("utf-8", { ignoreBOM: true }).decode(b)`,
      and `None` where the decoder would have to substitute U+FFFD. */
  function DecodeScalars(b: seq<byte>): Option<string>
    decreases |b|
  {
    if b == [] then Some([])
    else
      var n := SequenceLength(b[0]);
      if n == 0 || |b| < n then None
      else match DecodeSequence(b[..n])
        case None => None
        case Some(c) =>
          match DecodeScalars(b[n..])
          case None => None
          case Some(s) => Some([c] + s)
  }

  lemma DecodeEncodeChar(c: char)
    ensures var e := EncodeChar(c); SequenceLength(e[0]) == |e| && DecodeSequence(e) == Some(c)
  {
    var n := c as int;
    var e := EncodeChar(c);
    if n < 0x80 {
    } else if n < 0x800 {
      Split2(n);
    } else if n < 0x10000 {
      Split3(n);
    } else {
      Split4(n);
    }
    assert SequenceValue(e) == n;
  }

  lemma Split2(n: int)
    requires 0x80 <= n < 0x800
    ensures n == (n / 0x40) * 0x40 + n % 0x40 && 2 <= n / 0x40 < 0x20
  {
  }

  lemma Split3(n: int)
    requires 0x800 <= n < 0x10000
    ensures n == (n / 0x1000) * 0x1000 + ((n / 0x40) % 0x40) * 0x40 + n % 0x40
    ensures n / 0x1000 < 0x10
  {
    var q := n / 0x40;
    assert n == q * 0x40 + n % 0x40;
    assert q / 0x40 == n / 0x1000;
    assert q == (q / 0x40) * 0x40 + q % 0x40;
  }

  lemma Split4(n: int)
    requires 0x10000 <= n < 0x110000
    ensures n == (n / 0x40000) * 0x40000 + ((n / 0x1000) % 0x40) * 0x1000 + ((n / 0x40) % 0x40) * 0x40 + n % 0x40
    ensures n / 0x40000 < 5
  {
    var q := n / 0x40;
    var p := n / 0x1000;
    assert n == q * 0x40 + n % 0x40;
    assert q / 0x40 == p;
    assert q == p * 0x40 + q % 0x40;
    assert p / 0x40 == n / 0x40000;
    assert p == (p / 0x40) * 0x40 + p % 0x40;
  }

  /** Decoding the encoding of a text gives back exactly that text,
      U+FEFF and all. */
  lemma {:induction false} DecodeScalarsEncode(s: string)
    ensures DecodeScalars(Encode(s)) == Some(s)
  {
    if s != [] {
      var e := EncodeChar(s[0]);
      var b := Encode(s);
      DecodeEncodeChar(s[0]);
      assert b[..|e|] == e;
      assert b[|e|..] == Encode(s[1..]);
      DecodeScalarsEncode(s[1..]);
      assert [s[0]] + s[1..] == s;
    }
  }

  /** The byte order mark, U+FEFF. */
  const Bom: char := '\U{FEFF}'

  /** The text without one leading byte order mark. */
  function StripBom(s: string): string {
    if s != [] && s[0] == Bom then s[1..] else s
  }

  /** `new TextDecoder().decode(b)` on well-formed UTF-8: the scalar values,
      with one leading U+FEFF removed, since `ignoreBOM` is false by
      default. */
  function Decode(b: seq<byte>): Option<string> {
    match DecodeScalars(b)
    case None => None
    case Some(s) => Some(StripBom(s))
  }

  /** `new TextDecoder()` gives back the text `TextEncoder` encoded, less
      one leading U+FEFF: the text comes back unchanged exactly when it
      does not start with U+FEFF. */
  lemma DecodeEncode(s: string)
    ensures Decode(Encode(s)) == Some(StripBom(s))
    ensures Decode(Encode(s)) == Some(s) <==> s == [] || s[0] != Bom
  {
    DecodeScalarsEncode(s);
  }

  /** The three bytes `EF BB BF` of a byte order mark followed by `a`
      decode to `a` alone. */
  lemma BomDropped()
    ensures Encode([Bom, 'a']) == [0xEF, 0xBB, 0xBF, 0x61]
    ensures Decode([0xEF, 0xBB, 0xBF, 0x61]) == Some("a")
  {
    DecodeEncode([Bom, 'a']);
    assert Encode([Bom, 'a']) == EncodeChar(Bom) + Encode(['a']);
  }
}
