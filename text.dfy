/** The pieces of JavaScript's string semantics the plugin relies on:
    the `\s` class, line terminators, `indexOf`/`lastIndexOf`, `trim`,
    `startsWith`/`endsWith` and the decimal rendering of a number in a
    template literal. */
module Text {

  /** The characters `\s` matches in a JavaScript regular expression; the
      same set is what `String.prototype.trim` strips. */
  predicate IsSpace(c: char) {
    c == '\t' || c == '\n' || c == '\U{B}' || c == '\U{C}' || c == '\r' || c == ' '
    || c == '\U{A0}' || c == '\U{1680}' || ('\U{2000}' <= c <= '\U{200A}')
    || c == '\U{2028}' || c == '\U{2029}' || c == '\U{202F}' || c == '\U{205F}'
    || c == '\U{3000}' || c == '\U{FEFF}'
  }

  /** The characters `.` refuses to match when a regular expression has no `s` flag. */
  predicate IsLineTerminator(c: char) {
    c == '\n' || c == '\r' || c == '\U{2028}' || c == '\U{2029}'
  }

  predicate NoLineTerminator(s: string) {
    forall i :: 0 <= i < |s| ==> !IsLineTerminator(s[i])
  }

  predicate AllSpace(s: string) {
    forall i :: 0 <= i < |s| ==> IsSpace(s[i])
  }

  predicate NoSpace(s: string) {
    forall i :: 0 <= i < |s| ==> !IsSpace(s[i])
  }

  /** The first position at or after `from` holding `x`, or -1. */
  function IndexFrom<T(==)>(s: seq<T>, x: T, from: nat): (i: int)
    requires from <= |s|
    ensures i == -1 || from <= i < |s|
    ensures i == -1 ==> forall k :: from <= k < |s| ==> s[k] != x
    ensures i >= 0 ==> s[i] == x && forall k :: from <= k < i ==> s[k] != x
    decreases |s| - from
  {
    if from == |s| then -1 else if s[from] == x then from else IndexFrom(s, x, from + 1)
  }

  /** `Array.prototype.indexOf` and `String.prototype.indexOf` for one element:
      the first position holding `x`, or -1 when there is none. */
  function IndexOf<T(==)>(s: seq<T>, x: T): (i: int)
    ensures -1 <= i < |s|
    ensures i == -1 <==> x !in s
    ensures 0 <= i ==> s[i] == x && x !in s[..i]
  {
    var i := IndexFrom(s, x, 0);
    assert i >= 0 ==> forall k :: 0 <= k < i ==> s[..i][k] == s[k];
    i
  }

  /** The first position holding `x` is the one with no `x` before it. */
  lemma IndexOfAt<T>(s: seq<T>, x: T, i: nat)
    requires i < |s| && s[i] == x && x !in s[..i]
    ensures IndexOf(s, x) == i
  {
    var j := IndexOf(s, x);
    assert forall k :: 0 <= k < i ==> s[..i][k] == s[k];
    assert forall k :: 0 <= k < j ==> s[..j][k] == s[k];
  }

  /** Regrouping a concatenation. */
  lemma Assoc<T>(a: seq<T>, b: seq<T>, c: seq<T>)
    ensures (a + b) + c == a + (b + c)
  {
  }

  /** The last element of a concatenation with a non-empty right part. */
  lemma LastOfSum<T>(b: seq<T>, a: seq<T>, r: seq<T>)
    requires b == a + r && r != []
    ensures b[|b| - 1] == r[|r| - 1]
  {
  }

  lemma EmptyFront<T>(e: seq<T>, b: seq<T>)
    requires e == []
    ensures e + b == b
  {
  }

  /** The last position before `upto` holding `x`, or -1. */
  function LastIndexBefore<T(==)>(s: seq<T>, x: T, upto: nat): (i: int)
    requires upto <= |s|
    ensures -1 <= i < upto
    ensures i == -1 ==> forall k :: 0 <= k < upto ==> s[k] != x
    ensures i >= 0 ==> s[i] == x && forall k :: i < k < upto ==> s[k] != x
  {
    if upto == 0 then -1 else if s[upto - 1] == x then upto - 1 else LastIndexBefore(s, x, upto - 1)
  }

  /** The last position holding `x`, or -1 when there is none. */
  function LastIndexOf<T(==)>(s: seq<T>, x: T): (i: int)
    ensures -1 <= i < |s|
    ensures i == -1 <==> x !in s
    ensures 0 <= i ==> s[i] == x && x !in s[i + 1..]
  {
    var i := LastIndexBefore(s, x, |s|);
    assert i >= 0 ==> forall k :: i < k < |s| ==> s[i + 1..][k - i - 1] == s[k];
    i
  }

  /** The last position holding `x` is the one with no `x` after it. */
  lemma LastIndexOfAt<T>(s: seq<T>, x: T, i: nat)
    requires i < |s| && s[i] == x && x !in s[i + 1..]
    ensures LastIndexOf(s, x) == i
  {
    var j := LastIndexOf(s, x);
    assert forall k :: i < k < |s| ==> s[i + 1..][k - i - 1] == s[k];
    assert forall k :: j < k < |s| ==> s[j + 1..][k - j - 1] == s[k];
  }

  /** The length of the longest prefix free of line terminators: the extent
      of what `^(.*)` can match. */
  function LineEnd(s: string): (k: nat)
    ensures k <= |s|
    ensures NoLineTerminator(s[..k])
    ensures k < |s| ==> IsLineTerminator(s[k])
  {
    if |s| == 0 || IsLineTerminator(s[0]) then 0 else 1 + LineEnd(s[1..])
  }

  /** The first line ends where the first line terminator stands. */
  lemma LineEndAt(s: string, k: nat)
    requires k <= |s| && NoLineTerminator(s[..k])
    requires k < |s| ==> IsLineTerminator(s[k])
    ensures LineEnd(s) == k
  {
    var j := LineEnd(s);
    assert forall i :: 0 <= i < k ==> s[..k][i] == s[i];
    assert forall i :: 0 <= i < j ==> s[..j][i] == s[i];
  }

  function StartsWith(s: string, p: string): bool {
    |p| <= |s| && s[..|p|] == p
  }

  function EndsWith(s: string, p: string): bool {
    |p| <= |s| && s[|s| - |p|..] == p
  }

  /** The end of the `\s` run that starts at `from`. */
  function SpaceRunEnd(s: string, from: nat): (k: nat)
    requires from <= |s|
    ensures from <= k <= |s|
    ensures forall j :: from <= j < k ==> IsSpace(s[j])
    ensures k < |s| ==> !IsSpace(s[k])
    decreases |s| - from
  {
    if from < |s| && IsSpace(s[from]) then SpaceRunEnd(s, from + 1) else from
  }

  /** The start of the `\s` run that ends at `upto`. */
  function SpaceRunStart(s: string, upto: nat): (k: nat)
    requires upto <= |s|
    ensures k <= upto
    ensures forall j :: k <= j < upto ==> IsSpace(s[j])
    ensures 0 < k ==> !IsSpace(s[k - 1])
  {
    if 0 < upto && IsSpace(s[upto - 1]) then SpaceRunStart(s, upto - 1) else upto
  }

  /** `s` without its leading `\s` run. */
  function TrimStart(s: string): (r: string)
    ensures |r| <= |s| && r == s[|s| - |r|..]
    ensures AllSpace(s[..|s| - |r|])
    ensures r == [] || !IsSpace(r[0])
  {
    var k := SpaceRunEnd(s, 0);
    assert forall j :: 0 <= j < k ==> s[..k][j] == s[j];
    s[k..]
  }

  /** `s` without its trailing `\s` run. */
  function TrimEnd(s: string): (r: string)
    ensures |r| <= |s| && r == s[..|r|]
    ensures AllSpace(s[|r|..])
    ensures r == [] || !IsSpace(r[|r| - 1])
  {
    var k := SpaceRunStart(s, |s|);
    assert forall j :: k <= j < |s| ==> s[k..][j - k] == s[j];
    s[..k]
  }

  /** `String.prototype.trim`. */
  function Trim(s: string): string {
    TrimEnd(TrimStart(s))
  }

  /** What `trim` returns is `s` with a whitespace run cut from each end, and
      it neither starts nor ends with whitespace. */
  lemma TrimShape(s: string)
    ensures var r := Trim(s);
      exists i :: 0 <= i <= |s| - |r| && s[i..i + |r|] == r
        && AllSpace(s[..i]) && AllSpace(s[i + |r|..])
    ensures var r := Trim(s); r == [] || (!IsSpace(r[0]) && !IsSpace(r[|r| - 1]))
  {
    var t := TrimStart(s);
    var r := TrimEnd(t);
    var i := |s| - |t|;
    TrimParts(s, t, r, i);
    assert 0 <= i <= |s| - |r| && s[i..i + |r|] == r && AllSpace(s[..i]) && AllSpace(s[i + |r|..]);
    if r != [] {
      assert r[0] == t[0];
    }
  }

  lemma TrimParts(s: string, t: string, r: string, i: nat)
    requires i <= |s| && t == s[i..] && |r| <= |t| && r == t[..|r|]
    ensures s[i..i + |r|] == r && s[i + |r|..] == t[|r|..]
  {
  }

  function DigitChar(d: nat): (c: char)
    requires d < 10
    ensures '0' <= c <= '9'
  {
    ('0' as int + d) as char
  }

  predicate IsDigits(s: string) {
    forall i :: 0 <= i < |s| ==> '0' <= s[i] <= '9'
  }

  /** The number a string of decimal digits denotes. */
  function DigitsValue(s: string): nat
    requires IsDigits(s)
  {
    if s == [] then 0
    else DigitsValue(s[..|s| - 1]) * 10 + (s[|s| - 1] as int - '0' as int)
  }

  /** A natural number as a template literal renders it. */
  function Decimal(n: nat): (r: string)
    ensures |r| > 0 && IsDigits(r)
    ensures r[0] == '0' ==> r == "0"
  {
    if n < 10 then [DigitChar(n)] else Decimal(n / 10) + [DigitChar(n % 10)]
  }

  /** Reading back the digits that `Decimal` renders gives the number. */
  lemma {:induction false} DecimalValue(n: nat)
    ensures DigitsValue(Decimal(n)) == n
  {
    if n >= 10 {
      DecimalValue(n / 10);
      var r := Decimal(n);
      assert r[..|r| - 1] == Decimal(n / 10);
    }
  }
}
