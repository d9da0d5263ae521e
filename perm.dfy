/** `statToPerm`: the permission string `stat --format=%A` prints, such as
    `-rw-r--r--`, read as three octal digits. */
module Perm {
  import opened Text

  /** `statStr[f] !== "-"`: a position past the end reads as `undefined`,
      which is not `"-"`, so it counts as a set bit too. */
  predicate Bit(s: string, f: nat) {
    f >= |s| || s[f] != '-'
  }

  /** `t(f)`: the three bits from position `f` on, weighted 4, 2 and 1. */
  function Triple(s: string, f: nat): (d: nat)
    ensures d < 8
    ensures d / 4 == (if Bit(s, f) then 1 else 0)
    ensures d / 2 % 2 == (if Bit(s, f + 1) then 1 else 0)
    ensures d % 2 == (if Bit(s, f + 2) then 1 else 0)
  {
    (if Bit(s, f) then 4 else 0) + (if Bit(s, f + 1) then 2 else 0) + (if Bit(s, f + 2) then 1 else 0)
  }

  function OctalDigit(c: char): nat
    requires '0' <= c <= '7'
  {
    c as int - '0' as int
  }

  /** The owner, group and other digits, from positions 1-3, 4-6 and 7-9;
      position 0, the file type, plays no part. */
  function StatToPerm(s: string): (r: string)
    ensures |r| == 3
    ensures forall k :: 0 <= k < 3 ==> '0' <= r[k] <= '7'
  {
    [DigitChar(Triple(s, 1)), DigitChar(Triple(s, 4)), DigitChar(Triple(s, 7))]
  }

  /** Position `1 + 3k + j` of the permission string is set exactly when bit
      `2 - j` of digit `k` is: every character but `-` counts as set. */
  lemma StatToPermBits(s: string, k: nat, j: nat)
    requires k < 3 && j < 3
    ensures var d := OctalDigit(StatToPerm(s)[k]);
      (if j == 0 then d / 4 else if j == 1 then d / 2 % 2 else d % 2) == 1 <==> Bit(s, 1 + 3 * k + j)
  {
    var d := OctalDigit(StatToPerm(s)[k]);
    assert d == Triple(s, 1 + 3 * k);
  }

  /** The file-type character does not matter. */
  lemma StatToPermIgnoresType(s: string, c: char)
    requires |s| > 0
    ensures StatToPerm([c] + s[1..]) == StatToPerm(s)
  {
    var s' := [c] + s[1..];
    assert forall f :: 1 <= f ==> (Bit(s', f) <==> Bit(s, f));
  }

  /** Only whether a position holds `-` matters: `s` and `S`, `t` and `T`
      read as set bits like `x`. */
  lemma StatToPermDashes(s: string, s': string)
    requires |s| == |s'|
    requires forall i :: 0 <= i < |s| ==> (s[i] == '-' <==> s'[i] == '-')
    ensures StatToPerm(s) == StatToPerm(s')
  {
    assert forall f :: Bit(s, f) <==> Bit(s', f);
  }

  /** `rwx` with `-` for the bits of `d` that are clear. */
  function Render(d: nat, r: char, w: char, x: char): (m: string)
    requires d < 8
    ensures |m| == 3
  {
    [if d / 4 == 1 then r else '-', if d / 2 % 2 == 1 then w else '-', if d % 2 == 1 then x else '-']
  }

  /** The permission string of a mode, as `stat` prints it. */
  function ModeString(typ: char, u: nat, g: nat, o: nat): (m: string)
    requires u < 8 && g < 8 && o < 8
    ensures |m| == 10
  {
    [typ] + Render(u, 'r', 'w', 'x') + Render(g, 'r', 'w', 'x') + Render(o, 'r', 'w', 'x')
  }

  /** Reading the permission string of a mode gives back its three digits. */
  lemma StatToPermModeString(typ: char, u: nat, g: nat, o: nat)
    requires u < 8 && g < 8 && o < 8
    ensures StatToPerm(ModeString(typ, u, g, o)) == [DigitChar(u), DigitChar(g), DigitChar(o)]
  {
    var m := ModeString(typ, u, g, o);
    var ru, rg, ro := Render(u, 'r', 'w', 'x'), Render(g, 'r', 'w', 'x'), Render(o, 'r', 'w', 'x');
    assert m == [typ] + ru + rg + ro;
    assert forall i :: 0 <= i < 3 ==> m[1 + i] == ru[i] && m[4 + i] == rg[i] && m[7 + i] == ro[i];
    assert m[1..4] == ru && m[4..7] == rg && m[7..10] == ro;
    TripleOf(m, 1, u);
    TripleOf(m, 4, g);
    TripleOf(m, 7, o);
  }

  lemma TripleOf(s: string, f: nat, d: nat)
    requires d < 8 && f + 3 <= |s| && s[f..f + 3] == Render(d, 'r', 'w', 'x')
    ensures Triple(s, f) == d
  {
    assert s[f] == s[f..f + 3][0] && s[f + 1] == s[f..f + 3][1] && s[f + 2] == s[f..f + 3][2];
  }

  lemma StatToPermExamples()
    ensures StatToPerm("drwxr-xr-x") == "755"
    ensures StatToPerm("-rw-r--r--") == "644"
    ensures StatToPerm("") == "777"
  {
    assert "drwxr-xr-x" == ModeString('d', 7, 5, 5);
    StatToPermModeString('d', 7, 5, 5);
    assert "-rw-r--r--" == ModeString('-', 6, 4, 4);
    StatToPermModeString('-', 6, 4, 4);
  }

  /** The `ssher_perm` value `setupBuffer` stores for a file: the `stat`
      output with surrounding whitespace trimmed. */
  function PermFromStatOutput(out: string): (r: string)
    ensures |r| == 3
    ensures forall k :: 0 <= k < 3 ==> '0' <= r[k] <= '7'
  {
    StatToPerm(Trim(out))
  }

  /** The line `stat` prints ends in a newline, which `trim` removes. */
  lemma PermFromStatLine(typ: char, u: nat, g: nat, o: nat)
    requires u < 8 && g < 8 && o < 8
    requires !IsSpace(typ)
    ensures PermFromStatOutput(ModeString(typ, u, g, o) + "\n") == [DigitChar(u), DigitChar(g), DigitChar(o)]
  {
    var m := ModeString(typ, u, g, o);
    var s := m + "\n";
    assert TrimStart(s) == s;
    assert s[..|m|] == m;
    assert !IsSpace(m[|m| - 1]) by {
      assert m[9] == Render(o, 'r', 'w', 'x')[2];
    }
    TrimEndOne(m);
    StatToPermModeString(typ, u, g, o);
  }

  lemma TrimEndOne(m: string)
    requires m != [] && !IsSpace(m[|m| - 1])
    ensures TrimEnd(m + "\n") == m
  {
    var s := m + "\n";
    assert s[..|s| - 1] == m;
  }
}
