/** One line of `ls -lFah --time-style=long-iso` output, read with
    `/^(\S+)\s+(\S+)\s+(\S+)\s+(\S+)\s+(\S+)\s+(\S+)\s+(\S+)\s+(.*)$/`. */
module Listing {
  import opened Common
  import opened Text
  import Names
  import PosixPath

  /** The two captures the plugin keeps: the permission column and the name. */
  datatype Ls = Ls(stat: string, path: string)

  /** How many tokens precede the name: permissions, links, user, group,
      size, date and time. */
  const FieldCount: nat := 7

  /** Where the run of non-space characters starting at `i` ends. */
  function TokenEnd(s: string, i: nat): (j: nat)
    requires i <= |s|
    ensures i <= j <= |s|
    decreases |s| - i
  {
    if i == |s| || IsSpace(s[i]) then i else TokenEnd(s, i + 1)
  }

  /** Where the run of space characters starting at `i` ends. */
  function SpaceEnd(s: string, i: nat): (j: nat)
    requires i <= |s|
    ensures i <= j <= |s|
    decreases |s| - i
  {
    if i == |s| || !IsSpace(s[i]) then i else SpaceEnd(s, i + 1)
  }

  /** `count` repetitions of `(\S+)\s+` from position `i`: the tokens, and
      where what follows the last whitespace run starts. Each `\S+` must take
      a whole non-space run, because a `\s` has to follow it, and each `\s+`
      then takes the whole space run in front of the next `\S`; the last
      `\s+` is greedy. */
  function Fields(s: string, i: nat, count: nat): Option<(seq<string>, nat)>
    requires i <= |s|
    decreases count
  {
    if count == 0 then Some(([], i))
    else
      var t := TokenEnd(s, i);
      var w := SpaceEnd(s, t);
      if t == i || w == t then None
      else
        var f := Fields(s, w, count - 1);
        if f.None? then None else Some(([s[i..t]] + f.value.0, f.value.1))
  }

  /** `parseLs`: the first token is the permission string and the rest of the
      line after the seventh whitespace run is the name; `.` cannot cross a
      line terminator and `$` is the end of the input. */
  function ParseLs(line: string): (r: Result<Ls>)
    ensures r.Err? ==> r.error == InvalidLs
    ensures r.Ok? ==> NoLineTerminator(r.value.path)
  {
    var f := Fields(line, 0, FieldCount);
    if f.None? then Err(InvalidLs)
    else
      FieldsBounds(line, 0, FieldCount);
      var path := line[f.value.1..];
      if |f.value.0| > 0 && NoLineTerminator(path) then Ok(Ls(f.value.0[0], path)) else Err(InvalidLs)
  }

  /** `lsIsDir`: `ls -F` marks a directory with a trailing `/`, which any
      path the entry is joined to keeps. */
  predicate LsIsDir(ls: Ls)
    ensures ls.path != "" ==> (LsIsDir(ls) <==> ls.path[|ls.path| - 1] == '/')
    ensures ls.path == "" ==> LsIsDir(ls)
    ensures LsIsDir(ls) && ls.path != "" ==> forall cur :: Names.IsDirPath(PosixPath.Join(cur, ls.path))
  {
    Names.IsDirPath(ls.path)
  }

  /** Tokens and the whitespace runs after them, in turn. */
  function Interleave(toks: seq<string>, seps: seq<string>): string
    requires |toks| == |seps|
  {
    if toks == [] then "" else toks[0] + seps[0] + Interleave(toks[1..], seps[1..])
  }

  predicate Token(t: string) {
    t != "" && NoSpace(t)
  }

  predicate Gap(w: string) {
    w != "" && AllSpace(w)
  }

  /** A line the regular expression matches, taken apart: seven tokens, each
      followed by whitespace, then a name that starts with no whitespace and
      stays on one line. */
  ghost predicate LsLine(line: string, toks: seq<string>, seps: seq<string>, path: string) {
    |toks| == FieldCount && |seps| == FieldCount
    && (forall k :: 0 <= k < FieldCount ==> Token(toks[k]) && Gap(seps[k]))
    && (path == [] || !IsSpace(path[0])) && NoLineTerminator(path)
    && line == Interleave(toks, seps) + path
  }

  lemma {:induction false} FieldsBounds(s: string, i: nat, count: nat)
    requires i <= |s|
    ensures Fields(s, i, count).Some? ==>
      |Fields(s, i, count).value.0| == count && i <= Fields(s, i, count).value.1 <= |s|
    decreases count
  {
    if count > 0 {
      var t := TokenEnd(s, i);
      var w := SpaceEnd(s, t);
      if t > i && w > t {
        FieldsBounds(s, w, count - 1);
      }
    }
  }

  /** `TokenEnd` finds the end of the longest space-free run. */
  lemma {:induction false} TokenEndRun(s: string, i: nat)
    requires i <= |s|
    ensures var j := TokenEnd(s, i);
      (forall k :: i <= k < j ==> !IsSpace(s[k])) && (j < |s| ==> IsSpace(s[j]))
    decreases |s| - i
  {
    if i < |s| && !IsSpace(s[i]) {
      TokenEndRun(s, i + 1);
    }
  }

  /** `SpaceEnd` finds the end of the longest all-space run. */
  lemma {:induction false} SpaceEndRun(s: string, i: nat)
    requires i <= |s|
    ensures var j := SpaceEnd(s, i);
      (forall k :: i <= k < j ==> IsSpace(s[k])) && (j < |s| ==> !IsSpace(s[j]))
    decreases |s| - i
  {
    if i < |s| && IsSpace(s[i]) {
      SpaceEndRun(s, i + 1);
    }
  }

  lemma {:induction false} TokenEndAt(s: string, i: nat, j: nat)
    requires i <= j <= |s|
    requires forall k :: i <= k < j ==> !IsSpace(s[k])
    requires j < |s| ==> IsSpace(s[j])
    ensures TokenEnd(s, i) == j
    decreases j - i
  {
    if i < j {
      TokenEndAt(s, i + 1, j);
    }
  }

  lemma {:induction false} SpaceEndAt(s: string, i: nat, j: nat)
    requires i <= j <= |s|
    requires forall k :: i <= k < j ==> IsSpace(s[k])
    requires j < |s| ==> !IsSpace(s[j])
    ensures SpaceEnd(s, i) == j
    decreases j - i
  {
    if i < j {
      SpaceEndAt(s, i + 1, j);
    }
  }

  /** Every decomposition into tokens and whitespace runs is the one `Fields`
      finds. */
  lemma {:induction false} FieldsOf(s: string, i: nat, toks: seq<string>, seps: seq<string>, rest: string)
    requires i <= |s| && |toks| == |seps|
    requires forall k :: 0 <= k < |toks| ==> Token(toks[k]) && Gap(seps[k])
    requires rest == [] || !IsSpace(rest[0])
    requires s[i..] == Interleave(toks, seps) + rest
    ensures Fields(s, i, |toks|) == Some((toks, |s| - |rest|))
    decreases |toks|
  {
    if toks == [] {
      assert s[i..] == rest;
    } else {
      var tok, gap := toks[0], seps[0];
      var tail := Interleave(toks[1..], seps[1..]) + rest;
      Assoc(tok + gap, Interleave(toks[1..], seps[1..]), rest);
      TailStart(toks[1..], seps[1..], rest);
      var t, w := FieldStep(s, i, tok, gap, tail);
      FieldsOf(s, w, toks[1..], seps[1..], rest);
      assert [tok] + toks[1..] == toks;
    }
  }

  /** A tail of tokens and whitespace runs, and then a text that does not
      start with whitespace, does not start with whitespace. */
  lemma TailStart(toks: seq<string>, seps: seq<string>, rest: string)
    requires |toks| == |seps|
    requires forall k :: 0 <= k < |toks| ==> Token(toks[k]) && Gap(seps[k])
    requires rest == [] || !IsSpace(rest[0])
    ensures var tail := Interleave(toks, seps) + rest; tail == [] || !IsSpace(tail[0])
  {
    if toks != [] {
      assert Token(toks[0]);
      assert (Interleave(toks, seps) + rest)[0] == toks[0][0];
    }
  }

  /** A token and a whitespace run at `i`, before a text that does not start
      with whitespace, are what `TokenEnd` and `SpaceEnd` find there. */
  lemma FieldStep(s: string, i: nat, tok: string, gap: string, tail: string) returns (t: nat, w: nat)
    requires i <= |s| && Token(tok) && Gap(gap)
    requires tail == [] || !IsSpace(tail[0])
    requires s[i..] == tok + gap + tail
    ensures t == i + |tok| && w == t + |gap| && w <= |s|
    ensures TokenEnd(s, i) == t && SpaceEnd(s, t) == w
    ensures s[i..t] == tok && s[w..] == tail
  {
    t := i + |tok|;
    w := t + |gap|;
    FieldLayout(s, i, tok, gap, tail);
    RunIndices(s, i, t, tok, false);
    RunIndices(s, t, w, gap, true);
    assert t < |s| ==> s[t] == s[t..w][0];
    assert w < |s| ==> s[w] == tail[0];
    TokenEndAt(s, i, t);
    SpaceEndAt(s, t, w);
  }

  /** Where a token, its gap and what follows sit in the line. */
  lemma FieldLayout(s: string, i: nat, tok: string, gap: string, tail: string)
    requires i <= |s| && s[i..] == tok + gap + tail
    ensures i + |tok| + |gap| <= |s|
    ensures s[i..i + |tok|] == tok && s[i + |tok|..i + |tok| + |gap|] == gap
    ensures s[i + |tok| + |gap|..] == tail
  {
    var r := s[i..];
    assert r[..|tok|] == tok && r[|tok|..|tok| + |gap|] == gap && r[|tok| + |gap|..] == tail;
  }

  /** A slice that is all space, or free of it, says so about each position
      of the line. */
  lemma RunIndices(s: string, a: nat, b: nat, x: string, space: bool)
    requires a <= b <= |s| && s[a..b] == x
    requires if space then AllSpace(x) else NoSpace(x)
    ensures forall k :: a <= k < b ==> IsSpace(s[k]) == space
  {
    forall k | a <= k < b
      ensures IsSpace(s[k]) == space
    {
      assert s[k] == x[k - a];
    }
  }


  /** What `Fields` finds is such a decomposition; the whitespace runs it
      skipped are returned. */
  lemma {:induction false} FieldsSound(s: string, i: nat, count: nat) returns (seps: seq<string>)
    requires i <= |s| && Fields(s, i, count).Some?
    ensures |Fields(s, i, count).value.0| == count && |seps| == count
    ensures i <= Fields(s, i, count).value.1 <= |s|
    ensures forall k :: 0 <= k < count ==> Token(Fields(s, i, count).value.0[k]) && Gap(seps[k])
    ensures count > 0 ==> Fields(s, i, count).value.1 == |s| || !IsSpace(s[Fields(s, i, count).value.1])
    ensures s[i..] == Interleave(Fields(s, i, count).value.0, seps) + s[Fields(s, i, count).value.1..]
    decreases count
  {
    if count == 0 {
      seps := [];
      assert s[i..] == "" + s[i..];
    } else {
      var t, w := FieldsCons(s, i, count);
      var c: nat := count - 1;
      var g := Fields(s, w, c).value;
      var more := FieldsSound(s, w, c);
      var tok, gap := s[i..t], s[t..w];
      seps := [gap] + more;
      InterleaveCons(tok, gap, g.0, more);
      Assoc(tok + gap, Interleave(g.0, more), s[g.1..]);
    }
  }

  /** One more token and whitespace run in front. */
  lemma InterleaveCons(tok: string, gap: string, toks: seq<string>, seps: seq<string>)
    requires |toks| == |seps|
    ensures Interleave([tok] + toks, [gap] + seps) == tok + gap + Interleave(toks, seps)
    ensures forall k :: 1 <= k <= |toks| ==> ([tok] + toks)[k] == toks[k - 1] && ([gap] + seps)[k] == seps[k - 1]
  {
    assert ([tok] + toks)[1..] == toks && ([gap] + seps)[1..] == seps;
  }

  /** The first token and whitespace run `Fields` takes from position `i`,
      ending at `t` and `w`. */
  lemma FieldsCons(s: string, i: nat, count: nat) returns (t: nat, w: nat)
    requires i <= |s| && count > 0 && Fields(s, i, count).Some?
    ensures i < t < w <= |s| && Fields(s, w, count - 1).Some?
    ensures Fields(s, i, count).value.0 == [s[i..t]] + Fields(s, w, count - 1).value.0
    ensures Fields(s, i, count).value.1 == Fields(s, w, count - 1).value.1
    ensures Token(s[i..t]) && Gap(s[t..w])
    ensures w < |s| ==> !IsSpace(s[w])
    ensures s[i..] == s[i..t] + s[t..w] + s[w..]
  {
    t := TokenEnd(s, i);
    w := SpaceEnd(s, t);
    TokenEndRun(s, i);
    SpaceEndRun(s, t);
  }

  /** `parseLs` accepts exactly the lines of that shape, and returns the
      first token and the name. */
  lemma ParseLsComplete(line: string, toks: seq<string>, seps: seq<string>, path: string)
    requires LsLine(line, toks, seps, path)
    ensures ParseLs(line) == Ok(Ls(toks[0], path))
  {
    assert line[0..] == line;
    FieldsOf(line, 0, toks, seps, path);
    assert line[|line| - |path|..] == path;
  }

  lemma ParseLsSound(line: string) returns (toks: seq<string>, seps: seq<string>)
    requires ParseLs(line).Ok?
    ensures LsLine(line, toks, seps, ParseLs(line).value.path)
    ensures ParseLs(line).value.stat == toks[0]
  {
    toks := Fields(line, 0, FieldCount).value.0;
    seps := FieldsSound(line, 0, FieldCount);
    assert line[0..] == line;
  }

  /** The summary line `ls -l` prints first has two tokens, so it is refused. */
  lemma ParseLsTotal()
    ensures ParseLs("total 12K") == Err(InvalidLs)
  {
    var s := "total 12K";
    TokenEndAt(s, 0, 5);
    SpaceEndAt(s, 5, 6);
    TokenEndAt(s, 6, 9);
  }

  /** The sample line of the source, `drwxr-xr-x  6 luma luma 4.0K
      2021-09-18 11:05 vim/`, written as its seven columns and the gaps after
      them: a directory named `vim`. */
  lemma ParseLsExample(toks: seq<string>, seps: seq<string>)
    requires toks == ["drwxr-xr-x", "6", "luma", "luma", "4.0K", "2021-09-18", "11:05"]
    requires seps == ["  ", " ", " ", " ", " ", " ", " "]
    ensures ParseLs(Interleave(toks, seps) + "vim/") == Ok(Ls("drwxr-xr-x", "vim/"))
    ensures LsIsDir(ParseLs(Interleave(toks, seps) + "vim/").value)
  {
    ExampleColumns(toks, seps);
    ParseLsComplete(Interleave(toks, seps) + "vim/", toks, seps, "vim/");
  }

  lemma ExampleColumns(toks: seq<string>, seps: seq<string>)
    requires toks == ["drwxr-xr-x", "6", "luma", "luma", "4.0K", "2021-09-18", "11:05"]
    requires seps == ["  ", " ", " ", " ", " ", " ", " "]
    ensures forall k :: 0 <= k < FieldCount ==> Token(toks[k]) && Gap(seps[k])
  {
  }
}
