/** The POSIX variants of `path.normalize`, `path.join` and `path.basename`
    from the Deno standard library, described by what they do to the
    `/`-separated segments of a path. */
module PosixPath {
  import opened Text

  /** `s.split(sep)`: the pieces between separators, empty ones included. */
  function SplitOn(s: string, sep: char): (r: seq<string>)
    ensures |r| >= 1
    decreases |s|
  {
    var i := IndexOf(s, sep);
    if i < 0 then [s] else [s[..i]] + SplitOn(s[i + 1..], sep)
  }

  /** No segment holds the separator. */
  lemma {:induction false} SplitOnFree(s: string, sep: char)
    ensures forall k :: 0 <= k < |SplitOn(s, sep)| ==> sep !in SplitOn(s, sep)[k]
    decreases |s|
  {
    var i := IndexOf(s, sep);
    if i >= 0 {
      var r := SplitOn(s[i + 1..], sep);
      SplitOnFree(s[i + 1..], sep);
      assert SplitOn(s, sep) == [s[..i]] + r;
      assert forall k :: 0 < k <= |r| ==> ([s[..i]] + r)[k] == r[k - 1];
    } else {
      assert SplitOn(s, sep) == [s];
    }
  }

  /** The first separator ends the first segment. */
  lemma SplitOnAt(s: string, sep: char, i: nat)
    requires i < |s| && s[i] == sep && sep !in s[..i]
    ensures SplitOn(s, sep) == [s[..i]] + SplitOn(s[i + 1..], sep)
  {
    IndexOfAt(s, sep, i);
  }

  /** A separator-free text and a separator in front of `b` make one
      segment more than `b`. */
  lemma SplitOnCons(a: string, b: string, sep: char)
    requires sep !in a
    ensures SplitOn(a + [sep] + b, sep) == [a] + SplitOn(b, sep)
  {
    var s := a + [sep] + b;
    assert s[..|a|] == a && s[|a|] == sep && s[|a| + 1..] == b;
    SplitOnAt(s, sep, |a|);
  }

  /** `segs.join(sep)`. */
  function JoinWith(segs: seq<string>, sep: char): string {
    if segs == [] then ""
    else if |segs| == 1 then segs[0]
    else segs[0] + [sep] + JoinWith(segs[1..], sep)
  }

  /** Splitting a join of separator-free pieces gives back the pieces. */
  lemma {:induction false} SplitJoin(segs: seq<string>, sep: char)
    requires |segs| >= 1
    requires forall k :: 0 <= k < |segs| ==> sep !in segs[k]
    ensures SplitOn(JoinWith(segs, sep), sep) == segs
  {
    if |segs| > 1 {
      var s := JoinWith(segs, sep);
      var h := segs[0];
      assert s == h + ([sep] + JoinWith(segs[1..], sep));
      assert s[..|h|] == h && s[|h|] == sep;
      assert IndexOf(s, sep) == |h| by {
        assert sep !in s[..|h|];
      }
      assert s[|h| + 1..] == JoinWith(segs[1..], sep);
      SplitJoin(segs[1..], sep);
    }
  }

  /** One step of resolving `.` and `..`: a `..` removes the last kept
      segment unless that is itself a `..`; a relative path keeps the `..`
      segments that climb above its start. */
  function PushSegment(stack: seq<string>, seg: string, allowAboveRoot: bool): seq<string> {
    if seg == "" || seg == "." then stack
    else if seg == ".." then
      if |stack| > 0 && stack[|stack| - 1] != ".." then stack[..|stack| - 1]
      else if allowAboveRoot then stack + [".."]
      else stack
    else stack + [seg]
  }

  /** The segments that remain once `.`, `..` and empty segments have been
      resolved from left to right. */
  function Resolve(segs: seq<string>, allowAboveRoot: bool): seq<string>
    decreases |segs|
  {
    if segs == [] then []
    else PushSegment(Resolve(segs[..|segs| - 1], allowAboveRoot), segs[|segs| - 1], allowAboveRoot)
  }

  /** A resolved path is made of proper segments, with every `..` at its
      start. */
  ghost predicate Canonical(segs: seq<string>, allowAboveRoot: bool) {
    (forall k :: 0 <= k < |segs| ==> segs[k] != "" && segs[k] != ".")
    && (forall j, k :: 0 <= j < k < |segs| && segs[j] != ".." ==> segs[k] != "..")
    && (!allowAboveRoot ==> forall k :: 0 <= k < |segs| ==> segs[k] != "..")
  }

  lemma {:induction false} ResolveCanonical(segs: seq<string>, allowAboveRoot: bool)
    ensures Canonical(Resolve(segs, allowAboveRoot), allowAboveRoot)
    decreases |segs|
  {
    if segs != [] {
      ResolveCanonical(segs[..|segs| - 1], allowAboveRoot);
    }
  }

  lemma {:induction false} ResolveNoSeparator(segs: seq<string>, allowAboveRoot: bool)
    requires forall k :: 0 <= k < |segs| ==> '/' !in segs[k]
    ensures forall k :: 0 <= k < |Resolve(segs, allowAboveRoot)| ==> '/' !in Resolve(segs, allowAboveRoot)[k]
    decreases |segs|
  {
    if segs != [] {
      var pre := segs[..|segs| - 1];
      assert forall k :: 0 <= k < |pre| ==> pre[k] == segs[k];
      ResolveNoSeparator(pre, allowAboveRoot);
      var st := Resolve(pre, allowAboveRoot);
      var seg := segs[|segs| - 1];
      var r := PushSegment(st, seg, allowAboveRoot);
      assert '/' !in ".." && '/' !in seg;
      forall k | 0 <= k < |r| ensures '/' !in r[k] {
        assert r[k] == seg || r[k] == ".." || r[k] == st[k];
      }
    }
  }

  /** `path.normalize(p)` on POSIX. */
  function Normalize(p: string): (r: string)
    ensures r != ""
    ensures EndsWith(p, "/") ==> EndsWith(r, "/")
  {
    if p == "" then "."
    else
      var absolute := p[0] == '/';
      var trailing := p[|p| - 1] == '/';
      var segs := Resolve(SplitOn(p, '/'), !absolute);
      ResolveCanonical(SplitOn(p, '/'), !absolute);
      var body := JoinWith(segs, '/');
      var body' := if body == "" && !absolute then "." else body;
      var body'' := if body' != "" && trailing then body' + "/" else body';
      if absolute then "/" + body'' else body''
  }

  /** A normalized path starts with `./` only when it is `./` itself: the
      resolved segments are never `.`. */
  lemma NormalizeDotForms(p: string)
    ensures var r := Normalize(p); StartsWith(r, "./") ==> r == "./"
  {
    if p != "" && p[0] != '/' {
      var segs := Resolve(SplitOn(p, '/'), true);
      NormalizeRelative(p);
      if segs != [] {
        ResolveCanonical(SplitOn(p, '/'), true);
        SplitOnFree(p, '/');
        ResolveNoSeparator(SplitOn(p, '/'), true);
        ResolvedNotDot(segs);
      } else {
        assert JoinWith(segs, '/') == "";
      }
    }
  }

  /** A relative path normalizes to its resolved segments joined, `.` for
      none, with the trailing `/` kept. */
  lemma NormalizeRelative(p: string)
    requires p != "" && p[0] != '/'
    ensures var body := JoinWith(Resolve(SplitOn(p, '/'), true), '/');
      var body' := if body == "" then "." else body;
      Normalize(p) == if p[|p| - 1] == '/' then body' + "/" else body'
  {
  }

  lemma ResolvedNotDot(segs: seq<string>)
    requires segs != [] && Canonical(segs, true)
    requires forall k :: 0 <= k < |segs| ==> '/' !in segs[k]
    ensures var body := JoinWith(segs, '/'); body != "" && body != "." && !StartsWith(body, "./")
  {
    var body := JoinWith(segs, '/');
    JoinedHead(segs, '/');
    if StartsWith(body, "./") {
      IndexOfFirst(body, '/', 1);
    }
  }

  /** The first piece of a join of non-empty, separator-free pieces is the
      first piece, and the join is not empty. */
  lemma JoinedHead(segs: seq<string>, sep: char)
    requires |segs| >= 1
    requires forall k :: 0 <= k < |segs| ==> sep !in segs[k] && segs[k] != ""
    ensures var s := JoinWith(segs, sep); s != "" && SplitOn(s, sep)[0] == segs[0]
  {
    SplitJoin(segs, sep);
  }

  lemma IndexOfFirst(s: string, x: char, i: nat)
    requires i < |s| && s[i] == x && x !in s[..i]
    ensures IndexOf(s, x) == i
  {
  }

  /** `path.join(a, b)` on POSIX: the non-empty arguments joined by `/`,
      then normalized. */
  function Join(a: string, b: string): (r: string)
    ensures EndsWith(b, "/") ==> EndsWith(r, "/")
  {
    var joined := if a == "" then b else if b == "" then a else a + "/" + b;
    assert EndsWith(b, "/") ==> EndsWith(joined, "/");
    if joined == "" then "." else Normalize(joined)
  }

  /** `p` without its trailing `/` run. */
  function TrimTrailingSlashes(p: string): (r: string)
    ensures |r| <= |p| && r == p[..|r|]
    ensures forall k :: |r| <= k < |p| ==> p[k] == '/'
    ensures r == [] || r[|r| - 1] != '/'
  {
    if p != [] && p[|p| - 1] == '/' then TrimTrailingSlashes(p[..|p| - 1]) else p
  }

  /** `path.basename(p)` on POSIX: the last segment, trailing slashes
      ignored. */
  function Basename(p: string): (r: string)
    ensures '/' !in r
    ensures var t := TrimTrailingSlashes(p);
      EndsWith(t, r) && (|r| == |t| || t[|t| - |r| - 1] == '/')
  {
    var t := TrimTrailingSlashes(p);
    var i := LastIndexOf(t, '/');
    t[i + 1..]
  }
}
