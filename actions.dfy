/** What the dispatcher entries `onEnter` and `onSave` compute: the buffer
    to open for the listing line under the cursor, and the `scp` push that
    writes a file buffer back. */
module Actions {
  import opened Common
  import opened Text
  import opened Names
  import opened Listing
  import opened Remote
  import Utf8
  import PosixPath

  /** `normalizePath`: `path.normalize`, with the two spellings of the
      current directory turned into the empty path. */
  function NormalizePath(p: string): (r: string)
    ensures r != "." && !StartsWith(r, "./")
    ensures r == "" <==> PosixPath.Normalize(p) in {".", "./"}
    ensures r != "" ==> r == PosixPath.Normalize(p)
    ensures EndsWith(p, "/") ==> IsDirPath(r)
  {
    var t := PosixPath.Normalize(p);
    PosixPath.NormalizeDotForms(p);
    if t == "." then "" else if t == "./" then "" else t
  }

  /** The path `onEnter` writes into the `:e` name: the listed name
      resolved against the current path. */
  function EnterPath(cur: string, entry: string): (r: string)
    ensures EndsWith(entry, "/") ==> IsDirPath(r)
  {
    NormalizePath(PosixPath.Join(cur, entry))
  }

  /** `onEnter`: the buffer name is decoded first, then the line is read as
      a listing line; either can fail. On success the name in the `:e`
      command has the same target and the new path. */
  function OnEnter(bufname: string, line: string): (r: Result<string>)
    ensures ParseName(bufname).Err? ==> r == Err(InvalidTarget)
    ensures ParseName(bufname).Ok? && ParseLs(line).Err? ==> r == Err(InvalidLs)
    ensures r.Ok? <==> ParseName(bufname).Ok? && ParseLs(line).Ok?
    ensures r.Ok? ==> |r.value| >= 3 && r.value[..3] == ":e " && IsSsherBufferName(r.value[3..])
  {
    match ParseName(bufname)
    case Err(e) => Err(e)
    case Ok(params) =>
      match ParseLs(line)
      case Err(e) => Err(e)
      case Ok(ls) =>
        var name := ConstructName(Params(params.target, EnterPath(params.path, ls.path)));
        assert (":e " + name)[3..] == name;
        Ok(":e " + name)
  }

  /** A decoded target stays on one line, has no `/` in it, and no `@` in
      its host, so it encodes and decodes again unchanged. */
  lemma ParsedTargetClean(n: string)
    requires ParseName(n).Ok?
    ensures var t := ParseName(n).value.target;
      t.port == None && '/' !in t.user && '/' !in t.host && '@' !in t.host
      && NoLineTerminator(t.user) && NoLineTerminator(t.host)
  {
    var s := SplitName(n).0;
    var t := ParseTarget(s).value;
    var line := s[..LineEnd(s)];
    PrefixFree(s, LineEnd(s), '/');
    PartsFree(t.user, t.host, line);
  }

  /** A character missing from a text is missing from its prefixes too. */
  lemma PrefixFree(s: string, k: nat, c: char)
    requires k <= |s| && c !in s
    ensures c !in s[..k]
  {
  }

  /** The two sides of an `@` keep what the whole text keeps out. */
  lemma PartsFree(u: string, h: string, w: string)
    requires u + "@" + h == w
    ensures '/' !in w ==> '/' !in u && '/' !in h
    ensures NoLineTerminator(w) ==> NoLineTerminator(u) && NoLineTerminator(h)
  {
    assert w[..|u|] == u && w[|u| + 1..] == h;
    assert forall i :: 0 <= i < |u| ==> u[i] == w[i];
    assert forall i :: 0 <= i < |h| ==> h[i] == w[|u| + 1 + i];
  }

  /** The name in the `:e` command `onEnter` gives decodes to the current
      target and the new path; for a listed directory, which `ls -F` marks
      with a trailing `/`, that name is a directory name. */
  lemma OnEnterTarget(bufname: string, line: string)
    requires OnEnter(bufname, line).Ok?
    ensures var p := ParseName(bufname).value;
      ParseName(OnEnter(bufname, line).value[3..])
        == Ok(Params(p.target, EnterPath(p.path, ParseLs(line).value.path)))
    ensures EndsWith(ParseLs(line).value.path, "/") ==> IsDir(ParseName(OnEnter(bufname, line).value[3..]).value)
  {
    var p := ParseName(bufname).value;
    var q := Params(p.target, EnterPath(p.path, ParseLs(line).value.path));
    ParsedTargetClean(bufname);
    ParamsRoundTrip(q);
    assert OnEnter(bufname, line).value[3..] == ConstructName(q);
  }

  /** A name that `ls` lists inside a directory, other than `.` and `..`. */
  predicate ProperSegment(seg: string) {
    seg != "" && seg != "." && seg != ".." && '/' !in seg
  }

  /** From the login directory, the path in the name of the `:e` command
      for a listed entry is that entry. */
  lemma EnterFromHome(seg: string)
    requires ProperSegment(seg)
    ensures EnterPath("", seg) == seg
  {
    assert PosixPath.Join("", seg) == PosixPath.Normalize(seg);
    NormalizeSegment(seg);
  }

  lemma NormalizeSegment(seg: string)
    requires ProperSegment(seg)
    ensures PosixPath.Normalize(seg) == seg
  {
    assert PosixPath.SplitOn(seg, '/') == [seg];
    assert [seg][..0] == [];
    assert PosixPath.Resolve([seg], true) == [seg];
    assert seg[0] in seg && seg[|seg| - 1] in seg;
  }

  /** Entering `..` inside a first-level directory goes back to the login
      directory, which is the empty path. */
  lemma EnterParent(seg: string)
    requires ProperSegment(seg)
    ensures EnterPath(seg + "/", "..") == ""
  {
    var p := seg + "/" + "/" + "..";
    assert PosixPath.Join(seg + "/", "..") == PosixPath.Normalize(p);
    assert p[0] == seg[0] && p[|p| - 1] == '.';
    SplitParent(seg, p);
    ResolveParent(seg);
    NormalizeToDot(p);
  }

  lemma SplitParent(seg: string, p: string)
    requires ProperSegment(seg) && p == seg + "/" + "/" + ".."
    ensures PosixPath.SplitOn(p, '/') == [seg, "", ".."]
  {
    assert p == seg + ['/'] + "/..";
    PosixPath.SplitOnCons(seg, "/..", '/');
    SplitSlashDots();
  }

  lemma SplitSlashDots()
    ensures PosixPath.SplitOn("/..", '/') == ["", ".."]
  {
    assert IndexOf("/..", '/') == 0 && "/.."[..0] == "" && "/.."[1..] == "..";
    assert IndexOf("..", '/') == -1;
  }

  lemma ResolveParent(seg: string)
    requires ProperSegment(seg)
    ensures PosixPath.Resolve([seg, "", ".."], true) == []
  {
    var segs := [seg, "", ".."];
    assert segs[..2] == [seg, ""] && [seg, ""][..1] == [seg] && [seg][..0] == [];
    assert PosixPath.Resolve([seg], true) == [seg];
    assert PosixPath.Resolve([seg, ""], true) == [seg];
  }

  lemma NormalizeToDot(p: string)
    requires p != "" && p[0] != '/' && p[|p| - 1] != '/'
    requires PosixPath.Resolve(PosixPath.SplitOn(p, '/'), true) == []
    ensures PosixPath.Normalize(p) == "."
  {
  }

  /** `lines.map((line) => `${line}\n`).join("")`. */
  function Unlines(lines: seq<string>): (s: string)
    ensures lines == [] <==> s == ""
    ensures lines != [] ==> s[|s| - 1] == '\n'
  {
    if lines == [] then "" else lines[0] + "\n" + Unlines(lines[1..])
  }

  /** The bytes a save sends. */
  function SavePayload(lines: seq<string>): (b: seq<byte>)
    ensures b == [] <==> lines == []
    ensures Utf8.DecodeScalars(b) == Some(Unlines(lines))
  {
    Utf8.DecodeScalarsEncode(Unlines(lines));
    Utf8.Encode(Unlines(lines))
  }

  lemma SavePayloadExample()
    ensures Unlines(["a", "b"]) == "a\nb\n"
    ensures SavePayload(["a", "b"]) == [0x61, 0x0A, 0x62, 0x0A]
  {
    assert ["a", "b"][1..] == ["b"];
    assert Unlines(["b"]) == "b\n";
  }

  /** A push: the `ssh` command and what is written to its standard input. */
  datatype Push = Push(argv: seq<string>, stdin: seq<byte>)

  /** `onSave`, given the lines of the buffer and its `ssher_perm` variable
      (the empty string when it was never set): nothing is pushed for a
      directory buffer. */
  function OnSave(bufname: string, lines: seq<string>, perm: string): (r: Result<Option<Push>>)
    ensures r.Err? <==> ParseName(bufname).Err?
    ensures r.Err? ==> r.error == InvalidTarget
    ensures r.Ok? ==> (r.value.None? <==> IsDir(ParseName(bufname).value))
    ensures r.Ok? && r.value.Some? ==>
      r.value.value.argv == ScpArgv(ParseName(bufname).value)
      && r.value.value.stdin == ScpStream(SavePayload(lines), perm, ParseName(bufname).value.path)
  {
    match ParseName(bufname)
    case Err(e) => Err(e)
    case Ok(params) =>
      if IsDir(params) then Ok(None)
      else Ok(Some(Push(ScpArgv(params), ScpStream(SavePayload(lines), perm, params.path))))
  }

  /** A file path has a non-empty last segment. */
  lemma BasenameOfFile(path: string)
    requires !IsDirPath(path)
    ensures PosixPath.Basename(path) != ""
  {
    assert path[|path| - 1] != '/';
    assert PosixPath.TrimTrailingSlashes(path) == path;
  }

  /** What the remote `scp` receives for a saved file buffer: one file,
      named after the last segment of the path, with mode `0<perm>`, whose
      content is the lines each ended by a newline. */
  lemma OnSaveDelivers(bufname: string, lines: seq<string>, perm: string)
    requires ParseName(bufname).Ok? && !IsDir(ParseName(bufname).value)
    requires |perm| == 3 && IsOctal(perm)
    requires var name := PosixPath.Basename(ParseName(bufname).value.path); name != ".." && '\n' !in name
    ensures OnSave(bufname, lines, perm).Ok? && OnSave(bufname, lines, perm).value.Some?
    ensures var path := ParseName(bufname).value.path;
      ParseRecord(OnSave(bufname, lines, perm).value.value.stdin)
        == Some((Record("0" + perm, |SavePayload(lines)|, PosixPath.Basename(path), SavePayload(lines)), []))
    ensures Utf8.DecodeScalars(SavePayload(lines)) == Some(Unlines(lines))
  {
    var path := ParseName(bufname).value.path;
    BasenameOfFile(path);
    ScpStreamRoundTrip(SavePayload(lines), perm, path);
    Utf8.DecodeScalarsEncode(Unlines(lines));
  }
}
