/** The virtual buffer names `ssher://user@host[:port]/path`: decoding a name
    into a target and a remote path, and encoding them back. */
module Names {
  import opened Common
  import opened Text

  /** The scheme every virtual buffer name starts with. */
  const Prefix: string := "ssher://"

  /** The SSH endpoint. */
  datatype Target = Target(user: string, host: string, port: Option<string>)

  /** A decoded buffer name: where, and which remote path. */
  datatype Params = Params(target: Target, path: string)

  /** `target.match(/^(.*)@(.*)(?::(\d+))?/)`: both groups stay on the first
      line; the first is greedy, so it runs to the LAST `@` of that line, and
      the second then takes the rest of the line, which leaves nothing for the
      optional port group. */
  function ParseTarget(t: string): (r: Result<Target>)
    ensures r.Err? <==> '@' !in t[..LineEnd(t)]
    ensures r.Err? ==> r.error == InvalidTarget
    ensures r.Ok? ==> r.value.port == None
    ensures r.Ok? ==> r.value.user + "@" + r.value.host == t[..LineEnd(t)] && '@' !in r.value.host
  {
    var line := t[..LineEnd(t)];
    var at := LastIndexOf(line, '@');
    if at < 0 then Err(InvalidTarget)
    else
      assert line == line[..at] + "@" + line[at + 1..];
      Ok(Target(line[..at], line[at + 1..], None))
  }

  /** Any text before an `@`-free host on one line is the user, whatever
      follows the first line break. */
  lemma ParseTargetOf(user: string, host: string, rest: string)
    requires '@' !in host
    requires NoLineTerminator(user) && NoLineTerminator(host)
    requires rest == [] || IsLineTerminator(rest[0])
    ensures ParseTarget(user + "@" + host + rest) == Ok(Target(user, host, None))
  {
    var t := user + "@" + host + rest;
    var line := user + "@" + host;
    assert t == line + rest;
    assert NoLineTerminator(line) by {
      assert forall i :: 0 <= i < |line| ==> line[i] == '@' || line[i] in user || line[i] in host;
    }
    LineEndOf(line, rest);
    var r := ParseTarget(t);
    assert r.Ok? by {
      assert line[|user|] == '@';
    }
    LastSplitUnique(r.value.user, r.value.host, user, host, '@');
  }

  lemma LineEndOf(line: string, rest: string)
    requires NoLineTerminator(line)
    requires rest == [] || IsLineTerminator(rest[0])
    ensures LineEnd(line + rest) == |line|
  {
    var s := line + rest;
    assert s[..|line|] == line;
    LineEndAt(s, |line|);
  }

  /** Splitting at a `c` that has none after it can be done only one way. */
  lemma LastSplitUnique(u: string, h: string, u': string, h': string, c: char)
    requires u + [c] + h == u' + [c] + h'
    requires c !in h && c !in h'
    ensures u == u' && h == h'
  {
    var s, s' := u + [c] + h, u' + [c] + h';
    assert s[|u| + 1..] == h && s'[|u'| + 1..] == h';
    LastIndexOfAt(s, c, |u|);
    LastIndexOfAt(s', c, |u'|);
    assert s[..|u|] == u && s'[..|u'|] == u';
  }

  /** Splitting at a `c` that has none before it can be done only one way. */
  lemma FirstSplitUnique(u: string, h: string, u': string, h': string, c: char)
    requires u + [c] + h == u' + [c] + h'
    requires c !in u && c !in u'
    ensures u == u' && h == h'
  {
    var s, s' := u + [c] + h, u' + [c] + h';
    assert s[..|u|] == u && s'[..|u'|] == u';
    IndexOfAt(s, c, |u|);
    IndexOfAt(s', c, |u'|);
    assert s[|u| + 1..] == h && s'[|u'| + 1..] == h';
  }

  /** `port ? `:${port}` : ""`: an absent port and an empty one are both left out. */
  function PortSuffix(port: Option<string>): string {
    if port.Some? && port.value != "" then ":" + port.value else ""
  }

  /** `constructName`: always a `/` between the target and the path. */
  function ConstructName(p: Params): (n: string)
    ensures IsSsherBufferName(n)
    ensures EndsWith(n, "/" + p.path)
  {
    Prefix + p.target.user + "@" + p.target.host + PortSuffix(p.target.port) + "/" + p.path
  }

  /** `dri.slice(prefix.length)`: the first eight characters are dropped
      without looking at them. */
  function NameBody(n: string): string {
    n[if |n| < |Prefix| then |n| else |Prefix|..]
  }

  /** The target text and the path of a name: the body is cut at its first
      `/`; when there is none the path is empty. */
  function SplitName(n: string): (r: (string, string))
    ensures var body := NameBody(n);
      if '/' in body then body == r.0 + "/" + r.1 && '/' !in r.0
      else body == r.0 && r.1 == ""
  {
    var body := NameBody(n);
    var i := IndexOf(body, '/');
    var cut := if i == -1 then |body| else i;
    assert i >= 0 ==> body == body[..cut] + "/" + body[cut + 1..];
    (body[..cut], if cut < |body| then body[cut + 1..] else "")
  }

  /** `parseName`: the target text parsed, the path kept as it is. */
  function ParseName(n: string): (r: Result<Params>)
    ensures r.Err? <==> ParseTarget(SplitName(n).0).Err?
    ensures r.Ok? ==> r.value.path == SplitName(n).1 && r.value.target.port == None
  {
    var (t, path) := SplitName(n);
    match ParseTarget(t)
    case Err(e) => Err(e)
    case Ok(target) => Ok(Params(target, path))
  }

  /** `isSsherBufferName`: the name is the prefix followed by the body that
      `parseName` reads. */
  predicate IsSsherBufferName(n: string)
    ensures IsSsherBufferName(n) <==> Prefix + NameBody(n) == n
  {
    StartsWith(n, Prefix)
  }

  /** `isDir` (and `lsIsDir`): a path that is empty or ends with `/`. */
  predicate IsDirPath(path: string) {
    EndsWith(path, "/") || path == ""
  }

  /** `isDir`: exactly the buffers whose name ends with `/`. */
  predicate IsDir(p: Params)
    ensures var n := ConstructName(p); IsDir(p) <==> n[|n| - 1] == '/'
  {
    var n := ConstructName(p);
    assert n[|n| - |"/" + p.path|..] == "/" + p.path;
    IsDirPath(p.path)
  }

  /** Decoding then encoding a name with a target and an explicit path gives
      back the same name. */
  lemma NameRoundTrip(t: string, path: string)
    requires '@' in t && '/' !in t && NoLineTerminator(t)
    ensures ParseName(Prefix + t + "/" + path).Ok?
    ensures ConstructName(ParseName(Prefix + t + "/" + path).value) == Prefix + t + "/" + path
  {
    SplitNameOf(t, path);
    TargetOnOneLine(t);
    ConstructNameOf(Params(ParseTarget(t).value, path), t);
  }

  /** The name of a target without a port whose text is `t`. */
  lemma ConstructNameOf(p: Params, t: string)
    requires p.target.port == None && p.target.user + "@" + p.target.host == t
    ensures ConstructName(p) == Prefix + t + "/" + p.path
  {
    var u, h := p.target.user, p.target.host;
    assert PortSuffix(p.target.port) == "";
    assert ConstructName(p) == Prefix + u + "@" + h + "" + "/" + p.path;
    assert Prefix + u + "@" + h + "" == Prefix + u + "@" + h;
    Assoc(Prefix, u, "@");
    Assoc(Prefix, u + "@", h);
  }

  lemma SplitNameOf(t: string, path: string)
    requires '/' !in t
    ensures SplitName(Prefix + t + "/" + path) == (t, path)
  {
    var n := Prefix + t + "/" + path;
    var body := t + "/" + path;
    assert NameBody(n) == body;
    assert body[|t|] == '/';
    var sp := SplitName(n);
    FirstSplitUnique(sp.0, sp.1, t, path, '/');
  }

  /** A name with no `/` after its target decodes to the empty path, so
      encoding it again appends one `/`. */
  lemma NameRoundTripNoSlash(t: string)
    requires '@' in t && '/' !in t && NoLineTerminator(t)
    ensures ParseName(Prefix + t).Ok? && ParseName(Prefix + t).value.path == ""
    ensures ConstructName(ParseName(Prefix + t).value) == Prefix + t + "/"
  {
    var n := Prefix + t;
    assert NameBody(n) == t;
    assert SplitName(n) == (t, "");
    TargetOnOneLine(t);
    ConstructNameOf(Params(ParseTarget(t).value, ""), t);
    assert Prefix + t + "/" + "" == Prefix + t + "/";
  }

  lemma TargetOnOneLine(t: string)
    requires '@' in t && NoLineTerminator(t)
    ensures ParseTarget(t).Ok?
    ensures ParseTarget(t).value.user + "@" + ParseTarget(t).value.host == t
  {
    LineEndOf(t, "");
    assert t + "" == t;
    assert t[..|t|] == t;
  }

  lemma SplitAtFirst(t: string, path: string)
    requires '/' !in t
    ensures var s := t + "/" + path; '/' in s && IndexOf(s, '/') == |t|
  {
    var s := t + "/" + path;
    assert s[|t|] == '/';
    assert s[..|t|] == t;
  }

  /** Encoding then decoding: a target without a port, whose user and host
      keep to one line and hold no `/`, and whose host holds no `@`, comes
      back unchanged with any path. */
  lemma ParamsRoundTrip(p: Params)
    requires p.target.port == None
    requires '/' !in p.target.user && '/' !in p.target.host && '@' !in p.target.host
    requires NoLineTerminator(p.target.user) && NoLineTerminator(p.target.host)
    ensures ParseName(ConstructName(p)) == Ok(p)
  {
    var Target(user, host, _) := p.target;
    var t := user + "@" + host;
    assert '/' !in t by {
      assert forall i :: 0 <= i < |t| ==> t[i] == '@' || t[i] in user || t[i] in host;
    }
    ConstructNameOf(p, t);
    assert NameBody(ConstructName(p)) == t + "/" + p.path;
    SplitAtFirst(t, p.path);
    assert SplitName(ConstructName(p)) == (t, p.path) by {
      var s := t + "/" + p.path;
      assert s[..|t|] == t;
    }
    ParseTargetOf(user, host, "");
    assert t + "" == t;
  }

  /** With a port the round trip fails: the greedy host group swallows the
      `:port`, and the decoded target has no port. */
  lemma PortBecomesPartOfHost(p: Params, port: string)
    requires p.target.port == Some(port) && port != ""
    requires '/' !in p.target.user && '/' !in p.target.host && '@' !in p.target.host
    requires '/' !in port && '@' !in port
    requires NoLineTerminator(p.target.user) && NoLineTerminator(p.target.host) && NoLineTerminator(port)
    ensures ParseName(ConstructName(p)) ==
      Ok(Params(Target(p.target.user, p.target.host + ":" + port, None), p.path))
  {
    var host := p.target.host + ":" + port;
    var q := Params(Target(p.target.user, host, None), p.path);
    assert '@' !in host && '/' !in host by {
      assert forall i :: 0 <= i < |host| ==> host[i] == ':' || host[i] in p.target.host || host[i] in port;
    }
    assert NoLineTerminator(host) by {
      assert forall i :: 0 <= i < |host| ==> host[i] == ':' || host[i] in p.target.host || host[i] in port;
    }
    assert ConstructName(p) == ConstructName(q);
    ParamsRoundTrip(q);
  }

  /** A decoded name is a directory exactly when the name has no `/` after
      the prefix or ends with `/`. */
  lemma IsDirOfName(n: string)
    requires ParseName(n).Ok?
    ensures IsDir(ParseName(n).value) <==> ('/' !in NameBody(n) || EndsWith(n, "/"))
  {
    var body := NameBody(n);
    var sp := SplitName(n);
    EndsWithSlash(n);
    EndsWithSlash(sp.1);
    if '/' in body {
      SlashTail(n, body, sp.0, sp.1);
    }
  }

  /** A text that ends with `a/b` ends with `/` exactly when `b` is empty
      or ends with `/`. */
  lemma SlashTail(n: string, body: string, a: string, b: string)
    requires |body| <= |n| && n[|n| - |body|..] == body && body == a + "/" + b
    ensures n != [] && (n[|n| - 1] == '/' <==> b == [] || b[|b| - 1] == '/')
  {
    var k := |n| - |body|;
    assert n == n[..k] + body;
    assert body == (a + "/") + b;
    LastOfSum(n, n[..k], body);
    if b != "" {
      LastOfSum(body, a + "/", b);
    } else {
      assert body == a + "/";
    }
  }

  lemma EndsWithSlash(s: string)
    ensures EndsWith(s, "/") <==> s != [] && s[|s| - 1] == '/'
  {
    if s != [] {
      assert s[|s| - 1..] == [s[|s| - 1]];
    }
  }
}
