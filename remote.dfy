/** The remote side: the `ssh` argument vectors `runSsh` starts, the commands
    `setupBuffer` runs, and the bytes `runScp` writes to the standard input
    of `scp -qt`, which follow the `C` control record of the rcp/scp
    protocol. */
module Remote {
  import opened Common
  import opened Text
  import opened Names
  import Utf8
  import PosixPath

  /** `target.port ? ["-p", target.port] : []`. */
  function PortArgs(port: Option<string>): seq<string> {
    if port.Some? && port.value != "" then ["-p", port.value] else []
  }

  /** `runSsh(target, cmd)`: `ssh`, the destination, the port option, then
      the remote command, one argument each. */
  function SshArgv(target: Target, cmd: seq<string>): (argv: seq<string>)
    ensures |argv| >= 2 + |cmd|
    ensures argv[0] == "ssh" && argv[1] == target.user + "@" + target.host
    ensures argv[|argv| - |cmd|..] == cmd
    ensures var opts := argv[2..|argv| - |cmd|];
      (opts == [] <==> PortSuffix(target.port) == "")
      && (opts != [] ==> opts == ["-p", target.port.value] && PortSuffix(target.port) == ":" + target.port.value)
  {
    var argv := ["ssh", target.user + "@" + target.host] + PortArgs(target.port) + cmd;
    assert argv[2..|argv| - |cmd|] == PortArgs(target.port);
    argv
  }

  /** What `setupBuffer` starts for a buffer: a listing for a directory, or
      a `stat` for the permissions followed by a `cat` for a file. */
  datatype SetupPlan =
    | ListDir(ls: seq<string>)
    | ReadFile(stat: seq<string>, cat: seq<string>)

  /** The remote commands, before `ssh` is put in front of them. */
  function LsCommand(path: string): seq<string> {
    ["ls", "-lFah", "--time-style=long-iso"] + (if path != "" then [path] else [])
  }

  function StatCommand(path: string): seq<string> {
    ["stat", "--format=%A", "--", path]
  }

  function CatCommand(path: string): seq<string> {
    ["cat", path]
  }

  /** The branch at the top of `setupBuffer`: a directory is listed, with
      the path given only when it is not empty, which lists the login
      directory; a file is read, and its path is the last argument of both
      commands. */
  function PlanSetup(p: Params): (plan: SetupPlan)
    ensures plan.ListDir? <==> IsDir(p)
    ensures plan.ListDir? ==> plan.ls == SshArgv(p.target, LsCommand(p.path))
    ensures plan.ListDir? ==> (p.path == "" <==> |LsCommand(p.path)| == 3)
    ensures plan.ReadFile? ==> plan.stat == SshArgv(p.target, StatCommand(p.path))
    ensures plan.ReadFile? ==> plan.cat == SshArgv(p.target, CatCommand(p.path))
    ensures plan.ReadFile? ==> plan.stat[|plan.stat| - 1] == p.path && plan.cat[|plan.cat| - 1] == p.path
  {
    if IsDir(p) then ListDir(SshArgv(p.target, LsCommand(p.path)))
    else ReadFile(SshArgv(p.target, StatCommand(p.path)), SshArgv(p.target, CatCommand(p.path)))
  }

  /** The `ssh` command of `runScp`: the remote `scp` in sink mode, quiet,
      writing to the buffer's path. */
  function ScpArgv(p: Params): (argv: seq<string>)
    ensures |argv| >= 6 && argv[|argv| - 4..] == ["scp", "-qt", "--", p.path]
  {
    SshArgv(p.target, ["scp", "-qt", "--", p.path])
  }

  /** The control line `C0<perm> <length> <basename>\n`. */
  function ScpHeader(perm: string, size: nat, name: string): (h: string)
    ensures |h| > 2 && h[..2] == "C0" && h[|h| - 1] == '\n'
    ensures '\n' !in perm && '\n' !in name ==> '\n' !in h[..|h| - 1]
    ensures |perm| == 3 && IsOctal(perm) && name != "" && name != ".." && '/' !in name ==>
      ParseControl(h[..|h| - 1]) == Some(("0" + perm, size, name))
  {
    var line := "C0" + perm + " " + Decimal(size) + " " + name;
    HeaderLine(perm, size, name);
    HeaderParses(perm, size, name);
    line + "\n"
  }

  /** A three-digit octal perm and a usable name make a control line the
      sink reads back. */
  lemma HeaderParses(perm: string, size: nat, name: string)
    ensures |perm| == 3 && IsOctal(perm) && name != "" && name != ".." && '/' !in name ==>
      ParseControl("C0" + perm + " " + Decimal(size) + " " + name) == Some(("0" + perm, size, name))
  {
    if |perm| == 3 && IsOctal(perm) && name != "" && name != ".." && '/' !in name {
      ControlRoundTrip(perm, size, name);
    }
  }

  /** The control line ends at its only newline when the parts hold none. */
  lemma HeaderLine(perm: string, size: nat, name: string)
    ensures var line := "C0" + perm + " " + Decimal(size) + " " + name;
      var h := line + "\n";
      h[..2] == "C0" && h[..|h| - 1] == line
      && ('\n' !in perm && '\n' !in name ==> '\n' !in line)
  {
    DecimalNoSpace(size);
  }

  /** All the bytes `runScp` writes, in order: the encoded control line, the
      data, and one zero byte. */
  function ScpStream(data: seq<byte>, perm: string, path: string): (b: seq<byte>)
    ensures |b| == |Utf8.Encode(ScpHeader(perm, |data|, PosixPath.Basename(path)))| + |data| + 1
    ensures b[|b| - 1] == 0
    ensures var h := Utf8.Encode(ScpHeader(perm, |data|, PosixPath.Basename(path)));
      b[..|h|] == h && b[|h|..|b| - 1] == data
  {
    var h := Utf8.Encode(ScpHeader(perm, |data|, PosixPath.Basename(path)));
    StreamLayout(h, data);
    h + data + [0]
  }

  lemma StreamLayout(h: seq<byte>, data: seq<byte>)
    ensures var b := h + data + [0];
      |b| == |h| + |data| + 1 && b[|b| - 1] == 0 && b[..|h|] == h && b[|h|..|b| - 1] == data
  {
  }

  /** One file as the sink receives it. */
  datatype Record = Record(mode: string, size: nat, name: string, data: seq<byte>)

  predicate IsOctal(s: string) {
    forall i :: 0 <= i < |s| ==> '0' <= s[i] <= '7'
  }

  /** A control line without its newline, read the way the sink reads it:
      `C`, four octal digits, a space, the length in decimal, a space, and a
      name that is neither empty, nor `..`, nor holds a `/`. */
  function ParseControl(h: string): (r: Option<(string, nat, string)>)
    ensures r.Some? ==> IsOctal(r.value.0) && |r.value.0| == 4
  {
    if |h| < 6 || h[0] != 'C' || !IsOctal(h[1..5]) || h[5] != ' ' then None
    else
      var rest := h[6..];
      var sp := IndexOf(rest, ' ');
      if sp <= 0 || !IsDigits(rest[..sp]) then None
      else
        var name := rest[sp + 1..];
        if name == "" || name == ".." || '/' in name then None
        else Some((h[1..5], DigitsValue(rest[..sp]), name))
  }

  /** The sink's view of the stream: the control line up to the first
      newline byte, exactly `size` bytes of data, and the zero byte that
      acknowledges the end; also what follows. */
  function ParseRecord(b: seq<byte>): Option<(Record, seq<byte>)> {
    var nl := IndexOf(b, 10);
    if nl < 0 then None
    else match Utf8.DecodeScalars(b[..nl])
      case None => None
      case Some(h) =>
        match ParseControl(h)
        case None => None
        case Some(c) =>
          var body := b[nl + 1..];
          if |body| <= c.1 || body[c.1] != 0 then None
          else Some((Record(c.0, c.1, c.2, body[..c.1]), body[c.1 + 1..]))
  }

  /** The stream `runScp` writes is one record the sink accepts, with mode
      `0<perm>`, the length of the data, the last segment of the path as the
      name, and the data itself; nothing is left over. */
  lemma ScpStreamRoundTrip(data: seq<byte>, perm: string, path: string)
    requires |perm| == 3 && IsOctal(perm)
    requires var name := PosixPath.Basename(path); name != "" && name != ".." && '\n' !in name
    ensures ParseRecord(ScpStream(data, perm, path))
      == Some((Record("0" + perm, |data|, PosixPath.Basename(path), data), []))
  {
    var name := PosixPath.Basename(path);
    var line := "C0" + perm + " " + Decimal(|data|) + " " + name;
    HeaderBytes(perm, |data|, name);
    Utf8.EncodeAsciiByte(line, 10);
    Utf8.DecodeScalarsEncode(line);
    ControlRoundTrip(perm, |data|, name);
    RecordOf(Utf8.Encode(line), data, "0" + perm, name);
  }

  /** The control line is encoded as its text's bytes and one newline byte,
      and the text holds no other newline. */
  lemma HeaderBytes(perm: string, size: nat, name: string)
    requires '\n' !in perm && '\n' !in name
    ensures var line := "C0" + perm + " " + Decimal(size) + " " + name;
      '\n' !in line && Utf8.Encode(ScpHeader(perm, size, name)) == Utf8.Encode(line) + [10]
  {
    var digits := Decimal(size);
    var line := "C0" + perm + " " + digits + " " + name;
    assert ScpHeader(perm, size, name) == line + "\n";
    Utf8.EncodeAppend(line, "\n");
    assert Utf8.Encode("\n") == [10];
    DecimalNoSpace(size);
    assert forall i :: 0 <= i < |line| ==> i < 2 || line[i] in perm || line[i] == ' ' || line[i] in digits || line[i] in name;
  }

  /** A control line's bytes free of newlines, a newline, the data and a
      zero byte make one record. */
  lemma RecordOf(e: seq<byte>, data: seq<byte>, mode: string, name: string)
    requires 10 !in e
    requires Utf8.DecodeScalars(e).Some? && ParseControl(Utf8.DecodeScalars(e).value) == Some((mode, |data|, name))
    ensures ParseRecord(e + [10] + data + [0]) == Some((Record(mode, |data|, name, data), []))
  {
    RecordLayout(e, data);
  }

  /** Where the pieces of a record stand in its bytes. */
  lemma RecordLayout(e: seq<byte>, data: seq<byte>)
    requires 10 !in e
    ensures var b := e + [10] + data + [0]; var body := b[|e| + 1..];
      IndexOf(b, 10) == |e| && b[..|e|] == e
      && |body| == |data| + 1 && body[|data|] == 0 && body[..|data|] == data && body[|data| + 1..] == []
  {
    var b := e + [10] + data + [0];
    assert b[..|e|] == e && b[|e|] == 10;
    IndexOfAt(b, 10, |e|);
    var body := b[|e| + 1..];
    assert body == data + [0];
    assert body[..|data|] == data;
  }

  lemma DecimalNoSpace(n: nat)
    ensures ' ' !in Decimal(n) && '\n' !in Decimal(n)
  {
    var d := Decimal(n);
    assert forall i :: 0 <= i < |d| ==> '0' <= d[i] <= '9';
  }

  lemma ControlRoundTrip(perm: string, size: nat, name: string)
    requires |perm| == 3 && IsOctal(perm)
    requires name != "" && name != ".." && '/' !in name
    ensures ParseControl("C0" + perm + " " + Decimal(size) + " " + name) == Some(("0" + perm, size, name))
  {
    var digits := Decimal(size);
    var rest := digits + " " + name;
    ControlHead(perm, rest);
    assert "C0" + perm + " " + digits + " " + name == "C0" + perm + " " + rest;
    DecimalNoSpace(size);
    ControlTail(digits, name);
    DecimalValue(size);
  }

  /** The fixed-width start of a control line: `C`, the mode, a space. */
  lemma ControlHead(perm: string, rest: string)
    requires |perm| == 3 && IsOctal(perm)
    ensures var h := "C0" + perm + " " + rest;
      |h| >= 6 && h[0] == 'C' && h[1..5] == "0" + perm && IsOctal(h[1..5]) && h[5] == ' ' && h[6..] == rest
  {
    var h := "C0" + perm + " " + rest;
    assert h[1..5] == "0" + perm;
  }

  /** The length ends at the first space, and the name is what follows it. */
  lemma ControlTail(digits: string, name: string)
    requires ' ' !in digits
    ensures var rest := digits + " " + name;
      IndexOf(rest, ' ') == |digits| && rest[..|digits|] == digits && rest[|digits| + 1..] == name
  {
    var rest := digits + " " + name;
    assert rest[..|digits|] == digits && rest[|digits|] == ' ';
    IndexOfAt(rest, ' ', |digits|);
  }
}
