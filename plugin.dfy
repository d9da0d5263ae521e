/** The two remote operations end to end: `setupBuffer` fills a buffer from
    what the remote commands print, and `runScp` writes a saved buffer to the
    standard input of the remote `scp`. Together with `onSave` they make a
    save followed by a reload give back the same lines, except for a
    leading U+FEFF, which the reload drops. */
module Plugin {
  import opened Common
  import opened Text
  import opened Names
  import opened Remote
  import opened Splitter
  import Actions
  import Perm
  import Utf8
  import PosixPath

  /** What `setupBuffer` leaves behind: the commands it starts, the
      `ssher_perm` value it stores for a file, and the lines of the buffer. */
  datatype Setup = Setup(plan: SetupPlan, perm: Option<string>, lines: seq<seq<byte>>)

  /** `setupBuffer(bufnr)`. The commands come from `bufname`, the name of
      the CURRENT buffer, which is not necessarily buffer `bufnr`; the lines
      and `ssher_perm` go to buffer `bufnr`, whose single line is `initial`.
      `statOut` is what `stat` prints (read only for a file), and `chunks`
      are what `ls` or `cat` prints. A name whose target has no `@` is
      refused before anything starts. */
  method SetupBuffer(bufname: string, initial: seq<byte>, statOut: string, chunks: seq<seq<byte>>)
    returns (r: Result<Setup>)
    ensures r.Err? <==> ParseName(bufname).Err?
    ensures r.Err? ==> r.error == InvalidTarget
    ensures r.Ok? ==> var p := ParseName(bufname).value;
      r.value.plan == PlanSetup(p)
      && (r.value.perm.Some? <==> !IsDir(p))
      && (r.value.perm.Some? ==> r.value.perm.value == Perm.PermFromStatOutput(statOut))
      && r.value.lines == Shown(SplitLines(Concat(chunks)).lines)
  {
    var parsed := ParseName(bufname);
    if parsed.Err? {
      return Err(parsed.error);
    }
    var params := parsed.value;
    var plan := PlanSetup(params);
    var perm: Option<string> := None;
    if !IsDir(params) {
      perm := Some(Perm.PermFromStatOutput(statOut));
    }
    var view := new LineSplitter(initial);
    view.Pump(chunks);
    assert [] + Concat(chunks) == Concat(chunks);
    return Ok(Setup(plan, perm, view.buffer));
  }

  /** The standard input of a started `ssh`: what has been written to it. */
  class Stdin {
    var written: seq<byte>

    constructor ()
      ensures written == []
    {
      written := [];
    }

    /** `streams.writeAll`. */
    method WriteAll(b: seq<byte>)
      modifies this
      ensures written == old(written) + b
    {
      written := written + b;
    }
  }

  /** `runScp`: the control line, the data and the terminating zero byte,
      written in that order to the `scp` started over `ssh`. */
  method RunScp(stdin: Stdin, data: seq<byte>, perm: string, params: Params) returns (argv: seq<string>)
    modifies stdin
    ensures argv == ScpArgv(params)
    ensures stdin.written == old(stdin.written) + ScpStream(data, perm, params.path)
  {
    var basename := PosixPath.Basename(params.path);
    argv := ScpArgv(params);
    ghost var before := stdin.written;
    var header := Utf8.Encode(ScpHeader(perm, |data|, basename));
    ghost var stream := ScpStream(data, perm, params.path);
    assert stream == (header + data) + [0];
    stdin.WriteAll(header);
    stdin.WriteAll(data);
    stdin.WriteAll([0]);
    Regroup3(before, header, data, [0]);
  }

  lemma Regroup3(w: seq<byte>, a: seq<byte>, b: seq<byte>, c: seq<byte>)
    ensures ((w + a) + b) + c == w + ((a + b) + c)
  {
    Assoc(w, a, b);
    Assoc(w, a + b, c);
  }

  /** Each line in UTF-8. */
  function EncodeLines(lines: seq<string>): (r: seq<seq<byte>>)
    ensures |r| == |lines|
  {
    if lines == [] then [] else [Utf8.Encode(lines[0])] + EncodeLines(lines[1..])
  }

  lemma {:induction false} EncodeLinesAt(lines: seq<string>, k: nat)
    requires k < |lines|
    ensures EncodeLines(lines)[k] == Utf8.Encode(lines[k])
  {
    if k > 0 {
      EncodeLinesAt(lines[1..], k - 1);
    }
  }

  /** The payload of a save is the encoded lines each followed by a newline
      byte. */
  lemma {:induction false} PayloadLines(lines: seq<string>)
    ensures Actions.SavePayload(lines) == JoinLines(EncodeLines(lines))
  {
    if lines != [] {
      var head, tail := lines[0], lines[1..];
      assert Actions.Unlines(lines) == head + "\n" + Actions.Unlines(tail);
      Utf8.EncodeAppend(head + "\n", Actions.Unlines(tail));
      Utf8.EncodeAppend(head, "\n");
      assert Utf8.Encode("\n") == [NL];
      PayloadLines(tail);
    }
  }

  /** Reading back the bytes a save sent gives its lines, as long as no line
      holds a newline, and nothing is left over. Each line is then decoded
      by a fresh `new TextDecoder()`, which drops a leading U+FEFF, so a
      line comes back as saved exactly when it does not start with one. */
  lemma SaveThenLoad(lines: seq<string>)
    requires forall k :: 0 <= k < |lines| ==> '\n' !in lines[k]
    ensures SplitLines(Actions.SavePayload(lines)) == Split(EncodeLines(lines), [])
    ensures forall k :: 0 <= k < |lines| ==>
      Utf8.Decode(SplitLines(Actions.SavePayload(lines)).lines[k]) == Some(Utf8.StripBom(lines[k]))
  {
    var enc := EncodeLines(lines);
    forall k | 0 <= k < |enc|
      ensures NoNewline(enc[k]) && Utf8.Decode(enc[k]) == Some(Utf8.StripBom(lines[k]))
    {
      EncodeLinesAt(lines, k);
      Utf8.EncodeAsciiByte(lines[k], NL);
      Utf8.DecodeEncode(lines[k]);
    }
    SplitSaved(lines);
  }

  /** The cut of a save's bytes into lines gives the encoded lines. */
  lemma SplitSaved(lines: seq<string>)
    requires forall k :: 0 <= k < |EncodeLines(lines)| ==> NoNewline(EncodeLines(lines)[k])
    ensures SplitLines(Actions.SavePayload(lines)) == Split(EncodeLines(lines), [])
  {
    var enc := EncodeLines(lines);
    PayloadLines(lines);
    assert JoinLines(enc) + [] == Actions.SavePayload(lines);
    SplitLinesOf(enc, []);
  }

  /** As written, a saved line that starts with U+FEFF loads without it. */
  lemma BomLineLost(lines: seq<string>)
    requires lines == [[Utf8.Bom, 'a']]
    ensures SplitLines(Actions.SavePayload(lines)).lines == [[0xEF, 0xBB, 0xBF, 0x61]]
    ensures Utf8.Decode(SplitLines(Actions.SavePayload(lines)).lines[0]) == Some("a")
  {
    SaveThenLoad(lines);
    Utf8.BomDropped();
    assert EncodeLines(lines) == [Utf8.Encode(lines[0])];
  }

  /** Decoding each loaded line with `ignoreBOM: true` gives back every line
      saved, a leading U+FEFF included. */
  lemma LoadKeepingBom(lines: seq<string>)
    requires forall k :: 0 <= k < |lines| ==> '\n' !in lines[k]
    ensures |SplitLines(Actions.SavePayload(lines)).lines| == |lines|
    ensures forall k :: 0 <= k < |lines| ==>
      Utf8.DecodeScalars(SplitLines(Actions.SavePayload(lines)).lines[k]) == Some(lines[k])
  {
    SaveThenLoad(lines);
    forall k | 0 <= k < |lines|
      ensures Utf8.DecodeScalars(EncodeLines(lines)[k]) == Some(lines[k])
    {
      EncodeLinesAt(lines, k);
      Utf8.DecodeScalarsEncode(lines[k]);
    }
  }

  lemma StoredPermOctal(statOut: string)
    ensures |Perm.PermFromStatOutput(statOut)| == 3 && IsOctal(Perm.PermFromStatOutput(statOut))
  {
  }

  /** The permission `setupBuffer` stores for a file always makes a control
      line the remote `scp` accepts, so the save of that file delivers one
      record with mode `0<perm>`. */
  lemma SaveWithStoredPerm(bufname: string, lines: seq<string>, statOut: string)
    requires ParseName(bufname).Ok? && !IsDir(ParseName(bufname).value)
    requires var name := PosixPath.Basename(ParseName(bufname).value.path); name != ".." && '\n' !in name
    ensures var perm := Perm.PermFromStatOutput(statOut);
      var push := Actions.OnSave(bufname, lines, perm);
      push.Ok? && push.value.Some?
      && ParseRecord(push.value.value.stdin)
        == Some((Record("0" + perm, |Actions.SavePayload(lines)|, PosixPath.Basename(ParseName(bufname).value.path), Actions.SavePayload(lines)), []))
  {
    var perm := Perm.PermFromStatOutput(statOut);
    StoredPermOctal(statOut);
    Actions.OnSaveDelivers(bufname, lines, perm);
  }
}
