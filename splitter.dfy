/** The streaming line splitter of `setupBuffer`: the output of the remote
    command arrives in chunks, complete lines are cut off the front of a
    byte buffer and written into the Vim buffer with `setbufline`, and what
    follows the last newline waits for the next chunk. */
module Splitter {
  import opened Common
  import opened Text

  /** `0x0a`. */
  const NL: byte := 10

  /** Each line followed by a newline byte. */
  function JoinLines(lines: seq<seq<byte>>): seq<byte> {
    if lines == [] then [] else lines[0] + [NL] + JoinLines(lines[1..])
  }

  lemma {:induction false} JoinLinesAppend(a: seq<seq<byte>>, b: seq<seq<byte>>)
    ensures JoinLines(a + b) == JoinLines(a) + JoinLines(b)
  {
    if a == [] {
      assert a + b == b;
    } else {
      assert (a + b)[0] == a[0] && (a + b)[1..] == a[1..] + b;
      JoinLinesAppend(a[1..], b);
    }
  }

  /** The complete lines of a byte sequence, without their newlines, and the
      unterminated rest. */
  datatype Split = Split(lines: seq<seq<byte>>, rest: seq<byte>)

  predicate NoNewline(b: seq<byte>) {
    NL !in b
  }

  /** Cutting at every newline, front to back. */
  function SplitLines(b: seq<byte>): Split
    decreases |b|
  {
    var i := IndexOf(b, NL);
    if i < 0 then Split([], b)
    else
      var s := SplitLines(b[i + 1..]);
      Split([b[..i]] + s.lines, s.rest)
  }

  /** One step of the split: no newline leaves everything as the rest, and
      the first newline ends the first line. */
  lemma SplitLinesStep(b: seq<byte>, i: int)
    requires i == IndexOf(b, NL)
    ensures i < 0 ==> SplitLines(b) == Split([], b)
    ensures i >= 0 ==> SplitLines(b) == Split([b[..i]] + SplitLines(b[i + 1..]).lines, SplitLines(b[i + 1..]).rest)
  {
    if i >= 0 {
      var s := SplitLines(b[i + 1..]);
      assert SplitLines(b) == Split([b[..i]] + s.lines, s.rest);
    }
  }

  /** Putting the pieces back together gives the input. */
  lemma {:induction false} SplitLinesJoin(b: seq<byte>)
    ensures JoinLines(SplitLines(b).lines) + SplitLines(b).rest == b
    decreases |b|
  {
    var i := IndexOf(b, NL);
    SplitLinesStep(b, i);
    if i >= 0 {
      var t := b[i + 1..];
      SplitLinesJoin(t);
      CutAt(b, i, SplitLines(t).lines, SplitLines(t).rest);
    } else {
      EmptyFront(JoinLines([]), b);
    }
  }

  lemma CutAt(b: seq<byte>, i: nat, lines: seq<seq<byte>>, rest: seq<byte>)
    requires i < |b| && b[i] == NL && JoinLines(lines) + rest == b[i + 1..]
    ensures JoinLines([b[..i]] + lines) + rest == b
  {
    assert ([b[..i]] + lines)[1..] == lines;
    assert b == b[..i] + [NL] + b[i + 1..];
  }

  /** No piece of the split holds a newline. */
  lemma {:induction false} SplitLinesClean(b: seq<byte>)
    ensures NoNewline(SplitLines(b).rest)
    ensures forall k :: 0 <= k < |SplitLines(b).lines| ==> NoNewline(SplitLines(b).lines[k])
    decreases |b|
  {
    var i := IndexOf(b, NL);
    SplitLinesStep(b, i);
    if i >= 0 {
      SplitLinesClean(b[i + 1..]);
      CleanCons(b[..i], SplitLines(b[i + 1..]).lines);
    }
  }

  lemma CleanCons(line: seq<byte>, lines: seq<seq<byte>>)
    requires NoNewline(line)
    requires forall k :: 0 <= k < |lines| ==> NoNewline(lines[k])
    ensures forall k :: 0 <= k < |[line] + lines| ==> NoNewline(([line] + lines)[k])
  {
    var all := [line] + lines;
    assert forall k :: 0 < k < |all| ==> all[k] == lines[k - 1];
  }

  /** Newline-free lines and rest come back from the bytes they make up:
      the split is the only one. */
  lemma {:induction false} SplitLinesOf(lines: seq<seq<byte>>, rest: seq<byte>)
    requires forall k :: 0 <= k < |lines| ==> NoNewline(lines[k])
    requires NoNewline(rest)
    ensures SplitLines(JoinLines(lines) + rest) == Split(lines, rest)
  {
    if lines == [] {
      assert JoinLines(lines) + rest == rest;
    } else {
      var b := JoinLines(lines) + rest;
      var tail := JoinLines(lines[1..]) + rest;
      assert b == lines[0] + [NL] + tail;
      assert b[..|lines[0]|] == lines[0];
      IndexOfAt(b, NL, |lines[0]|);
      assert b[|lines[0]| + 1..] == tail;
      SplitLinesOf(lines[1..], rest);
      assert [lines[0]] + lines[1..] == lines;
    }
  }

  /** Splitting what has arrived so far, then the rest together with the next
      chunk, gives the split of everything. */
  lemma SplitLinesAppend(x: seq<byte>, y: seq<byte>)
    ensures var s1 := SplitLines(x); var s2 := SplitLines(s1.rest + y);
      SplitLines(x + y) == Split(s1.lines + s2.lines, s2.rest)
  {
    var s1 := SplitLines(x);
    var s2 := SplitLines(s1.rest + y);
    SplitLinesJoin(x);
    SplitLinesJoin(s1.rest + y);
    SplitLinesClean(x);
    SplitLinesClean(s1.rest + y);
    JoinConcat(x, y, s1.lines, s1.rest, s2.lines, s2.rest);
    SplitLinesOf(s1.lines + s2.lines, s2.rest);
  }

  /** The pieces of `x`, with the rest taken together with `y`, make up
      `x + y`. */
  lemma JoinConcat(x: seq<byte>, y: seq<byte>, l1: seq<seq<byte>>, r1: seq<byte>, l2: seq<seq<byte>>, r2: seq<byte>)
    requires JoinLines(l1) + r1 == x && JoinLines(l2) + r2 == r1 + y
    requires forall k :: 0 <= k < |l1| ==> NoNewline(l1[k])
    requires forall k :: 0 <= k < |l2| ==> NoNewline(l2[k])
    ensures JoinLines(l1 + l2) + r2 == x + y
    ensures forall k :: 0 <= k < |l1 + l2| ==> NoNewline((l1 + l2)[k])
  {
    JoinLinesAppend(l1, l2);
    Regroup(x, JoinLines(l1), r1, y, JoinLines(l2), r2);
    var lines := l1 + l2;
    assert forall k :: 0 <= k < |lines| ==> lines[k] == if k < |l1| then l1[k] else l2[k - |l1|];
  }

  lemma Regroup<T>(x: seq<T>, a: seq<T>, b: seq<T>, y: seq<T>, c: seq<T>, d: seq<T>)
    requires x == a + b && b + y == c + d
    ensures x + y == (a + c) + d
  {
    calc {
      x + y;
      (a + b) + y;
      a + (b + y);
      a + (c + d);
      (a + c) + d;
    }
  }

  /** Text that ends with a newline leaves no rest; text that does not keeps
      its last line back. */
  lemma SplitLinesRest(b: seq<byte>)
    ensures SplitLines(b).rest == [] <==> (b == [] || b[|b| - 1] == NL)
  {
    var j, r := JoinLines(SplitLines(b).lines), SplitLines(b).rest;
    SplitLinesJoin(b);
    SplitLinesClean(b);
    if r != [] {
      LastOfSum(b, j, r);
      assert r[|r| - 1] in r;
    } else if SplitLines(b).lines != [] {
      JoinLinesLast(SplitLines(b).lines);
      assert b == j;
    } else {
      assert j == [];
    }
  }



  lemma JoinLinesLast(lines: seq<seq<byte>>)
    requires lines != []
    ensures |JoinLines(lines)| > 0 && JoinLines(lines)[|JoinLines(lines)| - 1] == NL
  {
    var k := |lines| - 1;
    assert lines == lines[..k] + [lines[k]];
    JoinLinesAppend(lines[..k], [lines[k]]);
    assert JoinLines([lines[k]]) == lines[k] + [NL];
  }

  /** `internal.setbufline(denops, bufnr, lnum, lines)`, which calls the
      Vim function `ssher#internal#setbufline`; it is taken to forward to
      Vim's `setbufline(bufnr, lnum, lines)` on a buffer of at least
      `lnum - 1` lines: the lines from `lnum` on are replaced and the buffer
      grows as needed. */
  function SetLines(buffer: seq<seq<byte>>, lnum: int, lines: seq<seq<byte>>): seq<seq<byte>>
    requires 1 <= lnum <= |buffer| + 1
  {
    buffer[..lnum - 1] + lines + (if lnum - 1 + |lines| <= |buffer| then buffer[lnum - 1 + |lines|..] else [])
  }

  /** The lines before `lnum` and the lines after the written ones keep
      their places; the buffer grows only by the lines written past its
      end. */
  lemma SetLinesKeeps(buffer: seq<seq<byte>>, lnum: int, lines: seq<seq<byte>>)
    requires 1 <= lnum <= |buffer| + 1
    ensures var r := SetLines(buffer, lnum, lines); var end := lnum - 1 + |lines|;
      |r| == (if end <= |buffer| then |buffer| else end)
      && r[..lnum - 1] == buffer[..lnum - 1]
      && r[lnum - 1..end] == lines
      && r[end..] == buffer[if end <= |buffer| then end else |buffer|..]
  {
  }

  /** A buffer filled with `lines`: a Vim buffer always has a line, so with
      none it holds the empty line that `proc` writes first. */
  function Shown(lines: seq<seq<byte>>): seq<seq<byte>> {
    if lines == [] then [[]] else lines
  }

  /** The first `proc` empties the single line of a fresh buffer. */
  lemma FirstLine(buffer: seq<seq<byte>>)
    requires |buffer| == 1
    ensures SetLines(buffer, 1, [[]]) == Shown([])
  {
  }

  /** Writing the next lines after the ones shown shows them all. */
  lemma SetLinesAppend(shown: seq<seq<byte>>, more: seq<seq<byte>>)
    ensures SetLines(Shown(shown), |shown| + 1, more) == Shown(shown + more)
  {
    if shown == [] {
      assert shown + more == more;
    } else {
      assert Shown(shown)[..|shown|] == shown;
    }
  }

  /** All the chunks, in order. */
  function Concat(chunks: seq<seq<byte>>): seq<byte> {
    if chunks == [] then [] else chunks[0] + Concat(chunks[1..])
  }

  lemma ConcatSnoc(chunks: seq<seq<byte>>, c: seq<byte>)
    ensures Concat(chunks + [c]) == Concat(chunks) + c
  {
    if chunks == [] {
      assert chunks + [c] == [c];
    } else {
      assert (chunks + [c])[1..] == chunks[1..] + [c];
      ConcatSnoc(chunks[1..], c);
    }
  }

  /** The splitter state between chunks, given everything fed so far: the
      buffer shows every complete line received, the next line number
      follows them, and the line buffer holds the unterminated rest. */
  ghost predicate Drained(fed: seq<byte>, lineBuf: seq<byte>, linenr: int, first: bool, buffer: seq<seq<byte>>) {
    lineBuf == SplitLines(fed).rest
    && linenr == |SplitLines(fed).lines| + 1
    && (first ==> fed == [] && |buffer| == 1)
    && (!first ==> buffer == Shown(SplitLines(fed).lines))
  }

  /** Appending a chunk and running `proc` on a drained state gives the
      drained state of everything fed. */
  lemma DrainedAfterProc(fed: seq<byte>, lineBuf: seq<byte>, linenr: int, first: bool, buffer: seq<seq<byte>>, chunk: seq<byte>)
    requires Drained(fed, lineBuf, linenr, first, buffer)
    ensures 1 <= linenr && (first ==> linenr == 1) && (!first ==> linenr <= |buffer| + 1)
    ensures var cut := SplitLines(lineBuf + chunk);
      Drained(fed + chunk, cut.rest, linenr + |cut.lines|, false,
        SetLines(if first then SetLines(buffer, 1, [[]]) else buffer, linenr, cut.lines))
  {
    var before := SplitLines(fed);
    var cut := SplitLines(lineBuf + chunk);
    if first {
      assert before == Split([], []);
      FirstLine(buffer);
    } else {
      assert |buffer| == |Shown(before.lines)| >= |before.lines|;
    }
    SplitLinesAppend(fed, chunk);
    SetLinesAppend(before.lines, cut.lines);
  }

  /** Running `proc` once more on a drained state keeps it drained. */
  lemma DrainedAfterLastProc(fed: seq<byte>, lineBuf: seq<byte>, linenr: int, first: bool, buffer: seq<seq<byte>>)
    requires Drained(fed, lineBuf, linenr, first, buffer)
    ensures 1 <= linenr && (first ==> linenr == 1) && (!first ==> linenr <= |buffer| + 1)
    ensures var cut := SplitLines(lineBuf);
      Drained(fed, cut.rest, linenr + |cut.lines|, false,
        SetLines(if first then SetLines(buffer, 1, [[]]) else buffer, linenr, cut.lines))
  {
    NothingLeftToCut(fed);
    if first {
      assert SplitLines(fed) == Split([], []);
      FirstLine(buffer);
      SetNoLines([[]], 1);
    } else {
      SetNoLines(buffer, linenr);
    }
  }

  /** The unterminated rest holds no complete line. */
  lemma NothingLeftToCut(b: seq<byte>)
    ensures SplitLines(SplitLines(b).rest) == Split([], SplitLines(b).rest)
  {
    var r := SplitLines(b).rest;
    SplitLinesClean(b);
    SplitLinesStep(r, IndexOf(r, NL));
  }

  /** Writing no lines leaves the buffer as it is. */
  lemma SetNoLines(buffer: seq<seq<byte>>, lnum: int)
    requires 1 <= lnum <= |buffer| + 1
    ensures SetLines(buffer, lnum, []) == buffer
  {
    var k := lnum - 1;
    assert buffer[..k] + [] + buffer[k..] == buffer;
  }

  /** The state of one `setupBuffer` run: `lineBuf`, `linenr` and `first`,
      and the lines of the Vim buffer it writes to. */
  class LineSplitter {
    var lineBuf: seq<byte>
    var linenr: int
    var first: bool
    /** The lines of the Vim buffer. */
    var buffer: seq<seq<byte>>
    /** Every byte handed to the splitter so far. */
    ghost var fed: seq<byte>

    /** Between chunks: the buffer shows every complete line received, the
        next line number follows them, and `lineBuf` holds the unterminated
        rest. */
    ghost predicate Valid()
      reads this
    {
      Drained(fed, lineBuf, linenr, first, buffer)
    }

    /** A fresh buffer of one line, as Vim creates it. */
    constructor (line: seq<byte>)
      ensures Valid() && fed == [] && first && buffer == [line]
    {
      lineBuf := [];
      linenr := 1;
      first := true;
      buffer := [line];
      fed := [];
    }

    /** `proc`: the first call empties line 1; every call cuts all complete
        lines off `lineBuf`, writes them from `linenr` on, and advances
        `linenr` by their number. */
    method Proc()
      modifies this
      requires 1 <= linenr && (first ==> linenr == 1) && (!first ==> linenr <= |buffer| + 1)
      ensures !first && fed == old(fed)
      ensures lineBuf == SplitLines(old(lineBuf)).rest
      ensures linenr == old(linenr) + |SplitLines(old(lineBuf)).lines|
      ensures buffer == SetLines(if old(first) then SetLines(old(buffer), 1, [[]]) else old(buffer),
        old(linenr), SplitLines(old(lineBuf)).lines)
    {
      if first {
        buffer := SetLines(buffer, 1, [[]]);
        first := false;
      }
      var lines := TakeLines();
      buffer := SetLines(buffer, linenr, lines);
      linenr := linenr + |lines|;
    }

    /** The `while` loop of `proc`: cut the text up to each newline off the
        front of `lineBuf`, until none is left. */
    method TakeLines() returns (lines: seq<seq<byte>>)
      modifies this`lineBuf
      ensures lines == SplitLines(old(lineBuf)).lines && lineBuf == SplitLines(old(lineBuf)).rest
    {
      ghost var start := lineBuf;
      lines := [];
      var s := IndexOf(lineBuf, NL);
      while s >= 0
        invariant s == IndexOf(lineBuf, NL)
        invariant SplitLines(start) == Split(lines + SplitLines(lineBuf).lines, SplitLines(lineBuf).rest)
        decreases |lineBuf|
      {
        var line := lineBuf[..s];
        ghost var after := SplitLines(lineBuf[s + 1..]);
        SplitLinesStep(lineBuf, s);
        Assoc(lines, [line], after.lines);
        lineBuf := lineBuf[s + 1..];
        lines := lines + [line];
        s := IndexOf(lineBuf, NL);
      }
      SplitLinesStep(lineBuf, s);
      assert lines + [] == lines;
    }

    /** One chunk read from the command's output: only the bytes actually
        read are appended, then `proc` runs. */
    method Feed(chunk: seq<byte>)
      modifies this
      requires Valid()
      ensures Valid() && !first && fed == old(fed) + chunk
    {
      ghost var cut := SplitLines(lineBuf + chunk);
      ghost var next := SetLines(if first then SetLines(buffer, 1, [[]]) else buffer, linenr, cut.lines);
      ghost var nr := linenr + |cut.lines|;
      ghost var all := fed + chunk;
      DrainedAfterProc(fed, lineBuf, linenr, first, buffer, chunk);
      lineBuf := lineBuf + chunk;
      fed := all;
      Proc();
      assert lineBuf == cut.rest && linenr == nr && buffer == next && fed == all;
    }

    /** The last `proc` after the output ends: the rest stays in `lineBuf`
        and is never written. */
    method Finish()
      modifies this
      requires Valid()
      ensures Valid() && !first && fed == old(fed)
    {
      ghost var cut := SplitLines(lineBuf);
      ghost var next := SetLines(if first then SetLines(buffer, 1, [[]]) else buffer, linenr, cut.lines);
      ghost var nr := linenr + |cut.lines|;
      DrainedAfterLastProc(fed, lineBuf, linenr, first, buffer);
      Proc();
      assert lineBuf == cut.rest && linenr == nr && buffer == next;
    }

    /** The read loop of `setupBuffer` and the final `proc`: the buffer ends
        up holding exactly the complete lines of the output, and any bytes
        after the last newline are dropped. */
    method Pump(chunks: seq<seq<byte>>)
      modifies this
      requires Valid()
      ensures Valid() && !first && fed == old(fed) + Concat(chunks)
      ensures buffer == Shown(SplitLines(old(fed) + Concat(chunks)).lines)
      ensures lineBuf == SplitLines(old(fed) + Concat(chunks)).rest
    {
      ghost var start := fed;
      var i := 0;
      assert chunks[..0] == [];
      while i < |chunks|
        invariant 0 <= i <= |chunks|
        invariant Valid() && fed == start + Concat(chunks[..i])
      {
        ghost var done := chunks[..i];
        ConcatSnoc(done, chunks[i]);
        assert chunks[..i + 1] == done + [chunks[i]];
        Assoc(start, Concat(done), chunks[i]);
        Feed(chunks[i]);
        i := i + 1;
      }
      assert chunks[..i] == chunks;
      Finish();
      assert fed == start + Concat(chunks);
    }
  }

  /** The size of the read buffer `setupBuffer` allocates. */
  const ReadBufferSize: nat := 65536

  /** `p.stdout.read(buf)`: the chunk overwrites the front of the buffer and
      the bytes after it keep what an earlier read left there. */
  function ReadInto(buf: seq<byte>, chunk: seq<byte>): (r: seq<byte>)
    requires |chunk| <= |buf|
    ensures |r| == |buf| && r[..|chunk|] == chunk
  {
    chunk + buf[|chunk|..]
  }

  predicate ChunksFit(chunks: seq<seq<byte>>, size: nat) {
    forall k :: 0 <= k < |chunks| ==> |chunks[k]| <= size
  }

  /** The bytes `lineBuf.push(...buf)` appends as written: the whole buffer
      after every read, whatever the number of bytes read. */
  function PushedAsWritten(buf: seq<byte>, chunks: seq<seq<byte>>): (r: seq<byte>)
    requires ChunksFit(chunks, |buf|)
    ensures |r| == |chunks| * |buf|
    ensures chunks != [] ==> r[..|chunks[0]|] == chunks[0]
    decreases |chunks|
  {
    if chunks == [] then []
    else
      var b := ReadInto(buf, chunks[0]);
      b + PushedAsWritten(b, chunks[1..])
  }

  function Zeros(n: nat): (z: seq<byte>)
    ensures |z| == n && NL !in z
  {
    seq(n, _ => 0)
  }

  /** Two one-line reads into a fresh buffer of `size` bytes: as written,
      the second line comes out as the `size - 2` zero bytes left over from
      the first read followed by the second line. */
  lemma StaleBytesCounterexample(size: nat)
    requires size >= 2
    ensures var as_written := SplitLines(PushedAsWritten(Zeros(size), [[0x61, NL], [0x62, NL]]));
      |as_written.lines| >= 2 && as_written.lines[0] == [0x61]
      && as_written.lines[1] == Zeros(size - 2) + [0x62]
  {
    var n: nat := size - 2;
    var all := PushedAsWritten(Zeros(size), [[0x61, NL], [0x62, NL]]);
    StaleRead(size, [0x61, NL], [0x62, NL]);
    var line2 := Zeros(n) + [0x62];
    JoinTwo([0x61], line2);
    StaleLayout(0x61, 0x62, Zeros(n));
    assert all == JoinLines([[0x61], line2]) + Zeros(n);
    assert NoNewline(line2) by {
      assert forall k :: 0 <= k < |line2| ==> line2[k] == if k < n then 0 else 0x62;
    }
    SplitLinesOf([[0x61], line2], Zeros(n));
  }

  /** Appending only the bytes read gives the two lines. */
  lemma TwoReadsCorrected()
    ensures SplitLines(Concat([[0x61, NL], [0x62, NL]])) == Split([[0x61], [0x62]], [])
  {
    PushedTwo([[0x61, NL], [0x62, NL]]);
    JoinTwo([0x61], [0x62]);
    assert Concat([[0x61, NL], [0x62, NL]]) == JoinLines([[0x61], [0x62]]) + [];
    SplitLinesOf([[0x61], [0x62]], []);
  }

  /** Reading two chunks of two bytes into a zeroed buffer pushes each
      chunk followed by the zeros after it. */
  lemma StaleRead(size: nat, r1: seq<byte>, r2: seq<byte>)
    requires size >= 2 && |r1| == 2 && |r2| == 2
    ensures PushedAsWritten(Zeros(size), [r1, r2]) == r1 + Zeros(size - 2) + r2 + Zeros(size - 2)
  {
    var z := Zeros(size);
    var b1 := ReadInto(z, r1);
    var b2 := ReadInto(b1, r2);
    assert [r1, r2][1..] == [r2] && [r2][1..] == [];
    assert PushedAsWritten(b2, []) == [];
    assert PushedAsWritten(b1, [r2]) == b2 + PushedAsWritten(b2, []);
    assert PushedAsWritten(z, [r1, r2]) == b1 + PushedAsWritten(b1, [r2]);
    assert z[2..] == Zeros(size - 2);
    assert b1[2..] == Zeros(size - 2);
  }

  lemma StaleLayout(a: byte, c: byte, zs: seq<byte>)
    ensures [a, NL] + zs + [c, NL] + zs == [a] + [NL] + (zs + [c]) + [NL] + zs
  {
    var lhs := [a, NL] + zs + [c, NL] + zs;
    var rhs := [a] + [NL] + (zs + [c]) + [NL] + zs;
    assert |lhs| == |rhs|;
    forall k | 0 <= k < |lhs|
      ensures lhs[k] == rhs[k]
    {
    }
  }

  lemma PushedTwo(chunks: seq<seq<byte>>)
    requires |chunks| == 2
    ensures Concat(chunks) == chunks[0] + chunks[1]
  {
    assert chunks[1..][1..] == [];
    assert Concat(chunks[1..]) == chunks[1] + [];
  }

  lemma JoinTwo(x: seq<byte>, y: seq<byte>)
    ensures JoinLines([x, y]) == x + [NL] + y + [NL]
  {
    assert [x, y][1..] == [y] && [y][1..] == [];
    assert JoinLines([y]) == y + [NL] + [];
  }

  /** The same outcome with the plugin's own buffer size. */
  lemma StaleBytesInPlugin()
    ensures var as_written := SplitLines(PushedAsWritten(Zeros(ReadBufferSize), [[0x61, NL], [0x62, NL]]));
      |as_written.lines| >= 2 && as_written.lines[1] == Zeros(65534) + [0x62]
  {
    StaleBytesCounterexample(ReadBufferSize);
  }
}
