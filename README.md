# ssher.vim core, modelled in Dafny

ssher.vim lets Vim edit files on a remote machine through virtual buffers
named `ssher://user@host[:port]/path`. Its denops plugin
(`denops/ssher/main.ts`) does five things, and this project models each one
and proves what it does:

- **Virtual-name codec** (`Names`). `parseTarget`, `parseName`,
  `constructName`, `isSsherBufferName` and `isDir` are modelled. The target
  regular expression `^(.*)@(.*)(?::(\d+))?` is reproduced as it behaves:
  - both groups stay on the first line;
  - the user runs to the last `@`;
  - the greedy host group swallows any `:port`, so the port is never
    captured.
- **Listing-line parser** (`Listing`). `parseLs` and `lsIsDir` read one line
  of `ls -lFah --time-style=long-iso` output. It is proved that `parseLs`
  accepts exactly the lines made of seven tokens, each followed by
  whitespace, then a name.
- **Permission projection** (`Perm`). `statToPerm` reads a `stat --format=%A`
  string as three octal digits. The stored `ssher_perm` value is `statToPerm`
  of the trimmed `stat` output.
- **Commands and the push stream** (`Remote`, `Actions`, `Plugin`). This
  covers:
  - the `ssh` argument vector of `runSsh`;
  - the commands `setupBuffer` chooses for a directory or a file;
  - the bytes `runScp` writes: a `C` control record of the rcp/scp sink
    protocol, the data, and a zero byte;
  - the save payload of `onSave`;
  - the `:e` command `onEnter` hands to Vim.

  A model of the sink's reading of the stream (`Remote.ParseRecord`) is the
  partner of the writer: it is proved to read back one record with the
  mode, length, name and data.
- **Streaming line splitter** (`Splitter`). `proc` and the read loop of
  `setupBuffer` form a class `LineSplitter` with the fields `lineBuf`,
  `linenr` and `first`, plus the lines of the Vim buffer. Each method is
  proved against the function `SplitLines`. With the read loop corrected as
  in "## Findings", it is proved that the buffer ends up showing exactly the
  complete lines of the command's output.

`Text` holds the JavaScript string operations the plugin relies on:
`indexOf`, `lastIndexOf`, `\s`, `trim`, line terminators and decimal
rendering. `Utf8` models `TextEncoder` and `TextDecoder`; the default
`TextDecoder` removes one leading U+FEFF (byte order mark), and the model
does too. `PosixPath` models
`normalize`, `join` and `basename` of Deno's `path` module in its POSIX
variant, the one used everywhere but on Windows. Errors that the code throws are `Result` values here:
`InvalidTarget` for "invalid ssher target" and `InvalidLs` for
"invalid ssher ls".

Some facts about the code that the model keeps as they are:

- the name grammar `ssher://user@host[:port]/path` has a port, and
  `constructName` writes one, but `parseTarget` never captures it: the port
  becomes part of the host (`Names.PortBecomesPartOfHost`);
- `stat` is called with `--` before the path, `cat` is not;
- the file's lines are cut at newline bytes as they stream in, and the
  bytes after the last newline are never shown;
- no argument is escaped, neither for the remote shell nor for Vim's `:e`;
- directories are listed with `ls` alone, one line per entry.

## Model

| member | source | states |
|---|---|---|
| Names.ParseTarget | denops/ssher/main.ts:31-41 | fails with InvalidTarget exactly when the first line has no `@`; otherwise `user + "@" + host` is the first line, the host has no `@` (the split is at the last `@`), and the port is always absent |
| Names.ParseTargetOf | denops/ssher/main.ts:31-41 | any user and `@`-free host on one line parse back to themselves, whatever follows a line break |
| Names.SplitName | denops/ssher/main.ts:66-73 | the text after the prefix is cut at its first `/`: the target part holds no `/`; with no `/` the target is all of it and the path is empty |
| Names.ParseName | denops/ssher/main.ts:65-78 | fails exactly when the target part fails; on success the path is the text after the first `/` and there is no port |
| Names.ConstructName | denops/ssher/main.ts:79-83 | the name always starts with `ssher://` and ends with `/` followed by the path |
| Names.NameRoundTrip | denops/ssher/main.ts:65-83 | for `ssher://T/P` with an `@` in T and no `/` or line break in it, encoding the decoded name gives the name back |
| Names.NameRoundTripNoSlash | denops/ssher/main.ts:65-83 | a name with no `/` after its target decodes to the empty path, and encoding it again appends one `/` |
| Names.ParamsRoundTrip | denops/ssher/main.ts:65-83 | a target without a port, on one line, with no `/` in it and no `@` in the host, decodes back unchanged with any path |
| Names.PortBecomesPartOfHost | denops/ssher/main.ts:31-41 | with a port, decoding the encoded name gives the host `host:port` and no port |
| Names.IsSsherBufferName | denops/ssher/main.ts:129-131 | a name is an ssher name exactly when it is the `ssher://` prefix followed by the body that `parseName` reads |
| Names.IsDir | denops/ssher/main.ts:85 | a decoded name is a directory exactly when the name `constructName` writes for it ends with `/` |
| Names.IsDirOfName | denops/ssher/main.ts:85 | a decoded name is a directory exactly when it has no `/` after the prefix or it ends with `/` |
| Listing.ParseLs | denops/ssher/main.ts:47-58 | the only error is InvalidLs, and an accepted name stays on one line |
| Listing.ParseLsComplete | denops/ssher/main.ts:47-58 | every line made of seven non-space tokens, each followed by whitespace, then a name that does not start with whitespace, is accepted; the result is the first token and the name |
| Listing.ParseLsSound | denops/ssher/main.ts:47-58 | every accepted line has that shape, the stat text is its first token, and the path is its name |
| Listing.LsIsDir | denops/ssher/main.ts:59 | an empty name is a directory, and a non-empty one is exactly when it ends with `/`, the mark `ls -F` gives directories; joining such a name to any path gives a directory path |
| Listing.ParseLsExample | denops/ssher/main.ts:47-58 | the sample line `drwxr-xr-x  6 luma luma 4.0K 2021-09-18 11:05 vim/` parses to the stat `drwxr-xr-x` and the path `vim/`, a directory |
| Listing.ParseLsTotal | denops/ssher/main.ts:47-51 | the `total 12K` line that `ls -l` prints first is refused |
| Listing.FieldsOf | denops/ssher/main.ts:49 | on a line of tokens and whitespace runs, the seven repetitions of `(\S+)\s+` capture exactly those tokens and stop where the name starts |
| Listing.FieldsSound | denops/ssher/main.ts:49 | whatever the repetitions capture are non-empty tokens, each followed by a non-empty whitespace run, and they make up the consumed text |
| Perm.Triple | denops/ssher/main.ts:88-92 | the digit is below 8, and each of its bits is set exactly when its position is not `-` |
| Perm.StatToPerm | denops/ssher/main.ts:87-94 | three characters, each a digit from 0 to 7 |
| Perm.StatToPermBits | denops/ssher/main.ts:87-94 | bit `2 - j` of digit `k` is set exactly when position `1 + 3k + j` is not `-`, a position past the end counting as set |
| Perm.StatToPermIgnoresType | denops/ssher/main.ts:87-94 | position 0, the file type, does not change the result |
| Perm.StatToPermDashes | denops/ssher/main.ts:89-91 | two strings with `-` in the same places give the same digits |
| Perm.StatToPermModeString | denops/ssher/main.ts:87-94 | reading the permission string of any mode gives back the mode's three digits |
| Perm.StatToPermExamples | denops/ssher/main.ts:87-94 | `drwxr-xr-x` gives `755`, `-rw-r--r--` gives `644`, and the empty string gives `777` |
| Perm.PermFromStatOutput | denops/ssher/main.ts:152-160 | the value stored for a file is three octal digits |
| Perm.PermFromStatLine | denops/ssher/main.ts:152-159 | for the line `stat` prints, newline included, the stored value is the mode's digits |
| Text.TrimShape | denops/ssher/main.ts:154 | `trim` cuts a whitespace run from each end and nothing else, and its result neither starts nor ends with whitespace |
| Text.IndexOf | denops/ssher/main.ts:68-70 | the first position holding the element, with none before it, or -1 exactly when it is absent |
| Text.LastIndexOf | denops/ssher/main.ts:33 | the last position holding the element, with none after it, or -1 exactly when it is absent |
| Text.LineEnd | denops/ssher/main.ts:33 | the longest prefix `.` can match is free of line terminators and stops at one |
| Text.DecimalValue | denops/ssher/main.ts:119 | the decimal digits of a length read back as that length |
| Remote.SshArgv | denops/ssher/main.ts:96-106 | `ssh`, then `user@host`, then `-p port` exactly when the port is non-empty, then the command unchanged |
| Remote.PlanSetup | denops/ssher/main.ts:138-161 | a directory is listed, with the path argument only when the path is non-empty; a file gets `stat --format=%A -- path` and then `cat path`, both over `ssh` |
| Remote.ScpArgv | denops/ssher/main.ts:115 | the remote command ends with `scp -qt -- path` |
| Remote.ScpHeader | denops/ssher/main.ts:119 | the control line starts with `C0` and ends with its only newline when perm and name have none; for a three-digit octal perm and a usable name the sink reads it back as mode `0<perm>`, the size and the name |
| Remote.ScpStream | denops/ssher/main.ts:114-122 | the stream is the encoded control line, then exactly the data, then a zero byte |
| Remote.ScpStreamRoundTrip | denops/ssher/main.ts:114-122 | for a three-digit octal perm and a usable basename, the sink reads exactly one record: mode `0<perm>`, the data's length, the basename and the data, with nothing left over |
| Remote.HeaderBytes | denops/ssher/main.ts:119 | the control line is its text's bytes and one newline byte, and the text holds no other newline |
| Remote.HeaderParses | denops/ssher/main.ts:119 | for a three-digit octal perm and a usable name, the sink reads the control text back as mode `0<perm>`, the size and the name |
| Remote.ControlRoundTrip | denops/ssher/main.ts:119 | the sink reads the control line as the mode `0<perm>`, the length and the name |
| PosixPath.Basename | denops/ssher/main.ts:114 | the basename holds no `/` and is the last segment of the path, trailing slashes ignored |
| PosixPath.NormalizeDotForms | denops/ssher/main.ts:20-22 | a normalized path starts with `./` only when it is `./` itself |
| PosixPath.SplitJoin | denops/ssher/main.ts:238 | splitting a join of separator-free segments gives the segments back |
| Utf8.DecodeScalarsEncode | denops/ssher/main.ts:259-261 | decoding the encoding of any text with the byte order mark kept gives exactly the text back |
| Utf8.DecodeEncode | denops/ssher/main.ts:185 | `new TextDecoder()` on the encoding of a text gives the text less one leading U+FEFF, so the text comes back unchanged exactly when it does not start with U+FEFF |
| Utf8.BomDropped | denops/ssher/main.ts:185 | the bytes `EF BB BF 61` decode to `a` alone |
| Utf8.EncodeAppend | denops/ssher/main.ts:259-261 | the encoding of a concatenation is the concatenation of the encodings |
| Utf8.EncodeAsciiByte | denops/ssher/main.ts:183-185 | an ASCII byte occurs in the encoding exactly when its character occurs in the text |
| Actions.NormalizePath | denops/ssher/main.ts:19-24 | the empty path exactly when `normalize` gives `.` or `./`, otherwise the normalized path unchanged; never `.` and never starting with `./`; a trailing `/` keeps the result a directory |
| Actions.EnterPath | denops/ssher/main.ts:238 | entering a name with a trailing `/` gives a directory path |
| Actions.OnEnter | denops/ssher/main.ts:228-242 | fails with InvalidTarget when the buffer name does not decode, or with InvalidLs when the line does not parse; otherwise the command text is `:e ` followed by an `ssher://` name |
| Actions.OnEnterTarget | denops/ssher/main.ts:231-239 | the name in the `:e` command decodes to the same target and the joined, normalized path; for a listed entry ending with `/` that name is a directory name |
| Actions.ParsedTargetClean | denops/ssher/main.ts:31-41 | a decoded target has no port, stays on one line, holds no `/`, and has no `@` in its host |
| Actions.EnterFromHome | denops/ssher/main.ts:238 | from the login directory, the path in the `:e` command for a plain entry name is that name |
| Actions.EnterParent | denops/ssher/main.ts:238 | entering `..` inside a first-level directory goes back to the login directory, the empty path |
| Actions.Unlines | denops/ssher/main.ts:260 | no lines give the empty text, and otherwise the text ends with a newline |
| Actions.SavePayload | denops/ssher/main.ts:259-261 | no lines give no bytes, and the bytes are the UTF-8 of the lines each followed by a newline: decoding them with the byte order mark kept yields that text |
| Actions.SavePayloadExample | denops/ssher/main.ts:259-261 | `["a", "b"]` is saved as the four bytes `a\nb\n` |
| Actions.OnSave | denops/ssher/main.ts:244-262 | fails exactly when the name does not decode; pushes nothing for a directory; otherwise pushes to `scp -qt -- path` the stream of the lines, each followed by a newline, with the stored perm |
| Actions.OnSaveDelivers | denops/ssher/main.ts:247-262 | the saved file reaches the sink as one record named after the path's last segment, with mode `0<perm>` and the saved lines as content |
| Splitter.SplitLines | denops/ssher/main.ts:183-186 | carries no ensures of its own, because every proof about the line splitter would carry them; it is specified by SplitLinesJoin, SplitLinesClean and SplitLinesOf below |
| Splitter.SplitLinesJoin | denops/ssher/main.ts:183-186 | the lines cut off, each followed by a newline byte, then the rest, give back the buffer |
| Splitter.SplitLinesClean | denops/ssher/main.ts:183-186 | neither the lines nor the rest hold a newline byte |
| Splitter.SplitLinesOf | denops/ssher/main.ts:183-186 | newline-free lines and rest come back from the bytes they make: the cut is unique |
| Splitter.SplitLinesRest | denops/ssher/main.ts:183-186 | nothing is left over exactly when the bytes are empty or end with a newline |
| Splitter.SplitLinesAppend | denops/ssher/main.ts:195-198 | cutting the bytes chunk by chunk, with each rest carried over, gives the same lines as cutting everything at once |
| Splitter.SetLinesKeeps | denops/ssher/main.ts:187-192 | `setbufline`, taken to be Vim's, keeps the lines before `lnum`, writes the new lines from `lnum` on, keeps the lines after them, and grows the buffer only past its end |
| Splitter.SetLinesAppend | denops/ssher/main.ts:187-193 | writing the next lines after the ones shown shows them all |
| Splitter.DrainedAfterProc | denops/ssher/main.ts:195-198 | appending a chunk and running `proc` keeps the state drained: the buffer shows the complete lines fed so far, `linenr` follows them, and `lineBuf` holds the unterminated rest |
| Splitter.LineSplitter.constructor | denops/ssher/main.ts:166-169 | a drained state with nothing fed yet, `first` set, and the buffer holding its one line |
| Splitter.LineSplitter.Proc | denops/ssher/main.ts:170-194 | the first call empties line 1; `lineBuf` keeps only the rest after its last newline; the complete lines are written from `linenr` on; `linenr` grows by their number |
| Splitter.LineSplitter.TakeLines | denops/ssher/main.ts:181-186 | the loop returns every complete line in order and leaves only the unterminated rest in `lineBuf` |
| Splitter.LineSplitter.Feed | denops/ssher/main.ts:195-198 | one read appends only the bytes read and runs `proc`; the state stays drained |
| Splitter.LineSplitter.Finish | denops/ssher/main.ts:199 | the last `proc`, with nothing new read, keeps the state drained |
| Splitter.LineSplitter.Pump | denops/ssher/main.ts:195-199 | after all reads, the buffer shows exactly the complete lines of all the output, one empty line when there are none, and `lineBuf` holds the rest that is never shown |
| Splitter.PushedAsWritten | denops/ssher/main.ts:195-196 | as written, each read pushes the whole buffer, so the bytes pushed number the reads times the buffer size, whatever was read; the first read's bytes come first |
| Splitter.StaleBytesCounterexample | denops/ssher/main.ts:196 | as written, two one-line reads into a zeroed buffer of `size` bytes give as second line the `size - 2` stale zero bytes followed by `b` |
| Splitter.StaleBytesInPlugin | denops/ssher/main.ts:168 | with the plugin's 65536-byte buffer, the second line starts with 65534 zero bytes |
| Splitter.TwoReadsCorrected | denops/ssher/main.ts:195-198 | appending only the bytes read gives the two lines `a` and `b` and no rest |
| Plugin.SetupBuffer | denops/ssher/main.ts:133-199 | with `bufname` the name of the current buffer: fails with InvalidTarget exactly when that name does not decode; otherwise it starts the planned commands, stores the perm exactly for a file, and leaves the buffer showing the complete lines of the output |
| Plugin.Stdin.WriteAll | denops/ssher/main.ts:117-122 | what is written is appended to the stream |
| Plugin.RunScp | denops/ssher/main.ts:109-126 | starts `scp -qt -- path` over `ssh`, then writes the control line, the data and the zero byte, in that order |
| Plugin.PayloadLines | denops/ssher/main.ts:259-261 | the saved bytes are each line's encoding followed by a newline byte |
| Plugin.SaveThenLoad | denops/ssher/main.ts:183-185 | reading the saved bytes back line by line gives the encoded lines and no rest, and the fresh `new TextDecoder()` of each line gives the line saved less one leading U+FEFF |
| Plugin.SplitSaved | denops/ssher/main.ts:183-184 | cutting the bytes of a save of newline-free lines gives each line's encoding and no rest |
| Plugin.BomLineLost | denops/ssher/main.ts:185 | as written, the saved line U+FEFF `a` is read back as the bytes `EF BB BF 61` and decoded to `a` |
| Plugin.LoadKeepingBom | denops/ssher/main.ts:185 | decoding each loaded line with the byte order mark kept gives back every saved line |
| Plugin.SaveWithStoredPerm | denops/ssher/main.ts:258-262 | with the perm that setup stores, the save of any file reaches the sink as one record |

## Left out

- Process spawning and stream I/O: `Deno.run`, `streams.readAll`, `p.status()` and `p.close()`. The model keeps only the argument vectors and bytes handed to them. Reads arrive as a sequence of chunks, and the standard input of `ssh` is the `Plugin.Stdin` class.
- Calls into Vim through denops: `bufname`, `getline`, `setbufvar`, `getbufvar`, `execute`, `getbufinfo` and the dispatcher. They are foreign calls, so their results are parameters. `internal.setbufline` (denops/ssher/main.ts:172 and 187) calls the Vim function `ssher#internal#setbufline`, whose Vim script body is not part of this model; `Splitter.SetLines` assumes it forwards to Vim's `setbufline()`, and models that on a sequence of lines.
- Vim commands with no effect on the data are left out: the `set nomodified` script of `onSave` and the `set modifiable` at the end of `setupBuffer`.
- `setupAllBuffers`, including its name and line-count filter: this is asynchronous orchestration over Vim's buffer list.
- Plugin.SetupBuffer: the commands come from the current buffer's name (`fn.bufname(denops)` at denops/ssher/main.ts:135), while the lines and `ssher_perm` go to buffer `bufnr`. The model takes that name as a parameter and does not relate it to `bufnr`. So it does not capture that `setupAllBuffers` would fill every matching buffer from the current buffer's target and path.
- Plugin.SetupBuffer: the lines are kept as bytes; the `TextDecoder` call on each line is stated separately, by `Plugin.SaveThenLoad` on the lines of a save. The `stat` output is taken as already decoded text.
- Actions.OnEnter: the result is the text of the `:e` command. How Vim then parses that line is not modelled: a name with a space is two arguments, and `%`, `#`, `|` and `\` are special there. Nor are the suffixes `ls -F` adds (`*`, `@`, `|`, `=`, and ` -> target` for a link) removed. So the name is what the code writes, and it may not be a file the remote has.
- Utf8.Decode: ill-formed UTF-8 gives `None` here, where `TextDecoder` would put U+FFFD in its place.
- JavaScript strings count UTF-16 code units, while Dafny strings hold Unicode scalar values. The two agree on text without characters outside the Basic Multilingual Plane.
- Exceptions are modelled as `Result` values. The `finally` that closes the process is left out.
- Actions.OnSave: takes the `ssher_perm` variable as a parameter. A buffer where it was never set reads as the empty string.
- Remote.ParseControl: this is the sink's reading of a control line, a model of the remote `scp`. It checks only what the round trip needs, and ignores the sink's acknowledgements and error replies.
- PosixPath.Normalize, PosixPath.Join and PosixPath.Basename: these model the POSIX variant of Deno's `path` module, the one used everywhere but on Windows (the win32 variant is left out), by its segment semantics. They are not transcriptions of that library, which is not part of this model.
- `denops/ssher/internal_autoload_fn.ts`, `denops/ssher/deps.ts` and `denops/ssher/stat.ts` are left out: the first wraps calls into Vim, the second only re-exports libraries, and the third is a table of `stat` formats that the plugin does not use.

## Findings

| source | as written | input that shows it | evidently intended | confidence | as-written member | corrected member |
|---|---|---|---|---|---|---|
| denops/ssher/main.ts:196 | `lineBuf.push(...buf)` appends the whole 65536-byte read buffer after every read, whatever number of bytes `read` returned, so stale bytes from earlier reads (zeros at first) enter the lines | two reads of `a\n` and `b\n`: the second line becomes 65534 zero bytes followed by `b` | append only the bytes the read returned, so the buffer shows the lines `a` and `b` | not executed | Splitter.StaleBytesCounterexample | Splitter.LineSplitter.Pump |
| denops/ssher/main.ts:185 | every loaded line is decoded by a fresh `new TextDecoder()`, whose `ignoreBOM` is false, so a leading U+FEFF is removed from each line | a file whose line is U+FEFF followed by `a`: the buffer shows `a`, and a save writes the line back without U+FEFF | decode with `ignoreBOM: true` (or one decoder for the whole stream), so every line is shown as saved | not executed | Plugin.BomLineLost | Plugin.LoadKeepingBom |
