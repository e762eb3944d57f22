/** The client on a real document: joining and replaying (source/client.c). */
module ClientProgram {
  import opened Seqs
  import opened Pieces
  import opened Lines
  import opened Commits
  import opened Commands
  import opened Documents
  import opened Wire
  import opened Queue
  import opened Snapshots
  import opened Rounds
  import Server

  /** A line with its line break is inserted at the end of the document and committed. */
  method AddLine(doc: Document, len: nat, line: string, ghost ms: seq<string>)
    requires doc.Valid() && doc.size == len && ms != [] && doc.shape == Canon(ms)
    modifies doc, doc.repr
    ensures doc.Valid() && fresh(doc.repr - old(doc.repr)) && doc.size == len + |line| + 1
    ensures doc.shape == LineAdded(old(doc.shape), line) == Canon(Renumber(Init(ms) + [Last(ms) + line, ""]))
  {
    hide Canon, Size, WellFormed, Place, LineAdded, Commit, Renumber, Document.Linked;
    LineAddedMeaning(ms, line);
    LineAddedSize(ms, line);
    LineAddedSteps(doc.shape, line);
    var _ := doc.Newline(doc.version, len);
    var _ := doc.Insert(doc.version, len, line);
    doc.IncrementVersion();
  }

  lemma LineAddedSteps(ps: seq<Piece>, line: string)
    requires WellFormed(ps)
    ensures LineAdded(ps, line) == Commit(Place(Place(ps, Size(ps), BREAK), Size(ps), Fresh(line)))
  {
  }

  /** Rebuilds the server's document from the first `size` characters that the pipe holds, read one by one; the
      rest of the pipe is left for the read thread. */
  method JoinServer(pipe: string, size: nat, version: nat) returns (doc: Document, rest: string)
    requires size <= |pipe|
    ensures fresh(doc) && fresh(doc.repr) && doc.Valid()
    ensures doc.shape == Rebuild(pipe[..size]) && rest == pipe[size..]
    ensures doc.version == version
  {
    hide RebuildFrom, Canon, Size, WellFormed, Place, LineAdded, Commit, Renumber, Document.Linked;
    doc := new Document();
    var buildSize, len, build := 0, 0, "";
    ghost var ms, snapshot := [""], pipe[..size];
    assert "" + snapshot[0..] == snapshot;
    while len + buildSize != size
      invariant fresh(doc) && fresh(doc.repr) && doc.Valid() && ms != [] && doc.shape == Canon(ms)
      invariant doc.size == len && buildSize == |build| && '\n' !in build && len + buildSize <= size
      invariant RebuildFrom(doc.shape, build + snapshot[len + buildSize..]) == Rebuild(snapshot)
      decreases size - len - buildSize
    {
      var c := pipe[len + buildSize];
      CharStep(doc.shape, build, snapshot, len + buildSize);
      if c == '\n' {
        AddLine(doc, len, build, ms);
        ms := Renumber(Init(ms) + [Last(ms) + build, ""]);
        len := len + buildSize + 1;
        buildSize := 0;
        build := "";
      } else {
        build := build + [c];
        buildSize := buildSize + 1;
      }
    }
    assert build + snapshot[len + buildSize..] == build;
    LastStep(doc.shape, build);
    if buildSize > 0 {
      var _ := doc.Insert(doc.version, len, build);
      doc.IncrementVersion();
    }
    doc.version := version;
    rest := pipe[size..];
  }

  /** A newline character completes a line, any other joins it. */
  lemma CharStep(ps: seq<Piece>, line: string, snapshot: string, i: nat)
    requires WellFormed(ps) && '\n' !in line && i < |snapshot|
    ensures if snapshot[i] == '\n'
            then RebuildFrom(ps, line + snapshot[i..]) == RebuildFrom(LineAdded(ps, line), "" + snapshot[i + 1..])
            else line + snapshot[i..] == line + [snapshot[i]] + snapshot[i + 1..]
  {
    hide RebuildFrom, LineAdded, WellFormed;
    var tail := snapshot[i + 1..];
    assert line + snapshot[i..] == line + [snapshot[i]] + tail;
    if snapshot[i] == '\n' {
      LineStep(ps, line, tail);
      assert "" + tail == tail;
    }
  }

  lemma LineStep(ps: seq<Piece>, line: string, rest: string)
    requires WellFormed(ps) && '\n' !in line
    ensures RebuildFrom(ps, line + ['\n'] + rest) == RebuildFrom(LineAdded(ps, line), rest)
  {
    StrChrAt(line, '\n', rest);
    assert (line + ['\n'] + rest)[..|line|] == line;
    assert (line + ['\n'] + rest)[|line| + 1..] == rest;
  }

  lemma LastStep(ps: seq<Piece>, line: string)
    requires WellFormed(ps) && '\n' !in line
    ensures RebuildFrom(ps, line) == if line == "" then ps else Commit(Place(ps, Size(ps), Fresh(line)))
  {
  }

  /** Obeys one line of a broadcast. */
  method ObeyLine(doc: Document, line: string)
    requires doc.Valid() && Readable(line, doc.size)
    modifies doc, doc.repr
    ensures doc.Valid() && fresh(doc.repr - old(doc.repr))
    ensures doc.shape == Obey(old(doc.shape), line)
  {
    hide RunOnDoc, Size, WellFormed, Commit, ReadLine, Executable, Document.Linked;
    match ReadLine(line)
    case Skip =>
    case NextVersion => doc.IncrementVersion();
    case Run(raw) =>
      var msg := new Msg(Message(0, raw, "andrew", 'w'));
      var _ := Server.Execute(doc, msg);
  }

  /** Stores a character behind the i characters of a line.  A newline gets a NUL behind it and completes the line;
      the buffer is empty then. */
  method StoreByte(buf: array<char>, i: nat, c: char) returns (next: nat, line: string)
    requires i < buf.Length && (c == '\n' ==> i + 1 < buf.Length)
    modifies buf
    ensures c == '\n' ==> next == 0 && line == old(buf[..i]) + [c]
    ensures c != '\n' ==> next == i + 1 && buf[..next] == old(buf[..i]) + [c]
  {
    line := "";
    buf[i] := c;
    if buf[i] == '\n' {
      buf[i + 1] := '\0';
      line := buf[..i + 1];
      next := 0;
    } else {
      next := i + 1;
    }
  }

  /** In the stream of the lines, k bytes are read: n lines, which are in the log, and a part of the next one. */
  ghost predicate Midstream(lines: seq<string>, bytes: string, k: nat, n: nat, part: string, log: string) {
    && k <= |bytes| && n <= |lines|
    && (forall i :: 0 <= i < |lines| ==> IsLine(lines[i]) && |lines[i]| <= LINE_MAX)
    && part + bytes[k..] == Concat(lines[n..]) && '\n' !in part
    && log + part == bytes[..k]
    && |part| < LINE_MAX
  }

  lemma MidstreamStart(lines: seq<string>, bytes: string)
    requires bytes == Concat(lines)
    requires forall i :: 0 <= i < |lines| ==> IsLine(lines[i]) && |lines[i]| <= LINE_MAX
    ensures Midstream(lines, bytes, 0, 0, "", "")
  {
    assert lines[0..] == lines;
    assert "" + bytes[0..] == bytes;
  }

  /** A newline completes a line that fits the buffer, any other character leaves room for one. */
  lemma MidstreamStep(lines: seq<string>, bytes: string, k: nat, n: nat, part: string, log: string)
    requires Midstream(lines, bytes, k, n, part, log) && k < |bytes|
    ensures n < |lines|
    ensures if bytes[k] == '\n'
            then part + [bytes[k]] == lines[n] && |lines[n]| <= LINE_MAX
                 && Midstream(lines, bytes, k + 1, n + 1, "", log + lines[n])
            else Midstream(lines, bytes, k + 1, n, part + [bytes[k]], log)
  {
    hide IsLine, Concat;
    NextByte(log, part, bytes, k);
    TakeLine(part, bytes[k], bytes[k + 1..], lines, n);
  }

  lemma MidstreamRoom(lines: seq<string>, bytes: string, k: nat, n: nat, part: string, log: string)
    requires Midstream(lines, bytes, k, n, part, log)
    ensures |part| < LINE_MAX
  {
  }

  lemma MidstreamEnd(lines: seq<string>, bytes: string, n: nat, part: string, log: string)
    requires Midstream(lines, bytes, |bytes|, n, part, log)
    ensures n == |lines| && log == bytes && lines[..n] == lines
  {
    hide IsLine, Concat;
    StreamEnd(part, lines[n..]);
    assert log + "" == log;
    assert bytes[..|bytes|] == bytes;
  }

  /** Reads a stream of whole lines byte by byte into a buffer of 256 characters, ends each line there with a NUL,
      appends it to the log and obeys it. */
  method ReadThread(doc: Document, bytes: string, ghost lines: seq<string>) returns (log: string)
    requires doc.Valid() && bytes == Concat(lines) && Obeyable(doc.shape, lines)
    requires forall i :: 0 <= i < |lines| ==> IsLine(lines[i]) && |lines[i]| <= LINE_MAX
    modifies doc, doc.repr
    ensures doc.Valid() && fresh(doc.repr - old(doc.repr))
    ensures doc.shape == ObeyAll(old(doc.shape), lines)
    ensures log == bytes
  {
    hide Obey, Obeyable, ObeyAll, Size, WellFormed, Readable, IsLine, Concat, Midstream, Document.Linked;
    ghost var ps := doc.shape;
    var buf, i := new char[256], 0;
    log := "";
    ghost var n, part := 0, "";
    ObeyStart(ps, lines);
    MidstreamStart(lines, bytes);
    for k := 0 to |bytes|
      invariant doc.Valid() && fresh(doc.repr - old(doc.repr)) && fresh(buf)
      invariant 0 <= n <= |lines| && Obeyable(ps, lines[..n]) && doc.shape == ObeyAll(ps, lines[..n])
      invariant 0 <= i < buf.Length == 256 && buf[..i] == part
      invariant Midstream(lines, bytes, k, n, part, log)
    {
      MidstreamStep(lines, bytes, k, n, part, log);
      MidstreamRoom(lines, bytes, k, n, part, log);
      var line;
      i, line := StoreByte(buf, i, bytes[k]);
      if bytes[k] == '\n' {
        log := log + line;
        ObeyNext(ps, lines, n);
        ObeyLine(doc, line);
        part := "";
        n := n + 1;
      } else {
        part := part + [bytes[k]];
        MidstreamRoom(lines, bytes, k + 1, n, part, log);
      }
    }
    MidstreamEnd(lines, bytes, n, part, log);
  }

  lemma ObeyStart(ps: seq<Piece>, lines: seq<string>)
    requires WellFormed(ps)
    ensures lines[..0] == [] && lines[0..] == lines
    ensures Obeyable(ps, []) && ObeyAll(ps, []) == ps
  {
  }

  lemma ObeyNext(ps: seq<Piece>, lines: seq<string>, n: nat)
    requires WellFormed(ps) && Obeyable(ps, lines) && n < |lines|
    ensures Obeyable(ps, lines[..n]) && Obeyable(ps, lines[..n + 1])
    ensures var qs := ObeyAll(ps, lines[..n]);
      && Replayable(lines[n], Size(qs)) && ObeyAll(ps, lines[..n + 1]) == Obey(qs, lines[n])
      && (|lines[n]| <= LINE_MAX ==> Readable(lines[n], Size(qs)))
  {
    ObeyablePrefix(ps, lines, n);
    ObeyablePrefix(ps, lines, n + 1);
    assert Init(lines[..n + 1]) == lines[..n];
  }

  lemma NextByte(log: string, buf: string, bytes: string, i: nat)
    requires i < |bytes| && log + buf == bytes[..i]
    ensures buf + bytes[i..] == buf + [bytes[i]] + bytes[i + 1..]
    ensures log + (buf + [bytes[i]]) == log + (buf + [bytes[i]]) + "" == bytes[..i + 1]
    ensures "" + bytes[i + 1..] == bytes[i + 1..]
  {
  }

  /** A newline completes exactly the first of the remaining lines, and until it comes that line is longer than
      what is read of it. */
  lemma TakeLine(buf: string, c: char, tail: string, lines: seq<string>, n: nat)
    requires n <= |lines| && '\n' !in buf && buf + [c] + tail == Concat(lines[n..])
    requires forall i :: 0 <= i < |lines| ==> IsLine(lines[i])
    ensures n < |lines|
    ensures c == '\n' ==> buf + [c] == lines[n] && tail == Concat(lines[n + 1..])
    ensures c != '\n' ==> |buf| + 1 < |lines[n]|
  {
    if n < |lines| {
      var all := Concat(lines[n..]);
      FirstLine(lines[n], Concat(lines[n + 1..]));
      assert lines[n..][1..] == lines[n + 1..];
      assert all[|lines[n]| - 1] == '\n';
      assert forall j :: 0 <= j <= |buf| ==> all[j] == (buf + [c])[j];
      if c == '\n' {
        var line := buf + [c];
        assert line[..|line| - 1] == buf;
        FirstLine(line, tail);
      }
    }
  }

  /** Without a complete line left nothing is left. */
  lemma StreamEnd(buf: string, lines: seq<string>)
    requires '\n' !in buf && buf + "" == Concat(lines)
    requires forall i :: 0 <= i < |lines| ==> IsLine(lines[i])
    ensures lines == [] && buf == ""
  {
    assert buf + "" == buf;
    if lines != [] {
      NewlineInside(lines);
    }
  }

  lemma NewlineInside(lines: seq<string>)
    requires lines != [] && IsLine(lines[0])
    ensures '\n' in Concat(lines)
  {
    assert Concat(lines)[|lines[0]| - 1] == '\n';
  }
}
