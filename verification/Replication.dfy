/** The server and its clients as a system of atomic steps (source/server.c, source/client.c): messages are
    queued, the server drains the queue, commits and broadcasts its log, clients join with a snapshot and
    replay the lines they read from their pipe at their own pace. */
module Replication {
  import opened Seqs
  import opened Pieces
  import opened Lines
  import opened Commits
  import opened Commands
  import opened Wire
  import opened Queue
  import opened Rounds
  import opened Snapshots

  // ---------- a broadcast replayed ----------

  /** A message whose log line comes back (`LogLineRoundTrip`) if it fits the client's buffer: its text, a C string,
      is one line without the word SUCCESS.  A worker queues what one read of its pipe returns, which is one line if
      a client does not write the next before. */
  predicate Proper(m: Message) {
    && m.raw != "" && PlainText(Stripped(m.raw)) && !Contains(Stripped(m.raw), "SUCCESS")
    && ' ' !in m.user && '\n' !in m.user
  }

  ghost predicate AllProper(ms: seq<Message>) {
    forall i :: 0 <= i < |ms| ==> Proper(ms[i])
  }

  /** A client executes exactly what the server executed, and nothing of a rejected message, and reading the line is
      defined exactly if it fits the client's buffer. */
  lemma LineReplayed(ps: seq<Piece>, m: Message)
    requires WellFormed(ps) && Proper(m) && Executable(m.raw, m.perm, Size(ps))
    ensures var (qs, o) := RunOnDoc(ps, m.raw, m.perm);
      var line := LogLine(m.user, Stripped(m.raw), o);
      && Replayable(line, Size(ps)) && Obey(ps, line) == qs
      && (Readable(line, Size(ps)) <==> |m.user| + |Stripped(m.raw)| + |Word(o)| + 8 <= 255)
      && IsLine(line) && ReadLine(line) != NextVersion
      && (o.Done? ==> Contains(line, "SUCCESS"))
  {
    hide Exec, ReadLine, LogLine, Tokenise, WellFormed, Defined;
    var (qs, o) := RunOnDoc(ps, m.raw, m.perm);
    var text := Stripped(m.raw);
    LineRoundTrip(m.user, text, o);
    LogLineSize(m.user, text, o);
    LogLineIsLine(m.user, text, o);
    if o.Done? {
      assert Stripped(text + " ") == text;
      DoneLine(m.user, text);
    }
  }

  lemma DoneLine(user: string, text: string)
    ensures Contains(LogLine(user, text, Done), "SUCCESS")
  {
    var head := "EDIT " + user + " " + text + " ";
    var line := LogLine(user, text, Done);
    assert line == head + ("SUCCESS" + "\n");
    assert line[|head|..|head| + 7] == "SUCCESS";
    assert OccursAt(line, "SUCCESS", |head|);
  }

  lemma {:induction false} BatchReplayed(ps: seq<Piece>, head: string, ms: seq<Message>)
    requires WellFormed(ps) && AllProper(ms) && AllExecutable(ms, Size(ps)) && ReadLine(head) == Skip
    ensures Obeyable(ps, [head] + RunAll(ps, ms).1)
    ensures ObeyAll(ps, [head] + RunAll(ps, ms).1) == RunAll(ps, ms).0
    ensures forall i :: 0 <= i < |ms| ==> IsLine(RunAll(ps, ms).1[i]) && ReadLine(RunAll(ps, ms).1[i]) != NextVersion
    ensures RunAll(ps, ms).0 == ps || Successful(RunAll(ps, ms).1)
    decreases |ms|
  {
    hide RunOnDoc, Executable, Proper, ReadLine, LogLine, WellFormed, Successful;
    if ms == [] {
      assert [head] + [] == [head];
      assert Init([head]) == [];
    } else {
      var a, m := Init(ms), Last(ms);
      BatchReplayed(ps, head, a);
      var (qs, lines) := RunAll(ps, a);
      LineReplayed(qs, m);
      var line := Last(RunAll(ps, ms).1);
      assert Init([head] + RunAll(ps, ms).1) == [head] + lines;
      CommitsMore(lines, line);
    }
  }

  lemma CommitsMore(lines: seq<string>, line: string)
    ensures Successful(lines) || Contains(line, "SUCCESS") ==> Successful(lines + [line])
  {
    ConcatConcat(lines, [line]);
    assert Concat([line]) == line;
    ContainsConcat(Concat(lines), line, "SUCCESS");
  }

  lemma ContainsConcat(a: string, b: string, pat: string)
    ensures Contains(a, pat) || Contains(b, pat) ==> Contains(a + b, pat)
  {
    if Contains(a, pat) {
      var i: nat :| i <= |a| && OccursAt(a, pat, i);
      assert (a + b)[i..i + |pat|] == a[i..i + |pat|];
      assert OccursAt(a + b, pat, i);
    } else if Contains(b, pat) {
      var i: nat :| i <= |b| && OccursAt(b, pat, i);
      assert (a + b)[|a| + i..|a| + i + |pat|] == b[i..i + |pat|];
      assert OccursAt(a + b, pat, |a| + i);
    }
  }

  /** A document without pending edits whose lists are numbered. */
  ghost predicate Committed(ps: seq<Piece>) {
    WellFormed(ps) && Commit(ps) == ps
  }

  /** A client that starts from the server's document ends a broadcast with the server's document, though it
      commits at every end and the server only after a success. */
  lemma BroadcastReplayed(ps: seq<Piece>, version: nat, ms: seq<Message>)
    requires Committed(ps) && AllProper(Drained(ms)) && AllExecutable(Drained(ms), Size(ps))
    ensures var lines := Log(ps, version, ms);
      && Obeyable(ps, lines) && ObeyAll(ps, lines) == Round(ps, ms)
      && (forall i :: 0 <= i < |lines| ==> IsLine(lines[i]))
      && (forall i :: 0 <= i < |lines| ==> (ReadLine(lines[i]) == NextVersion <==> i == |lines| - 1))
    ensures Committed(Round(ps, ms))
  {
    hide ReadLine, VersionLine, RunAll, Commit, Successful, WellFormed;
    var head := VersionLine(RoundVersion(ps, version, ms));
    VersionLineSkipped(RoundVersion(ps, version, ms));
    VersionIsLine(RoundVersion(ps, version, ms));
    EndIsLine();
    var (rs, edits) := RunAll(ps, Drained(ms));
    BatchReplayed(ps, head, Drained(ms));
    var lines := Log(ps, version, ms);
    assert Init(lines) == [head] + edits;
    CommitIdempotent(rs);
  }

  lemma VersionIsLine(version: nat)
    ensures IsLine(VersionLine(version))
  {
    VersionLineSkipped(version);
    var line := VersionLine(version);
    assert line[..|line| - 1] == "VERSION " + Decimal(version);
  }

  lemma EndIsLine()
    ensures IsLine(END_LINE) && ReadLine(END_LINE) == NextVersion
  {
    assert END_LINE[..3] == "END";
  }

  // ---------- the system ----------

  /** `seen` broadcasts are obeyed in full and `pos` lines of the next one; `pipe` holds the bytes not read. */
  datatype Client = Client(doc: seq<Piece>, pipe: string, seen: nat, pos: nat)

  /** `docs` are the server's documents, initially and after every broadcast; `logs` are the broadcasts. */
  datatype System = System(doc: seq<Piece>, version: nat, queue: seq<Message>, clients: map<nat, Client>,
                           docs: seq<seq<Piece>>, logs: seq<seq<string>>)

  datatype Step =
    | Submit(m: Message)
    | Drain
    | Join(id: nat)
    | Leave(id: nat)
    | Read(id: nat, line: string)

  ghost predicate Initial(s: System) {
    s.doc == Canon([""]) && s.version == 0 && s.queue == [] && s.clients == map[] && s.docs == [s.doc] && s.logs == []
  }

  function Sent(c: Client, lines: seq<string>): Client {
    c.(pipe := c.pipe + Concat(lines))
  }

  function Advanced(c: Client, doc: seq<Piece>, line: string): Client
    requires line <= c.pipe
  {
    var rest := c.pipe[|line|..];
    if ReadLine(line) == NextVersion then Client(doc, rest, c.seen + 1, 0) else Client(doc, rest, c.seen, c.pos + 1)
  }

  ghost predicate Next(s: System, t: System, step: Step) {
    match step
    case Submit(m) => Proper(m) && t == s.(queue := s.queue + [m])
    case Drain =>
      && WellFormed(s.doc) && AllExecutable(Drained(s.queue), Size(s.doc))
      && var lines := Log(s.doc, s.version, s.queue);
      && var doc := Round(s.doc, s.queue);
      && t == System(doc, RoundVersion(s.doc, s.version, s.queue), [],
                     map id | id in s.clients :: Sent(s.clients[id], lines), s.docs + [doc], s.logs + [lines])
    case Join(id) =>
      && id !in s.clients && Plain(Gathered(s.doc))
      && t == s.(clients := s.clients[id := Client(Rebuild(Terminated(Text(s.doc))), "", |s.logs|, 0)])
    case Leave(id) => t == s.(clients := s.clients - {id})
    case Read(id, line) =>
      && id in s.clients && IsLine(line) && line <= s.clients[id].pipe
      && WellFormed(s.clients[id].doc) && Readable(line, Size(s.clients[id].doc))
      && t == s.(clients := s.clients[id := Advanced(s.clients[id], Obey(s.clients[id].doc, line), line)])
  }

  ghost predicate IsRun(run: seq<System>, steps: seq<Step>) {
    && |run| == |steps| + 1 && Initial(run[0])
    && forall i :: 0 <= i < |steps| ==> Next(run[i], run[i + 1], steps[i])
  }

  // ---------- what every step keeps ----------

  function Flat(logs: seq<seq<string>>): seq<string> {
    if logs == [] then [] else logs[0] + Flat(logs[1..])
  }

  lemma {:induction false} FlatSnoc(logs: seq<seq<string>>, lines: seq<string>)
    ensures Flat(logs + [lines]) == Flat(logs) + lines
  {
    if logs == [] {
      assert Flat([lines]) == lines + [];
    } else {
      assert (logs + [lines])[1..] == logs[1..] + [lines];
      FlatSnoc(logs[1..], lines);
    }
  }

  /** A broadcast that takes a client from one document of the server to the next. */
  ghost predicate GoodLog(from: seq<Piece>, lines: seq<string>, to: seq<Piece>) {
    && lines != [] && WellFormed(from)
    && Obeyable(from, lines) && ObeyAll(from, lines) == to
    && forall i :: 0 <= i < |lines| ==> IsLine(lines[i]) && (ReadLine(lines[i]) == NextVersion <==> i == |lines| - 1)
  }

  ghost predicate GoodHistory(s: System) {
    && |s.docs| == |s.logs| + 1 && s.doc == Last(s.docs)
    && (forall k :: 0 <= k < |s.docs| ==> Committed(s.docs[k]))
    && (forall k :: 0 <= k < |s.logs| ==> GoodLog(s.docs[k], s.logs[k], s.docs[k + 1]))
  }

  /** The client stands inside some broadcast, where replaying its lines has brought it, and its pipe holds the
      rest. */
  ghost predicate GoodClient(c: Client, docs: seq<seq<Piece>>, logs: seq<seq<string>>) {
    && c.seen <= |logs| < |docs|
    && (c.seen == |logs| ==> c.pos == 0)
    && (c.seen < |logs| ==> c.pos < |logs[c.seen]|)
    && WellFormed(docs[c.seen])
    && c.pipe == Concat(Flat(logs[c.seen..])[c.pos..])
    && var done := if c.seen == |logs| then [] else logs[c.seen][..c.pos];
    && Obeyable(docs[c.seen], done) && c.doc == ObeyAll(docs[c.seen], done)
  }

  ghost predicate Inv(s: System) {
    && GoodHistory(s) && AllProper(s.queue)
    && forall id :: id in s.clients ==> GoodClient(s.clients[id], s.docs, s.logs)
  }

  lemma InvInitial(s: System)
    requires Initial(s)
    ensures Inv(s)
  {
    hide Canon, Commit, Obeyable, ObeyAll, Concat, Flat;
    CommittedStart();
    AtStart(0, s);
    FlatNil();
  }

  lemma CommittedStart()
    ensures Committed(Canon([""]))
  {
    GatheredCanon([""]);
    assert Renumber([""]) == [""];
  }

  lemma FlatNil()
    ensures Flat([]) == [] && Concat([]) == ""
  {
  }

  lemma CommittedLines(ps: seq<Piece>)
    requires Committed(ps)
    ensures ps == Canon(Gathered(ps)) && Renumber(Gathered(ps)) == Gathered(ps)
  {
    hide Renumber, Canon, Split, Merged;
    GatheredCanon(Renumber(Gathered(ps)));
    RenumberIdempotent(Gathered(ps));
  }

  lemma JoinKeeps(s: System)
    requires GoodHistory(s) && Plain(Gathered(s.doc))
    ensures GoodClient(Client(Rebuild(Terminated(Text(s.doc))), "", |s.logs|, 0), s.docs, s.logs)
  {
    hide Rebuild, Text, Gathered, Commit;
    assert Committed(s.docs[|s.logs|]);
    CommittedLines(s.doc);
    SnapshotSent(Gathered(s.doc));
    assert s.logs[|s.logs|..] == [];
  }

  lemma DrainKeepsClient(c: Client, docs: seq<seq<Piece>>, logs: seq<seq<string>>, doc: seq<Piece>, lines: seq<string>)
    requires GoodClient(c, docs, logs) && |docs| == |logs| + 1 && lines != []
    ensures GoodClient(Sent(c, lines), docs + [doc], logs + [lines])
  {
    hide Obeyable, ObeyAll, Concat, WellFormed, Flat;
    var rest := Flat(logs[c.seen..]);
    assert (logs + [lines])[c.seen..] == logs[c.seen..] + [lines];
    FlatSnoc(logs[c.seen..], lines);
    FlatHead(logs, c);
    assert (rest + lines)[c.pos..] == rest[c.pos..] + lines;
    ConcatConcat(rest[c.pos..], lines);
    assert (docs + [doc])[c.seen] == docs[c.seen];
    if c.seen < |logs| {
      assert (logs + [lines])[c.seen] == logs[c.seen];
    } else {
      assert lines[..0] == [];
    }
  }

  lemma FlatHead(logs: seq<seq<string>>, c: Client)
    requires c.seen <= |logs|
    ensures c.seen < |logs| ==> Flat(logs[c.seen..]) == logs[c.seen] + Flat(logs[c.seen + 1..])
    ensures c.seen == |logs| ==> Flat(logs[c.seen..]) == []
  {
    if c.seen < |logs| {
      assert logs[c.seen..][1..] == logs[c.seen + 1..];
    }
  }

  /** The line that a client reads next is the next line of the broadcast it is in. */
  lemma NextLine(c: Client, s: System, line: string)
    requires GoodHistory(s) && GoodClient(c, s.docs, s.logs)
    requires IsLine(line) && line <= c.pipe
    ensures c.seen < |s.logs| && line == s.logs[c.seen][c.pos]
    ensures c.pipe[|line|..] == Concat(Flat(s.logs[c.seen..])[c.pos + 1..])
  {
    hide Obeyable, ObeyAll, WellFormed, Commit, ReadLine, StrChr;
    var rest := Flat(s.logs[c.seen..])[c.pos..];
    FlatHead(s.logs, c);
    assert c.pipe == Concat(rest) && rest != [];
    assert GoodLog(s.docs[c.seen], s.logs[c.seen], s.docs[c.seen + 1]);
    assert rest[0] == s.logs[c.seen][c.pos];
    assert IsLine(rest[0]);
    FirstLine(rest[0], Concat(rest[1..]));
    FirstLine(line, c.pipe[|line|..]);
    assert line + c.pipe[|line|..] == c.pipe;
    assert rest[1..] == Flat(s.logs[c.seen..])[c.pos + 1..];
  }

  /** Only a line too long can make reading undefined, and reading a line keeps a client in step with the server. */
  lemma ReadKeeps(c: Client, s: System, line: string)
    requires GoodHistory(s) && GoodClient(c, s.docs, s.logs)
    requires IsLine(line) && line <= c.pipe
    ensures WellFormed(c.doc) && Replayable(line, Size(c.doc))
    ensures GoodClient(Advanced(c, Obey(c.doc, line), line), s.docs, s.logs)
  {
    hide Obey, Size, WellFormed, Commit, ReadLine, Concat, Flat, Replayable;
    NextLine(c, s, line);
    var from, lines := s.docs[c.seen], s.logs[c.seen];
    assert GoodLog(from, lines, s.docs[c.seen + 1]);
    ObeyablePrefix(from, lines, c.pos);
    ObeyablePrefix(from, lines, c.pos + 1);
    assert Init(lines[..c.pos + 1]) == lines[..c.pos];
    assert ObeyAll(from, lines[..c.pos + 1]) == Obey(c.doc, line);
    if c.pos + 1 == |lines| {
      assert lines[..c.pos + 1] == lines;
      FlatHead(s.logs, c);
      assert Flat(s.logs[c.seen..])[c.pos + 1..] == Flat(s.logs[c.seen + 1..]);
      assert Flat(s.logs[c.seen + 1..])[0..] == Flat(s.logs[c.seen + 1..]);
      assert Committed(s.docs[c.seen + 1]);
      AtStart(c.seen + 1, s);
    }
  }

  lemma AtStart(seen: nat, s: System)
    requires GoodHistory(s) && seen < |s.docs|
    ensures WellFormed(s.docs[seen])
    ensures var done := if seen == |s.logs| then [] else s.logs[seen][..0];
      Obeyable(s.docs[seen], done) && ObeyAll(s.docs[seen], done) == s.docs[seen]
    ensures seen < |s.logs| ==> 0 < |s.logs[seen]|
  {
    assert Committed(s.docs[seen]);
    if seen < |s.logs| {
      assert GoodLog(s.docs[seen], s.logs[seen], s.docs[seen + 1]);
    }
  }

  lemma DrainKeeps(s: System, t: System)
    requires Inv(s) && Next(s, t, Drain)
    ensures Inv(t)
  {
    hide Obeyable, ObeyAll, WellFormed, Commit, ReadLine, Round, Log, GoodClient, AllExecutable, Drained, Proper;
    assert Committed(s.docs[|s.logs|]);
    forall i | 0 <= i < |Drained(s.queue)|
      ensures Proper(Drained(s.queue)[i])
    {
      DrainedFrom(s.queue, Drained(s.queue)[i]);
    }
    BroadcastReplayed(s.doc, s.version, s.queue);
    var lines := Log(s.doc, s.version, s.queue);
    forall k | 0 <= k < |t.logs|
      ensures GoodLog(t.docs[k], t.logs[k], t.docs[k + 1])
    {
      if k < |s.logs| {
        assert GoodLog(s.docs[k], s.logs[k], s.docs[k + 1]);
      }
    }
    forall id | id in t.clients
      ensures GoodClient(t.clients[id], t.docs, t.logs)
    {
      DrainKeepsClient(s.clients[id], s.docs, s.logs, t.doc, lines);
    }
  }

  lemma StepKeeps(s: System, t: System, step: Step)
    requires Inv(s) && Next(s, t, step)
    ensures Inv(t)
  {
    hide GoodClient, GoodLog, Committed, Proper, Plain, Rebuild, Text, Obey, Readable, Advanced, WellFormed;
    match step
    case Submit(m) =>
    case Drain => DrainKeeps(s, t);
    case Join(id) => JoinKeeps(s);
    case Leave(id) =>
    case Read(id, line) => ReadKeeps(s.clients[id], s, line);
  }

  lemma {:induction false} RunKeeps(run: seq<System>, steps: seq<Step>, i: nat)
    requires IsRun(run, steps) && i < |run|
    ensures Inv(run[i])
  {
    hide Initial, Inv, Next;
    if i == 0 {
      InvInitial(run[0]);
    } else {
      RunKeeps(run, steps, i - 1);
      assert Next(run[i - 1], run[i], steps[i - 1]);
      StepKeeps(run[i - 1], run[i], steps[i - 1]);
    }
  }

  /** Replica convergence: in every state of every run, a client that has obeyed a number of broadcasts in
      full holds the chunks the server held after the last of them, a client with an empty pipe those the
      server holds, and reading the next line in its pipe, if there is one, is defined exactly if the line fits
      the client's buffer. */
  lemma ReplicaConvergence(run: seq<System>, steps: seq<Step>, i: nat, id: nat)
    requires IsRun(run, steps) && i < |run| && id in run[i].clients
    ensures var s, c := run[i], run[i].clients[id];
      && c.seen < |s.docs| && Last(s.docs) == s.doc
      && (c.pos == 0 ==> c.doc == s.docs[c.seen])
      && (c.pipe == "" ==> c.doc == s.doc)
      && WellFormed(c.doc)
      && forall line :: IsLine(line) && line <= c.pipe ==> (Readable(line, Size(c.doc)) <==> |line| <= 255)
  {
    RunKeeps(run, steps, i);
    var s, c := run[i], run[i].clients[id];
    hide ReadLine, Replayable, Size, WellFormed, Commit;
    if c.pos == 0 {
      AtStart(c.seen, s);
    }
    if c.pipe == "" {
      CaughtUp(s, id);
    }
    forall line | IsLine(line) && line <= c.pipe
      ensures Replayable(line, Size(c.doc))
    {
      ReadKeeps(c, s, line);
    }
  }

  lemma PipeNotEmpty(c: Client, s: System)
    requires GoodHistory(s) && GoodClient(c, s.docs, s.logs) && c.seen < |s.logs|
    ensures c.pipe != ""
  {
    hide Obeyable, ObeyAll, WellFormed, Commit, ReadLine;
    FlatHead(s.logs, c);
    var rest := Flat(s.logs[c.seen..])[c.pos..];
    assert GoodLog(s.docs[c.seen], s.logs[c.seen], s.docs[c.seen + 1]);
    assert rest[0] == s.logs[c.seen][c.pos];
  }

  /** What the server broadcast stays what it was. */
  lemma {:induction false} HistoryGrows(run: seq<System>, steps: seq<Step>, i: nat, j: nat)
    requires IsRun(run, steps) && i <= j < |run|
    ensures run[i].docs <= run[j].docs && run[i].logs <= run[j].logs
  {
    hide Initial;
    if i < j {
      HistoryGrows(run, steps, i, j - 1);
      assert Next(run[j - 1], run[j], steps[j - 1]);
    }
  }

  /** The version counts the rounds with a success; nothing else changes it. */
  lemma VersionStep(s: System, t: System, step: Step)
    requires Next(s, t, step)
    ensures !step.Drain? ==> t.version == s.version
    ensures step.Drain? ==>
      && WellFormed(s.doc) && AllExecutable(Drained(s.queue), Size(s.doc))
      && var due := exists i :: 0 <= i < |Drained(s.queue)| && Celebrates(s.doc, Drained(s.queue), i);
      t.version == if due then s.version + 1 else s.version
  {
    hide Log, Round, Celebrates, Obey, Readable, Rebuild, Plain, Proper, AllExecutable, Size, WellFormed;
    if step.Drain? {
      RoundCommits(s.doc, s.version, s.queue);
    }
  }

  /** The messages submitted since the last drain, in order. */
  function Waiting(steps: seq<Step>): seq<Message> {
    if steps == [] || Last(steps).Drain? then []
    else Waiting(Init(steps)) + (if Last(steps).Submit? then [Last(steps).m] else [])
  }

  /** The queue holds exactly these. */
  lemma {:induction false} QueueHolds(run: seq<System>, steps: seq<Step>, i: nat)
    requires IsRun(run, steps) && i < |run|
    ensures run[i].queue == Waiting(steps[..i])
  {
    hide Initial, Next;
    if i == 0 {
      QueueStarts(run[0]);
      assert steps[..0] == [];
    } else {
      QueueHolds(run, steps, i - 1);
      assert Next(run[i - 1], run[i - 1 + 1], steps[i - 1]);
      QueueStep(run[i - 1], run[i], steps[i - 1]);
      assert Init(steps[..i]) == steps[..i - 1];
      ConcatNil(run[i - 1].queue);
    }
  }

  lemma QueueStarts(s: System)
    requires Initial(s)
    ensures s.queue == []
  {
  }

  lemma QueueStep(s: System, t: System, step: Step)
    requires Next(s, t, step)
    ensures t.queue == if step.Drain? then [] else if step.Submit? then s.queue + [step.m] else s.queue
  {
    hide Obey, Readable, Rebuild, Plain, Proper, Log, Round, RoundVersion;
  }

  /** How many messages were submitted. */
  function Submits(steps: seq<Step>): nat {
    if steps == [] then 0 else Submits(Init(steps)) + (if Last(steps).Submit? then 1 else 0)
  }

  /** No message is lost or executed twice: as many lines were broadcast, version and end lines apart, as messages
      were submitted, apart from those still in the queue. */
  lemma {:induction false} MessagesConserved(run: seq<System>, steps: seq<Step>, i: nat)
    requires IsRun(run, steps) && i < |run|
    ensures |Flat(run[i].logs)| - 2 * |run[i].logs| + |run[i].queue| == Submits(steps[..i])
  {
    hide Obey, Readable, Rebuild, Plain, Proper, Log, Round, RoundVersion;
    if i > 0 {
      MessagesConserved(run, steps, i - 1);
      var s, t, step := run[i - 1], run[i], steps[i - 1];
      assert Next(run[i - 1], run[i - 1 + 1], steps[i - 1]);
      assert Init(steps[..i]) == steps[..i - 1];
      if step.Drain? {
        FlatSnoc(s.logs, Log(s.doc, s.version, s.queue));
        LogSize(s.doc, s.version, s.queue);
      }
    }
  }

  lemma LogSize(ps: seq<Piece>, version: nat, ms: seq<Message>)
    requires WellFormed(ps) && AllExecutable(Drained(ms), Size(ps))
    ensures |Log(ps, version, ms)| == |ms| + 2
  {
  }

  // ---------- every client can catch up ----------

  /** No line of the stream is too long for a client. */
  predicate Fits(stream: string) {
    Overflow !in Events(stream)
  }

  lemma FitsFirst(line: string, rest: string)
    requires IsLine(line)
    ensures Fits(line + rest) <==> |line| <= LINE_MAX && Fits(rest)
  {
    hide Events, ReadLine;
    EventsOfFirst(line, rest);
  }

  /** As long as its pipe is not empty, and no line in it is too long, a client can read a whole line, and doing so
      is a step of the system. */
  lemma ReadProgress(s: System, id: nat) returns (line: string, t: System)
    requires Inv(s) && id in s.clients && s.clients[id].pipe != "" && Fits(s.clients[id].pipe)
    ensures Next(s, t, Read(id, line)) && Inv(t)
    ensures id in t.clients && |t.clients[id].pipe| < |s.clients[id].pipe| && Fits(t.clients[id].pipe)
    ensures t.doc == s.doc
  {
    hide Obeyable, ObeyAll, Obey, Replayable, Size, WellFormed, Commit, ReadLine, Committed, Fits;
    var c := s.clients[id];
    FlatHead(s.logs, c);
    var rest := Flat(s.logs[c.seen..])[c.pos..];
    assert c.pipe == Concat(rest) && rest != [];
    assert GoodLog(s.docs[c.seen], s.logs[c.seen], s.docs[c.seen + 1]);
    assert rest[0] == s.logs[c.seen][c.pos];
    line := rest[0];
    ReadKeeps(c, s, line);
    assert c.pipe == line + c.pipe[|line|..];
    FitsFirst(line, c.pipe[|line|..]);
    t := s.(clients := s.clients[id := Advanced(c, Obey(c.doc, line), line)]);
    StepKeeps(s, t, Read(id, line));
  }

  /** A path of the system on which only the client reads. */
  ghost predicate OnlyReads(path: seq<System>, lines: seq<string>, id: nat) {
    && |path| == |lines| + 1
    && forall i :: 0 <= i < |lines| ==> Next(path[i], path[i + 1], Read(id, lines[i]))
  }

  lemma OnlyReadsCons(s: System, line: string, path: seq<System>, lines: seq<string>, id: nat)
    requires OnlyReads(path, lines, id) && Next(s, path[0], Read(id, line))
    ensures OnlyReads([s] + path, [line] + lines, id)
  {
    hide Next;
    forall i | 0 <= i <= |lines|
      ensures Next(([s] + path)[i], ([s] + path)[i + 1], Read(id, ([line] + lines)[i]))
    {
      if i > 0 {
        assert Next(path[i - 1], path[i - 1 + 1], Read(id, lines[i - 1]));
      }
    }
  }

  /** Eventual convergence: from every state that a run can reach, reading alone brings a client to the
      server's document, if no line in its pipe is too long... */
  lemma {:induction false} CatchUp(s: System, id: nat) returns (path: seq<System>, lines: seq<string>)
    requires Inv(s) && id in s.clients && Fits(s.clients[id].pipe)
    ensures OnlyReads(path, lines, id) && path[0] == s
    ensures id in Last(path).clients && Last(path).clients[id].pipe == ""
    ensures Last(path).clients[id].doc == Last(path).doc == s.doc
    decreases |s.clients[id].pipe|
  {
    hide Next, Inv, Fits;
    if s.clients[id].pipe == "" {
      CaughtUp(s, id);
      path, lines := [s], [];
    } else {
      var line, t := ReadProgress(s, id);
      path, lines := CatchUp(t, id);
      OnlyReadsCons(s, line, path, lines, id);
      path, lines := [s] + path, [line] + lines;
    }
  }

  /** ... and only then can it read its pipe to the end. */
  lemma {:induction false} LongLineStops(path: seq<System>, lines: seq<string>, id: nat)
    requires OnlyReads(path, lines, id) && id in path[0].clients
    requires id in Last(path).clients && Last(path).clients[id].pipe == ""
    ensures Fits(path[0].clients[id].pipe)
    decreases |lines|
  {
    hide Fits, Obey, Replayable, ReadLine;
    if lines == [] {
      assert Fits("") by { FitsNothing(); }
    } else {
      assert Next(path[0], path[1], Read(id, lines[0]));
      assert OnlyReads(path[1..], lines[1..], id) by { OnlyReadsTail(path, lines, id); }
      LongLineStops(path[1..], lines[1..], id);
      var pipe := path[0].clients[id].pipe;
      assert pipe == lines[0] + pipe[|lines[0]|..];
      FitsFirst(lines[0], pipe[|lines[0]|..]);
    }
  }

  lemma FitsNothing()
    ensures Fits("")
  {
  }

  lemma OnlyReadsTail(path: seq<System>, lines: seq<string>, id: nat)
    requires OnlyReads(path, lines, id) && lines != []
    ensures OnlyReads(path[1..], lines[1..], id)
  {
    hide Next;
    forall i | 0 <= i < |lines[1..]|
      ensures Next(path[1..][i], path[1..][i + 1], Read(id, lines[1..][i]))
    {
      assert Next(path[i + 1], path[i + 2], Read(id, lines[i + 1]));
    }
  }

  lemma CaughtUp(s: System, id: nat)
    requires Inv(s) && id in s.clients && s.clients[id].pipe == ""
    ensures s.clients[id].doc == s.doc
  {
    hide ReadLine, Size, WellFormed, Commit, Committed, Obeyable, ObeyAll, Concat, Flat, IsLine;
    var c := s.clients[id];
    if c.seen < |s.logs| {
      PipeNotEmpty(c, s);
    }
    AtStart(c.seen, s);
  }

  // ---------- when no line is too long ----------

  /** A message whose log line fits the client's buffer, whatever the answer. */
  predicate Short(m: Message) {
    m.raw != "" && |m.user| + |Stripped(m.raw)| <= 224
  }

  ghost predicate AllShort(ms: seq<Message>) {
    forall i :: 0 <= i < |ms| ==> Short(ms[i])
  }

  ghost predicate ShortLines(lines: seq<string>) {
    forall i :: 0 <= i < |lines| ==> |lines[i]| <= LINE_MAX
  }

  lemma {:induction false} ShortRunAll(ps: seq<Piece>, ms: seq<Message>)
    requires WellFormed(ps) && AllExecutable(ms, Size(ps)) && AllShort(ms)
    ensures ShortLines(RunAll(ps, ms).1)
    decreases |ms|
  {
    hide RunOnDoc, Executable, LogLine, WellFormed, Size;
    if ms != [] {
      ShortRunAll(ps, Init(ms));
      var m := Last(ms);
      LogLineSize(m.user, Stripped(m.raw), RunOnDoc(RunAll(ps, Init(ms)).0, m.raw, m.perm).1);
    }
  }

  lemma {:induction false} DecimalSize(n: nat, digits: nat, bound: nat)
    requires n < bound && 1 <= digits && bound <= Power10(digits)
    ensures |Decimal(n)| <= digits
  {
    if n >= 10 {
      DecimalSize(n / 10, digits - 1, Power10(digits - 1));
    }
  }

  function Power10(k: nat): nat {
    if k == 0 then 1 else 10 * Power10(k - 1)
  }

  lemma Power10Ten()
    ensures Power10(10) == 10_000_000_000
  {
    assert Power10(3) == 1_000;
    assert Power10(6) == 1_000_000;
    assert Power10(9) == 1_000_000_000;
  }

  lemma ShortLog(ps: seq<Piece>, version: nat, ms: seq<Message>)
    requires WellFormed(ps) && AllExecutable(Drained(ms), Size(ps)) && AllShort(ms)
    requires version < 0x8000_0000
    ensures ShortLines(Log(ps, version, ms))
  {
    hide RunAll, AllExecutable, WellFormed, Size, Successful, Short, Decimal;
    forall i | 0 <= i < |Drained(ms)|
      ensures Short(Drained(ms)[i])
    {
      DrainedFrom(ms, Drained(ms)[i]);
    }
    ShortRunAll(ps, Drained(ms));
    Power10Ten();
    DecimalSize(RoundVersion(ps, version, ms), 10, 10_000_000_000);
  }

  ghost predicate ShortSystem(s: System, bound: nat) {
    AllShort(s.queue) && s.version <= bound && forall k :: 0 <= k < |s.logs| ==> ShortLines(s.logs[k])
  }

  lemma ShortStep(s: System, t: System, step: Step, bound: nat)
    requires Next(s, t, step) && ShortSystem(s, bound) && bound < 0x8000_0000
    requires step.Submit? ==> Short(step.m)
    ensures ShortSystem(t, bound + 1)
  {
    hide Log, ShortLines, Short, Obey, Readable, Proper, Round, Plain, Rebuild;
    if step.Drain? {
      ShortLog(s.doc, s.version, s.queue);
    }
  }

  lemma {:induction false} ShortStates(run: seq<System>, steps: seq<Step>, i: nat)
    requires IsRun(run, steps) && i < |run| <= 0x8000_0000
    requires forall k :: 0 <= k < |steps| && steps[k].Submit? ==> Short(steps[k].m)
    ensures ShortSystem(run[i], i)
  {
    hide Next, Short, ShortSystem;
    if i == 0 {
      ShortStart(run[0]);
    } else {
      ShortStates(run, steps, i - 1);
      assert Next(run[i - 1], run[i - 1 + 1], steps[i - 1]);
      ShortStep(run[i - 1], run[i], steps[i - 1], i - 1);
    }
  }

  lemma ShortStart(s: System)
    requires Initial(s)
    ensures ShortSystem(s, 0)
  {
  }

  lemma {:induction false} FitsConcat(lines: seq<string>)
    requires ShortLines(lines) && forall i :: 0 <= i < |lines| ==> IsLine(lines[i])
    ensures Fits(Concat(lines))
  {
    hide IsLine, Fits;
    if lines == [] {
      FitsNothing();
    } else {
      FitsConcat(lines[1..]);
      FitsFirst(lines[0], Concat(lines[1..]));
    }
  }

  lemma {:induction false} FlatLines(logs: seq<seq<string>>)
    requires forall k :: 0 <= k < |logs| ==> ShortLines(logs[k])
    requires forall k :: 0 <= k < |logs| ==> forall i :: 0 <= i < |logs[k]| ==> IsLine(logs[k][i])
    ensures ShortLines(Flat(logs)) && forall i :: 0 <= i < |Flat(logs)| ==> IsLine(Flat(logs)[i])
  {
    hide IsLine;
    if logs != [] {
      FlatLines(logs[1..]);
    }
  }

  /** In a run of fewer than 2^31 steps whose messages are all short no client ever finds a line that is too long,
      so reading is always defined and every client can catch up. */
  lemma ShortRun(run: seq<System>, steps: seq<Step>, i: nat, id: nat)
    requires IsRun(run, steps) && i < |run| <= 0x8000_0000 && id in run[i].clients
    requires forall k :: 0 <= k < |steps| && steps[k].Submit? ==> Short(steps[k].m)
    ensures Fits(run[i].clients[id].pipe)
  {
    hide IsRun, Fits, Concat, Obeyable, ObeyAll, WellFormed, Commit, ReadLine, Short, IsLine, Flat;
    RunKeeps(run, steps, i);
    ShortStates(run, steps, i);
    var s, c := run[i], run[i].clients[id];
    forall k | 0 <= k < |s.logs|
      ensures forall j :: 0 <= j < |s.logs[k]| ==> IsLine(s.logs[k][j])
    {
      assert GoodLog(s.docs[k], s.logs[k], s.docs[k + 1]);
    }
    FlatHead(s.logs, c);
    FlatLines(s.logs[c.seen..]);
    FitsConcat(Flat(s.logs[c.seen..])[c.pos..]);
  }

  /** A message that is not short: an insertion of 240 letters is executed by the server, and no client can read
      its log line. */
  lemma LongMessageUnreadable(ps: seq<Piece>) returns (m: Message)
    requires WellFormed(ps)
    ensures |m.raw| == 250 && Proper(m) && Executable(m.raw, m.perm, Size(ps))
    ensures RunOnDoc(ps, m.raw, m.perm).1 == Done
    ensures !Readable(LogLine(m.user, Stripped(m.raw), Done), Size(ps))
  {
    hide WellFormed, Size, Tokenise, LogLine, ReadLine, Contains, Events;
    var text := LongInsertOverflows(ps);
    m := Message(0, text + "\n", "ann", 'w');
    assert Stripped(m.raw) == text;
  }

  // ---------- when clients may join ----------

  lemma RequestPlain(m: Message)
    requires Proper(m) && Request(m.raw, m.perm).0.Some?
    ensures PlainCommand(Request(m.raw, m.perm).0.value)
  {
    TokenisePlain(Stripped(m.raw));
  }

  lemma {:induction false} RunAllPlain(ps: seq<Piece>, ms: seq<Message>)
    requires WellFormed(ps) && AllExecutable(ms, Size(ps)) && AllProper(ms) && PlainPieces(ps)
    ensures PlainPieces(RunAll(ps, ms).0)
    decreases |ms|
  {
    hide Exec, Request, PlainPieces, Size, WellFormed, LogLine, Proper;
    if ms != [] {
      var m := Last(ms);
      RunAllPlain(ps, Init(ms));
      if Request(m.raw, m.perm).0.Some? {
        RequestPlain(m);
        ExecPlain(RunAll(ps, Init(ms)).0, Request(m.raw, m.perm).0.value);
      }
    }
  }

  /** Clients may join after a round, unless the round made 208 lines of a list follow each other. */
  lemma RoundStaysPlain(ps: seq<Piece>, ms: seq<Message>)
    requires Committed(ps) && Plain(Gathered(ps))
    requires AllProper(Drained(ms)) && AllExecutable(Drained(ms), Size(ps))
    ensures var ls := Gathered(RunAll(ps, Drained(ms)).0);
      Plain(Gathered(Round(ps, ms))) <==> forall from, to :: to == from + 208 ==> !Listed(ls, from, to)
  {
    hide RunAll, Renumber, Canon, Split, Merged, Plain, Successful, WellFormed, PlainPieces, Listed;
    CommittedLines(ps);
    CanonPlain(Gathered(ps));
    RunAllPlain(ps, Drained(ms));
    var (rs, lines) := RunAll(ps, Drained(ms));
    GatheredPlain(rs);
    RenumberPlain(Gathered(rs));
    GatheredCanon(Renumber(Gathered(rs)));
    VersionLineSkipped(0);
    BatchReplayed(ps, VersionLine(0), Drained(ms));
  }

  lemma CanonPlain(ls: seq<string>)
    requires ls != [] && Plain(ls)
    ensures PlainPieces(Canon(ls))
  {
    LayoutPlain(ls);
  }

  lemma GatheredPlain(ps: seq<Piece>)
    requires PlainPieces(ps)
    ensures Plain(Gathered(ps))
  {
    MergedPlain(ps);
    SplitPlain(Merged(ps));
  }

  // ---------- what a command that contains the word SUCCESS does ----------

  /** A reader's insertion is refused, but the clients execute its text up to the word: they diverge. */
  lemma SuccessInTextDiverges()
    ensures var ps := Canon([""]);
      var m := Message(0, "INSERT 0 hiSUCCESS\n", "ann", 'r');
      && WellFormed(ps) && Executable(m.raw, m.perm, Size(ps))
      && RunOnDoc(ps, m.raw, m.perm) == (ps, Unauthorised)
      && var line := LogLine(m.user, Stripped(m.raw), Unauthorised);
      && Readable(line, Size(ps))
      && Commit(Obey(ps, line)) == Canon(["h"])
      && Canon(["h"]) != ps
  {
    hide Canon, Commit, LogLine, ReadLine, Tokenise, Size, WellFormed, RunOnDoc, Place;
    DivergingMessage();
    DivergingLine();
    LogLineSize("ann", "INSERT 0 hiSUCCESS", Unauthorised);
    DivergingInsert();
    DivergingReplay(LogLine("ann", "INSERT 0 hiSUCCESS", Unauthorised));
  }

  lemma DivergingReplay(line: string)
    requires ReadLine(line) == Run("INSERT 0 hi")
    ensures Replayable(line, Size(Canon([""])))
    ensures Obey(Canon([""]), line) == Exec(Canon([""]), Command.Insert(0, "h")).0
  {
    hide ReadLine, Tokenise, Exec, Canon, Size, WellFormed;
    CanonCanonical([""]);
    InsertH();
    assert |"INSERT 0 hi"| == 11;
  }

  lemma DivergingMessage()
    ensures var raw, ps := "INSERT 0 hiSUCCESS\n", Canon([""]);
      && WellFormed(ps) && Executable(raw, 'r', Size(ps))
      && RunOnDoc(ps, raw, 'r') == (ps, Unauthorised)
      && Stripped(raw) == "INSERT 0 hiSUCCESS"
  {
    CanonCanonical([""]);
  }

  lemma DivergingLine()
    ensures ReadLine(LogLine("ann", "INSERT 0 hiSUCCESS", Unauthorised)) == Run("INSERT 0 hi")
  {
    hide StrStr, ReadLine, LogLine;
    var tail := "INSERT 0 hiSUCCESS" + " " + Word(Unauthorised) + "\n";
    LogLineTail("ann", "INSERT 0 hiSUCCESS", Unauthorised);
    assert tail[11..18] == "SUCCESS";
    assert OccursAt(tail, "SUCCESS", 11);
    var k := StrStr(tail, "SUCCESS").value;
    OccursChar(tail, "SUCCESS", k, 0);
    OccursChar(tail, "SUCCESS", k, 1);
    var head := "INSERT 0 hi";
    assert forall j :: 0 <= j < 11 ==> tail[j] == head[j];
    assert forall j :: 0 <= j < 11 && head[j] == 'S' ==> j == 2;
    assert head[3] == 'E';
    assert k == 11;
    assert tail[..11] == "INSERT 0 hi";
  }

  lemma InsertH()
    ensures Tokenise(Stripped("INSERT 0 hi")) == Some(Command.Insert(0, "h"))
  {
    InsertAtStart("h");
    assert Stripped("INSERT 0 hi") == "INSERT 0 " + "h";
  }

  lemma DivergingInsert()
    ensures Size(Canon([""])) == 0
    ensures Commit(Exec(Canon([""]), Command.Insert(0, "h")).0) == Canon(["h"]) != Canon([""])
  {
    hide Place, Commit, Canon, Renumber, Size, Unlines;
    CanonSize([""]);
    UnlinesEmpty();
    LastLineMeaning([""], "h");
    assert [""][|[""]| - 1] == "" && "" + "h" == "h" && [""][..0] == [];
    assert Init([""]) + [Last([""]) + "h"] == ["h"];
    RenumberH();
    CanonInjective(["h"], [""]);
  }

  lemma RenumberH()
    ensures Renumber(["h"]) == ["h"]
  {
  }
}
