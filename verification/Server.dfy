/** One round of the server's main loop on the real document and queue (source/server.c, source/server_misc.c). */
module Server {
  import opened Seqs
  import opened Pieces
  import opened Commits
  import opened Commands
  import opened Documents
  import opened Wire
  import opened Queue
  import opened Rounds
  import opened Snapshots

  /** Executes one message on the document and reports it as a log line. */
  method Execute(doc: Document, min: Msg) returns (r: string)
    requires doc.Valid() && Executable(min.text, min.perms, doc.size)
    modifies doc`spine, doc`shape, doc`repr, doc.repr, min`text
    ensures doc.Valid() && fresh(doc.repr - old(doc.repr))
    ensures min.text == Stripped(old(min.text))
    ensures var (ps, o) := RunOnDoc(old(doc.shape), old(min.text), min.perms);
      doc.shape == ps && r == LogLine(min.user, Stripped(old(min.text)), o)
  {
    hide Exec, LogLine, Tokenise, Size, WellFormed, Document.Linked;
    var size := |min.text|;
    min.text := min.text[..size - 1];
    var text := min.text;
    if min.perms == 'r' {
      return LogLine(min.user, text, Unauthorised);
    } else if size > 256 {
      return LogLine(min.user, text, Refused);
    }
    match Tokenise(text)
    case None => return LogLine(min.user, text, Refused);
    case Some(cmd) =>
      if cmd.Insert? && '\n' in cmd.content {
        return LogLine(min.user, text, BadContent);
      }
      var result := Dispatch(doc, cmd);
      return LogLine(min.user, text, AnswerOf(result));
  }

  method Dispatch(doc: Document, cmd: Command) returns (result: int)
    requires doc.Valid() && Defined(cmd, doc.size)
    modifies doc`spine, doc`shape, doc`repr, doc.repr
    ensures doc.Valid() && fresh(doc.repr - old(doc.repr))
    ensures (doc.shape, result) == Exec(old(doc.shape), cmd)
    ensures result != SUCCESS ==> doc.spine == old(doc.spine)
  {
    hide Exec, Size, WellFormed, Document.Linked;
    match cmd
    case Insert(pos, content) => result := doc.Insert(doc.version, pos, content);
    case Del(pos, len) => result := doc.Delete(doc.version, pos, len);
    case Newline(pos) => result := doc.Newline(doc.version, pos);
    case Heading(level, pos) => result := doc.Heading(doc.version, level, pos);
    case Bold(start, end) => result := doc.Bold(doc.version, start, end);
    case Italic(start, end) => result := doc.Italic(doc.version, start, end);
    case Blockquote(pos) => result := doc.Blockquote(doc.version, pos);
    case OrderedList(pos) => result := doc.OrderedList(doc.version, pos);
    case UnorderedList(pos) => result := doc.UnorderedList(doc.version, pos);
    case Code(start, end) => result := doc.Code(doc.version, start, end);
    case HorizontalRule(pos) => result := doc.HorizontalRule(doc.version, pos);
    case Link(start, end, url) => result := doc.Link(doc.version, start, end, url);
  }

  /** The earliest message is executed and removed from the queue. */
  method DrainOne(doc: Document, queue: MsgList) returns (r: string)
    requires doc.Valid() && queue.Valid() && queue.Contents() != []
    requires var m := queue.Contents()[FirstMin(queue.Contents())]; Executable(m.raw, m.perm, doc.size)
    modifies doc`spine, doc`shape, doc`repr, doc.repr, queue, queue.repr
    ensures doc.Valid() && fresh(doc.repr - old(doc.repr))
    ensures queue.Valid() && queue.repr == old(queue.repr)
    ensures queue.Contents() == Without(old(queue.Contents()), FirstMin(old(queue.Contents())))
    ensures var m := old(queue.Contents()[FirstMin(queue.Contents())]);
      var (ps, o) := RunOnDoc(old(doc.shape), m.raw, m.perm);
      doc.shape == ps && r == LogLine(m.user, Stripped(m.raw), o)
  {
    hide RunOnDoc, Executable, WellFormed, Size, LogLine, Document.Linked, FirstMin, Drained;
    var min, minPrev;
    ghost var k;
    min, minPrev, k := queue.Earliest();
    ghost var ms := queue.Contents();
    assert ms[k] == min.Value();
    r := Execute(doc, min);
    assert forall i :: 0 <= i < |ms| && i != k ==> queue.Contents()[i] == ms[i];
    assert Without(queue.Contents(), k) == Without(ms, k);
    queue.RemoveMsg(min, minPrev, k);
  }

  /** Drains the queue, commits if any edit succeeded, and returns the broadcast. */
  method ServerRound(doc: Document, queue: MsgList) returns (log: string)
    requires doc.Valid() && queue.Valid()
    requires AllExecutable(Drained(queue.Contents()), doc.size)
    modifies doc, doc.repr, queue, queue.repr
    ensures doc.Valid() && fresh(doc.repr - old(doc.repr))
    ensures queue.Valid() && queue.Contents() == []
    ensures doc.shape == Round(old(doc.shape), old(queue.Contents()))
    ensures doc.version == RoundVersion(old(doc.shape), old(doc.version), old(queue.Contents()))
    ensures log == Concat(Log(old(doc.shape), old(doc.version), old(queue.Contents())))
  {
    hide RunOnDoc, Executable, WellFormed, Size, LogLine, Commit, Concat, StrStr, VersionLine, RunAll,
      Document.Linked, AllExecutable, FirstMin;
    ghost var ps, all := doc.shape, Drained(queue.Contents());
    var edits := "";
    ghost var n := 0;
    RunAllStart(ps, all);
    while queue.size != 0
      invariant doc.Valid() && fresh(doc.repr - old(doc.repr)) && doc.version == old(doc.version)
      invariant queue.Valid() && queue.repr == old(queue.repr)
      invariant n <= |all| && Drained(queue.Contents()) == all[n..]
      invariant AllExecutable(all[..n], Size(ps)) && doc.size == Size(ps)
      invariant doc.shape == RunAll(ps, all[..n]).0 && edits == Concat(RunAll(ps, all[..n]).1)
      decreases queue.size
    {
      DrainedStep(queue.Contents(), all, n);
      RunAllSnoc(ps, all, n);
      var r := DrainOne(doc, queue);
      edits := edits + r;
      n := n + 1;
    }
    assert all[..n] == all;
    if StrStr(edits, "SUCCESS").Some? {
      doc.IncrementVersion();
    }
    log := VersionLine(doc.version) + edits + END_LINE;
    LogConcat(VersionLine(doc.version), RunAll(ps, all).1);
  }

  /** What a joining client is sent: the size of the document and its text, as far as a C string goes. */
  method SendSnapshot(doc: Document) returns (size: nat, bytes: string)
    requires doc.Valid()
    ensures size == |Text(doc.shape)| && bytes == Terminated(Text(doc.shape))
  {
    hide Size, Text, Terminated, WellFormed, Document.Linked;
    size := doc.size;
    var contents := doc.Flatten();
    bytes := Terminated(contents);
  }

  lemma DrainedStep(ms: seq<Message>, all: seq<Message>, n: nat)
    requires ms != [] && n <= |all| && Drained(ms) == all[n..]
    ensures n < |all| && all[n] == ms[FirstMin(ms)]
    ensures Drained(Without(ms, FirstMin(ms))) == all[n + 1..]
  {
    hide FirstMin;
    assert all[n] == all[n..][0];
    assert all[n + 1..] == all[n..][1..];
  }

  lemma RunAllStart(ps: seq<Piece>, ms: seq<Message>)
    requires WellFormed(ps)
    ensures ms[..0] == [] && ms[0..] == ms && AllExecutable([], Size(ps))
    ensures RunAll(ps, []).0 == ps && Concat(RunAll(ps, []).1) == ""
  {
  }

  lemma LogConcat(head: string, lines: seq<string>)
    ensures Concat([head] + lines + [END_LINE]) == head + Concat(lines) + END_LINE
  {
    ConcatConcat([head] + lines, [END_LINE]);
    ConcatConcat([head], lines);
    assert Concat([head]) == head && Concat([END_LINE]) == END_LINE;
  }

  lemma RunAllSnoc(ps: seq<Piece>, ms: seq<Message>, n: nat)
    requires WellFormed(ps) && AllExecutable(ms, Size(ps)) && n < |ms|
    ensures AllExecutable(ms[..n], Size(ps)) && AllExecutable(ms[..n + 1], Size(ps))
    ensures Executable(ms[n].raw, ms[n].perm, Size(ps))
    ensures var a, b, m := RunAll(ps, ms[..n]), RunAll(ps, ms[..n + 1]), ms[n];
      && b.0 == RunOnDoc(a.0, m.raw, m.perm).0
      && Concat(b.1) == Concat(a.1) + LogLine(m.user, Stripped(m.raw), RunOnDoc(a.0, m.raw, m.perm).1)
  {
    hide RunOnDoc, Executable, WellFormed, Size, LogLine;
    assert Init(ms[..n + 1]) == ms[..n];
    var (qs, lines) := RunAll(ps, ms[..n]);
    var line := Last(RunAll(ps, ms[..n + 1]).1);
    ConcatConcat(lines, [line]);
    assert Concat([line]) == line;
  }
}
