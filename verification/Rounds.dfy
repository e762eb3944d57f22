/** What a server round makes of the document and the queue, and what the lines it broadcasts make a client
    do (source/server.c, source/client.c). */
module Rounds {
  import opened Seqs
  import opened Pieces
  import opened Commits
  import opened Wire
  import opened Queue

  // ---------- a server round ----------

  ghost predicate AllExecutable(ms: seq<Message>, size: nat) {
    forall i :: 0 <= i < |ms| ==> Executable(ms[i].raw, ms[i].perm, size)
  }

  /** The messages executed in order: the chunks after them and their log lines. */
  function RunAll(ps: seq<Piece>, ms: seq<Message>): (r: (seq<Piece>, seq<string>))
    requires WellFormed(ps) && AllExecutable(ms, Size(ps))
    ensures WellFormed(r.0) && Size(r.0) == Size(ps) && |r.1| == |ms|
    decreases |ms|
  {
    if ms == [] then (ps, [])
    else
      var (qs, lines) := RunAll(ps, Init(ms));
      var m := Last(ms);
      var (rs, o) := RunOnDoc(qs, m.raw, m.perm);
      (rs, lines + [LogLine(m.user, Stripped(m.raw), o)])
  }

  /** The edits of a round mention a success. */
  predicate Successful(lines: seq<string>) {
    StrStr(Concat(lines), "SUCCESS").Some?
  }

  function Round(ps: seq<Piece>, ms: seq<Message>): (qs: seq<Piece>)
    requires WellFormed(ps) && AllExecutable(Drained(ms), Size(ps))
    ensures WellFormed(qs)
  {
    var (rs, lines) := RunAll(ps, Drained(ms));
    if Successful(lines) then Commit(rs) else rs
  }

  function RoundVersion(ps: seq<Piece>, version: nat, ms: seq<Message>): nat
    requires WellFormed(ps) && AllExecutable(Drained(ms), Size(ps))
  {
    if Successful(RunAll(ps, Drained(ms)).1) then version + 1 else version
  }

  /** The lines of a broadcast. */
  function Log(ps: seq<Piece>, version: nat, ms: seq<Message>): (lines: seq<string>)
    requires WellFormed(ps) && AllExecutable(Drained(ms), Size(ps))
    ensures lines != []
  {
    [VersionLine(RoundVersion(ps, version, ms))] + RunAll(ps, Drained(ms)).1 + [END_LINE]
  }

  /** How message i of a round is answered, after those before it were executed. */
  function AnswerAt(ps: seq<Piece>, ms: seq<Message>, i: nat): Answer
    requires WellFormed(ps) && AllExecutable(ms, Size(ps)) && i < |ms|
  {
    PrefixExecutable(ps, ms, i);
    RunOnDoc(RunAll(ps, ms[..i]).0, ms[i].raw, ms[i].perm).1
  }

  lemma PrefixExecutable(ps: seq<Piece>, ms: seq<Message>, i: nat)
    requires WellFormed(ps) && AllExecutable(ms, Size(ps)) && i < |ms|
    ensures AllExecutable(ms[..i], Size(ps)) && Executable(ms[i].raw, ms[i].perm, Size(ps)) && ms[i].raw != ""
  {
  }

  /** The message is answered with success, or its user's name or its text mentions one. */
  predicate Celebrates(ps: seq<Piece>, ms: seq<Message>, i: nat)
    requires WellFormed(ps) && AllExecutable(ms, Size(ps)) && i < |ms|
  {
    PrefixExecutable(ps, ms, i);
    AnswerAt(ps, ms, i) == Done || Contains(ms[i].user, "SUCCESS") || Contains(Stripped(ms[i].raw), "SUCCESS")
  }

  /** The lines of a round up to the next message, and whether they mention a success. */
  lemma {:induction false} RoundMentions(ps: seq<Piece>, ms: seq<Message>, n: nat)
    requires WellFormed(ps) && AllExecutable(ms, Size(ps)) && n <= |ms|
    ensures AllExecutable(ms[..n], Size(ps))
    ensures var edits := Concat(RunAll(ps, ms[..n]).1);
      && (edits == "" || edits[|edits| - 1] == '\n')
      && (Contains(edits, "SUCCESS") <==> exists i :: 0 <= i < n && Celebrates(ps, ms, i))
    ensures (forall i :: 0 <= i < n ==> AnswerAt(ps, ms, i) != Done) ==> RunAll(ps, ms[..n]).0 == ps
  {
    hide RunOnDoc, LogLine, Contains, Executable, Size, WellFormed, Concat;
    if n == 0 {
      assert ms[..0] == [];
      NothingMentioned();
    } else {
      RoundMentions(ps, ms, n - 1);
      PrefixExecutable(ps, ms, n - 1);
      assert Init(ms[..n]) == ms[..n - 1];
      var m, o := ms[n - 1], AnswerAt(ps, ms, n - 1);
      var lines, line := RunAll(ps, ms[..n - 1]).1, LogLine(m.user, Stripped(m.raw), o);
      assert RunAll(ps, ms[..n]).1 == lines + [line];
      LineEnds(m.user, Stripped(m.raw), o);
      MentionsMore(lines, line);
      LogLineMentions(m.user, Stripped(m.raw), o);
      assert Celebrates(ps, ms, n - 1) <==> Contains(line, "SUCCESS");
      if i :| 0 <= i < n && Celebrates(ps, ms, i) {
        assert i == n - 1 || i < n - 1;
      }
    }
  }

  lemma NothingMentioned()
    ensures Concat([]) == "" && !Contains("", "SUCCESS")
  {
    WordMentions(Refused);
  }

  lemma LineEnds(user: string, text: string, o: Answer)
    ensures var line := LogLine(user, text, o); line != "" && line[|line| - 1] == '\n'
  {
    hide Word;
    var head := "EDIT " + user + " " + text + " " + Word(o);
    assert LogLine(user, text, o) == head + "\n";
  }

  lemma MentionsMore(lines: seq<string>, line: string)
    requires Concat(lines) == "" || Concat(lines)[|Concat(lines)| - 1] == '\n'
    requires line != "" && line[|line| - 1] == '\n'
    ensures var edits := Concat(lines + [line]);
      && edits != "" && edits[|edits| - 1] == '\n'
      && (Contains(edits, "SUCCESS") <==> Contains(Concat(lines), "SUCCESS") || Contains(line, "SUCCESS"))
  {
    hide Contains;
    var a := Concat(lines);
    ConcatConcat(lines, [line]);
    assert Concat([line]) == line;
    NothingMentioned();
    if a == "" {
      assert a + line == line;
    } else {
      var b := a[..|a| - 1];
      assert a == b + ['\n'] + "" && a + line == b + ['\n'] + line;
      ContainsAround(b, '\n', "", "SUCCESS");
      ContainsAround(b, '\n', line, "SUCCESS");
    }
  }

  /** When the server commits: the version grows by one, and the document is committed, exactly if some message of the
      round is answered with success, or mentions one in its user's name or its text; otherwise the document stays
      as it is. */
  lemma RoundCommits(ps: seq<Piece>, version: nat, ms: seq<Message>)
    requires WellFormed(ps) && AllExecutable(Drained(ms), Size(ps))
    ensures var due := exists i :: 0 <= i < |Drained(ms)| && Celebrates(ps, Drained(ms), i);
      && RoundVersion(ps, version, ms) == (if due then version + 1 else version)
      && Round(ps, ms) == (if due then Commit(RunAll(ps, Drained(ms)).0) else ps)
  {
    hide RunOnDoc, LogLine, Contains, Executable, Size, WellFormed, Concat, Commit, StrStr;
    var all := Drained(ms);
    RoundMentions(ps, all, |all|);
    assert all[..|all|] == all;
    SearchFinds(Concat(RunAll(ps, all).1), "SUCCESS");
    forall i | 0 <= i < |all| && AnswerAt(ps, all, i) == Done
      ensures Celebrates(ps, all, i)
    {
      PrefixExecutable(ps, all, i);
    }
  }

  lemma SearchFinds(s: string, pat: string)
    ensures StrStr(s, pat).Some? <==> Contains(s, pat)
  {
    if StrStr(s, pat).Some? {
      assert OccursAt(s, pat, StrStr(s, pat).value);
    }
  }

  /** What a round broadcasts, as it is written: the version after the round, each message of the drain with its
      answer, and the end. */
  lemma LogAsWritten(ps: seq<Piece>, version: nat, ms: seq<Message>)
    requires WellFormed(ps) && AllExecutable(Drained(ms), Size(ps))
    ensures var all, lines := Drained(ms), Log(ps, version, ms);
      && |lines| == |all| + 2
      && lines[0] == "VERSION " + Decimal(RoundVersion(ps, version, ms)) + "\n"
      && lines[|all| + 1] == "END\n"
      && forall i :: 0 <= i < |all| ==>
           all[i].raw != "" && lines[i + 1] == LogLine(all[i].user, Stripped(all[i].raw), AnswerAt(ps, all, i))
  {
    hide RunOnDoc, LogLine, Executable, Size, WellFormed, RunAll, AnswerAt, Decimal, RoundVersion;
    var all, lines := Drained(ms), Log(ps, version, ms);
    forall i | 0 <= i < |all|
      ensures all[i].raw != "" && lines[i + 1] == LogLine(all[i].user, Stripped(all[i].raw), AnswerAt(ps, all, i))
    {
      PrefixExecutable(ps, all, i);
      LineAt(ps, all, i, |all|);
      assert all[..|all|] == all;
    }
  }

  lemma {:induction false} LineAt(ps: seq<Piece>, ms: seq<Message>, i: nat, n: nat)
    requires WellFormed(ps) && AllExecutable(ms, Size(ps)) && i < n <= |ms|
    ensures AllExecutable(ms[..n], Size(ps)) && ms[i].raw != ""
    ensures RunAll(ps, ms[..n]).1[i] == LogLine(ms[i].user, Stripped(ms[i].raw), AnswerAt(ps, ms, i))
  {
    hide RunOnDoc, LogLine, Executable, Size, WellFormed;
    assert Init(ms[..n]) == ms[..n - 1];
    PrefixExecutable(ps, ms, i);
    PrefixExecutable(ps, ms, n - 1);
    if i < n - 1 {
      LineAt(ps, ms, i, n - 1);
    }
  }

  /** A round without messages only tells the version. */
  lemma EmptyRound(ps: seq<Piece>, version: nat)
    requires WellFormed(ps)
    ensures Drained([]) == [] && AllExecutable([], Size(ps))
    ensures Round(ps, []) == ps && RoundVersion(ps, version, []) == version
    ensures Log(ps, version, []) == ["VERSION " + Decimal(version) + "\n", "END\n"]
  {
    hide Commit, WellFormed, Size;
    RoundCommits(ps, version, []);
  }

  /** A user whose name mentions a success makes the server commit although the message is refused. */
  lemma NameCommits(ps: seq<Piece>, version: nat)
    requires WellFormed(ps)
    ensures var m := Message(0, "NEWLINE 0\n", "SUCCESSOR", 'r');
      && Drained([m]) == [m] && AllExecutable([m], Size(ps))
      && AnswerAt(ps, [m], 0) == Unauthorised
      && RoundVersion(ps, version, [m]) == version + 1
  {
    hide Tokenise, Size, WellFormed, Commit;
    var m := Message(0, "NEWLINE 0\n", "SUCCESSOR", 'r');
    assert Without([m], 0) == [];
    assert "SUCCESSOR"[0..7] == "SUCCESS";
    assert OccursAt("SUCCESSOR", "SUCCESS", 0);
    RoundCommits(ps, version, [m]);
    assert Celebrates(ps, [m], 0);
  }

  // ---------- a client ----------

  /** What the line makes a client execute is defined. */
  predicate Replayable(line: string, size: nat) {
    ReadLine(line).Run? ==> Executable(ReadLine(line).raw, 'w', size)
  }

  /** Reading the line is defined altogether: it fits the client's buffer, and so is what it makes it execute. */
  predicate Readable(line: string, size: nat) {
    |line| <= LINE_MAX && Replayable(line, size)
  }

  /** What a client does with one line: replayed commands run with the permission to write. */
  function Obey(ps: seq<Piece>, line: string): (qs: seq<Piece>)
    requires WellFormed(ps) && Replayable(line, Size(ps))
    ensures WellFormed(qs)
  {
    match ReadLine(line)
    case Skip => ps
    case NextVersion => Commit(ps)
    case Run(raw) => RunOnDoc(ps, raw, 'w').0
  }

  /** Nothing that the lines make a client execute is undefined, if they fit its buffer. */
  predicate Obeyable(ps: seq<Piece>, lines: seq<string>)
    requires WellFormed(ps)
    decreases |lines|, 0
  {
    lines == [] || (Obeyable(ps, Init(lines)) && Replayable(Last(lines), Size(ObeyAll(ps, Init(lines)))))
  }

  function ObeyAll(ps: seq<Piece>, lines: seq<string>): (qs: seq<Piece>)
    requires WellFormed(ps) && Obeyable(ps, lines)
    ensures WellFormed(qs)
    decreases |lines|, 1
  {
    if lines == [] then ps else Obey(ObeyAll(ps, Init(lines)), Last(lines))
  }

  lemma {:induction false} ObeyablePrefix(ps: seq<Piece>, lines: seq<string>, n: nat)
    requires WellFormed(ps) && Obeyable(ps, lines) && n <= |lines|
    ensures Obeyable(ps, lines[..n])
    ensures n < |lines| ==> Replayable(lines[n], Size(ObeyAll(ps, lines[..n])))
    decreases |lines|
  {
    hide Replayable, Size, Obey, WellFormed;
    if n < |lines| {
      var a := Init(lines);
      assert a[..n] == lines[..n];
      if n < |a| {
        ObeyablePrefix(ps, a, n);
        assert a[n] == lines[n];
      } else {
        assert a[..n] == a;
      }
    } else {
      assert lines[..n] == lines;
    }
  }
}
