/** Joining: the server flattens its document, the client rebuilds it line by line (source/server.c,
    source/client.c). */
module Snapshots {
  import opened Seqs
  import opened Pieces
  import opened Drafts
  import opened Lines
  import opened Commits
  import opened Commands
  import opened Batches
  import opened Markers
  import opened Wire

  /** The client's loop: a line break and then the line's text are inserted at the end of what is built so
      far, and committed; text after the last line break is inserted and committed without one. */
  function RebuildFrom(ps: seq<Piece>, rest: string): (qs: seq<Piece>)
    requires WellFormed(ps)
    ensures WellFormed(qs)
    decreases |rest|
  {
    match StrChr(rest, '\n')
    case None => if rest == "" then ps else Commit(Place(ps, Size(ps), Fresh(rest)))
    case Some(k) => RebuildFrom(LineAdded(ps, rest[..k]), rest[k + 1..])
  }

  function LineAdded(ps: seq<Piece>, line: string): (qs: seq<Piece>)
    requires WellFormed(ps)
    ensures WellFormed(qs)
  {
    Commit(Place(Place(ps, Size(ps), BREAK), Size(ps), Fresh(line)))
  }

  function Rebuild(text: string): (qs: seq<Piece>)
    ensures WellFormed(qs)
  {
    RebuildFrom(Canon([""]), text)
  }

  /** The same on lines. */
  function RebuildLines(ms: seq<string>, rest: string): (ls: seq<string>)
    requires ms != []
    ensures ls != []
    decreases |rest|
  {
    match StrChr(rest, '\n')
    case None => if rest == "" then ms else Renumber(Init(ms) + [Last(ms) + rest])
    case Some(k) => RebuildLines(Renumber(Init(ms) + [Last(ms) + rest[..k], ""]), rest[k + 1..])
  }

  /** A line break and then a text inserted at the end of a clean document: the text comes first. */
  lemma LineAddedMeaning(ms: seq<string>, line: string)
    requires ms != []
    ensures LineAdded(Canon(ms), line) == Canon(Renumber(Init(ms) + [Last(ms) + line, ""]))
  {
    hide Abs, Size, Place, Split, Renumber, Chars, Canon, Draft.Merge, Unlines, WellFormed, Commit, Ahead, Behind;
    var ps, gs := Canon(ms), Unlines(ms);
    AbsCanon(ms);
    AbsSize(ps);
    var qs := Place(ps, Size(ps), BREAK);
    PlaceMeaning(ps, |gs|, BREAK);
    assert Glyphs(BREAK) == [Brk];
    PlaceMeaning(qs, |gs|, Fresh(line));
    InsertTwice(Clean(gs), |gs|, [Brk], Chars(line));
    EndMerge(gs, Chars(line) + [Brk]);
    CommitMeaning(Place(qs, |gs|, Fresh(line)));
    assert gs + (Chars(line) + [Brk]) == gs + Chars(line) + [Brk];
    SplitUnlines(ms);
    SplitChars(gs, line);
    SplitBreak(gs + Chars(line));
    assert Init(ms) + [Last(ms) + line] + [""] == Init(ms) + [Last(ms) + line, ""];
  }

  lemma LineAddedSize(ms: seq<string>, line: string)
    requires ms != []
    ensures Size(LineAdded(Canon(ms), line)) == Size(Canon(ms)) + |line| + 1
  {
    hide LineAdded, Canon, Renumber, Size;
    var ls := Init(ms) + [Last(ms) + line, ""];
    LineAddedMeaning(ms, line);
    CanonSize(Renumber(ls));
    CanonSize(ms);
    UnlinesRenumber(ls);
    assert Init(ls) == Init(ms) + [Last(ms) + line];
    assert Init(Init(ls)) == Init(ms);
  }

  lemma CanonSize(ls: seq<string>)
    requires ls != []
    ensures Size(Canon(ls)) == |Unlines(ls)|
  {
    AbsCanon(ls);
    AbsSize(Canon(ls));
  }

  lemma LastLineMeaning(ms: seq<string>, line: string)
    requires ms != []
    ensures Commit(Place(Canon(ms), Size(Canon(ms)), Fresh(line)))
         == Canon(Renumber(Init(ms) + [Last(ms) + line]))
  {
    hide Abs, Size, Place, Split, Renumber, Chars, Canon, Draft.Merge, Unlines, WellFormed, Commit, Ahead, Behind;
    var ps, gs := Canon(ms), Unlines(ms);
    AbsCanon(ms);
    AbsSize(ps);
    PlaceMeaning(ps, |gs|, Fresh(line));
    EndMerge(gs, Chars(line));
    CommitMeaning(Place(ps, |gs|, Fresh(line)));
    SplitUnlines(ms);
    SplitChars(gs, line);
  }

  lemma EndMerge(gs: seq<Glyph>, added: seq<Glyph>)
    ensures Clean(gs).Insert(|gs|, added).Merge() == gs + added
  {
    InsertedMerge(gs, |gs|, added);
    assert gs[..|gs|] == gs && gs[|gs|..] == [];
    assert gs + added + [] == gs + added;
  }

  lemma {:induction false} RebuildMeaning(ms: seq<string>, rest: string)
    requires ms != []
    ensures RebuildFrom(Canon(ms), rest) == Canon(RebuildLines(ms, rest))
    decreases |rest|
  {
    hide LineAdded, Commit, Canon, Place, Size, Renumber, WellFormed;
    match StrChr(rest, '\n')
    case None =>
      if rest != "" {
        LastLineMeaning(ms, rest);
      }
    case Some(k) =>
      LineAddedMeaning(ms, rest[..k]);
      RebuildMeaning(Renumber(Init(ms) + [Last(ms) + rest[..k], ""]), rest[k + 1..]);
  }

  // ---------- the flat text of lines ----------

  function Joined(ls: seq<string>): string
    requires ls != []
  {
    if |ls| == 1 then ls[0] else ls[0] + "\n" + Joined(ls[1..])
  }

  lemma {:induction false} JoinedSnoc(ls: seq<string>, l: string)
    requires ls != []
    ensures Joined(ls + [l]) == Joined(ls) + "\n" + l
  {
    if |ls| > 1 {
      assert (ls + [l])[1..] == ls[1..] + [l];
      JoinedSnoc(ls[1..], l);
      assert ls[0] + "\n" + (Joined(ls[1..]) + "\n" + l) == Joined(ls) + "\n" + l;
    } else {
      assert (ls + [l])[1..] == [l];
    }
  }

  lemma {:induction false} RenderUnlines(ls: seq<string>)
    requires ls != []
    ensures Render(Unlines(ls)) == Joined(ls)
  {
    var l := Last(ls);
    assert Render(Chars(l)) == l;
    if |ls| > 1 {
      var a := Init(ls);
      RenderUnlines(a);
      RenderConcat(Unlines(a) + [Brk], Chars(l));
      RenderConcat(Unlines(a), [Brk]);
      assert Render([Brk]) == "\n";
      assert ls == a + [l];
      JoinedSnoc(a, l);
    } else {
      assert Unlines(ls) == Chars(l);
    }
  }

  lemma TextOfCanon(ls: seq<string>)
    requires ls != []
    ensures Text(Canon(ls)) == Joined(ls)
  {
    CanonCanonical(ls);
    TextIsBase(Canon(ls));
    AbsCanon(ls);
    CleanMerge(Unlines(ls));
    RenderUnlines(ls);
  }

  /** No line contains a newline character. */
  ghost predicate Unbroken(ls: seq<string>) {
    forall i :: 0 <= i < |ls| ==> '\n' !in ls[i]
  }

  lemma {:induction false} JoinedInjective(ls: seq<string>, ms: seq<string>)
    requires ls != [] && ms != [] && Unbroken(ls) && Unbroken(ms) && Joined(ls) == Joined(ms)
    ensures ls == ms
  {
    JoinedHead(ls);
    JoinedHead(ms);
    if |ls| > 1 {
      JoinedInjective(ls[1..], ms[1..]);
      assert ls == [ls[0]] + ls[1..] && ms == [ms[0]] + ms[1..];
    }
  }

  lemma JoinedHead(ls: seq<string>)
    requires ls != [] && Unbroken(ls)
    ensures StrChr(Joined(ls), '\n') == if |ls| == 1 then None else Some(|ls[0]|)
    ensures Joined(ls)[..|ls[0]|] == ls[0]
    ensures |ls| > 1 ==> Joined(ls)[|ls[0]| + 1..] == Joined(ls[1..])
  {
    if |ls| > 1 {
      assert Joined(ls) == ls[0] + ['\n'] + Joined(ls[1..]);
      StrChrAt(ls[0], '\n', Joined(ls[1..]));
    }
  }

  /** The chunk list of a document without pending edits is determined by its text alone. */
  lemma TextDetermines(ps: seq<Piece>, qs: seq<Piece>)
    requires Canonical(ps) && Canonical(qs) && Unbroken(Gathered(ps)) && Unbroken(Gathered(qs))
    requires Text(ps) == Text(qs)
    ensures ps == qs
  {
    hide Canonical, Gathered, Text, Joined, Canon;
    CanonicalIsCanon(ps);
    CanonicalIsCanon(qs);
    TextOfCanon(Gathered(ps));
    TextOfCanon(Gathered(qs));
    JoinedInjective(Gathered(ps), Gathered(qs));
  }

  /** Line by line the client gets back what is settled already. */
  lemma {:induction false} RebuildSettled(ls: seq<string>, n: nat)
    requires n < |ls| && Unbroken(ls) && Renumber(ls) == ls
    ensures RebuildLines(ls[..n] + [""], Joined(ls[n..])) == ls
    decreases |ls| - n
  {
    hide Renumber, Trail;
    var ms, l := ls[..n] + [""], ls[n];
    assert Init(ms) == ls[..n] && Last(ms) + l == l;
    assert ls[..n + 1] == ls[..n] + [l];
    if n == |ls| - 1 {
      assert Joined(ls[n..]) == l;
      assert StrChr(l, '\n').None?;
      assert Init(ms) + [Last(ms) + l] == ls;
    } else {
      assert ls[n..][1..] == ls[n + 1..];
      var tail := Joined(ls[n + 1..]);
      assert Joined(ls[n..]) == l + ['\n'] + tail;
      StrChrAt(l, '\n', tail);
      assert (l + ['\n'] + tail)[..|l|] == l && (l + ['\n'] + tail)[|l| + 1..] == tail;
      SettledPrefix(ls, n + 1);
      assert Init(ms) + [Last(ms) + l, ""] == ls[..n + 1] + [""];
      RebuildSettled(ls, n + 1);
    }
  }

  lemma SettledPrefix(ls: seq<string>, n: nat)
    requires n <= |ls| && Renumber(ls) == ls
    ensures Renumber(ls[..n] + [""]) == ls[..n] + [""]
  {
    RenumberPrefix(ls, n);
    RenumberSnoc(ls[..n], "");
  }

  // ---------- what a line break inside a line does ----------

  function Newlines(s: string): nat {
    if s == "" then 0 else (if s[0] == '\n' then 1 else 0) + Newlines(s[1..])
  }

  lemma {:induction false} NewlinesConcat(a: string, b: string)
    ensures Newlines(a + b) == Newlines(a) + Newlines(b)
  {
    if a == "" {
      assert a + b == b;
    } else {
      assert (a + b)[1..] == a[1..] + b;
      NewlinesConcat(a[1..], b);
    }
  }

  lemma {:induction false} NewlinesNone(s: string)
    ensures Newlines(s) == 0 <==> '\n' !in s
  {
    if s != "" {
      assert s == [s[0]] + s[1..];
      NewlinesNone(s[1..]);
    }
  }

  lemma {:induction false} RebuildCount(ms: seq<string>, rest: string)
    requires ms != []
    ensures |RebuildLines(ms, rest)| == |ms| + Newlines(rest)
    decreases |rest|
  {
    hide Renumber;
    match StrChr(rest, '\n')
    case None => NewlinesNone(rest);
    case Some(k) =>
      RebuildCount(Renumber(Init(ms) + [Last(ms) + rest[..k], ""]), rest[k + 1..]);
      assert rest == rest[..k] + (['\n'] + rest[k + 1..]);
      NewlinesConcat(rest[..k], ['\n'] + rest[k + 1..]);
      NewlinesConcat(['\n'], rest[k + 1..]);
      NewlinesNone(rest[..k]);
      assert Newlines(['\n']) == 1 by { assert ['\n'][1..] == []; }
  }

  lemma {:induction false} JoinedCount(ls: seq<string>)
    requires ls != []
    ensures Newlines(Joined(ls)) >= |ls| - 1
    ensures Newlines(Joined(ls)) == |ls| - 1 <==> Unbroken(ls)
  {
    NewlinesNone(ls[0]);
    if |ls| > 1 {
      JoinedCount(ls[1..]);
      NewlinesConcat(ls[0] + "\n", Joined(ls[1..]));
      NewlinesConcat(ls[0], "\n");
      assert Newlines("\n") == 1 by { assert "\n"[1..] == ""; }
      assert ls == [ls[0]] + ls[1..];
    }
  }

  // ---------- what the server sends and the client reads ----------

  /** A string as C sends it, up to its first NUL. */
  function Terminated(s: string): (t: string)
    ensures |t| <= |s| && t == s[..|t|] && '\0' !in t
    ensures |t| == |s| <==> '\0' !in s
    ensures |t| < |s| ==> s[|t|] == '\0'
  {
    match StrChr(s, '\0')
    case None => s
    case Some(i) => s[..i]
  }

  /** The client is told the size of the document and takes that many characters off its pipe, where broadcasts
      may follow the snapshot. */
  function Received(text: string, later: string): (r: string)
    requires |Terminated(text)| + |later| >= |text|
    ensures |r| == |text|
  {
    (Terminated(text) + later)[..|text|]
  }

  predicate PlainText(s: string) {
    '\n' !in s && '\0' !in s
  }

  /** No line contains a newline character or a NUL. */
  ghost predicate Plain(ls: seq<string>) {
    forall i :: 0 <= i < |ls| ==> PlainText(ls[i])
  }

  lemma {:induction false} JoinedPlain(ls: seq<string>)
    requires ls != []
    ensures Plain(ls) <==> Unbroken(ls) && '\0' !in Joined(ls)
  {
    if |ls| > 1 {
      JoinedPlain(ls[1..]);
      assert ls == [ls[0]] + ls[1..];
    }
  }

  /** The same text, but for digits that became other characters. */
  ghost predicate Redigited(s: string, t: string) {
    |s| == |t| && forall i :: 0 <= i < |s| ==> t[i] == s[i] || '1' <= s[i] <= '9'
  }

  lemma RenumberRedigits(ls: seq<string>)
    requires ls != []
    ensures Redigited(Joined(ls), Joined(Renumber(ls)))
  {
    hide Joined, Unlines, Renumber;
    UnlinesRenumber(ls);
    RenderUnlines(ls);
    RenderUnlines(Renumber(ls));
  }

  lemma RedigitedMore(s: string, t: string, rest: string)
    requires Redigited(s, t)
    ensures Redigited(s + rest, t + rest)
  {
  }

  lemma RedigitedTwice(s: string, t: string, u: string)
    requires Redigited(s, t) && Redigited(t, u)
    ensures Redigited(s, u)
  {
  }

  lemma JoinedGrow(ms: seq<string>, l: string)
    requires ms != []
    ensures Joined(Init(ms) + [Last(ms) + l]) == Joined(ms) + l
    ensures Joined(Init(ms) + [Last(ms) + l, ""]) == Joined(ms) + l + "\n"
  {
    var a := Init(ms) + [Last(ms) + l];
    assert Init(ms) + [Last(ms) + l, ""] == a + [""];
    JoinedSnoc(a, "");
    if |ms| == 1 {
      assert a == [ms[0] + l];
    } else {
      JoinedSnoc(Init(ms), Last(ms) + l);
      JoinedSnoc(Init(ms), Last(ms));
      assert ms == Init(ms) + [Last(ms)];
    }
    assert Joined(a) + "\n" + "" == Joined(a) + "\n";
  }

  /** Whatever text is rebuilt, only digits change. */
  lemma {:induction false} RebuildRedigits(ms: seq<string>, rest: string)
    requires ms != []
    ensures Redigited(Joined(ms) + rest, Joined(RebuildLines(ms, rest)))
    decreases |rest|
  {
    hide Renumber, Joined, Redigited;
    match StrChr(rest, '\n')
    case None =>
      JoinedGrow(ms, rest);
      RenumberRedigits(Init(ms) + [Last(ms) + rest]);
      if rest == "" {
        RedigitedSame(Joined(ms));
        ConcatNil(Joined(ms));
      }
    case Some(k) =>
      var ls := Init(ms) + [Last(ms) + rest[..k], ""];
      JoinedGrow(ms, rest[..k]);
      RenumberRedigits(ls);
      RedigitedMore(Joined(ls), Joined(Renumber(ls)), rest[k + 1..]);
      RebuildRedigits(Renumber(ls), rest[k + 1..]);
      RedigitedTwice(Joined(ls) + rest[k + 1..], Joined(Renumber(ls)) + rest[k + 1..],
                     Joined(RebuildLines(Renumber(ls), rest[k + 1..])));
      assert Joined(ms) + rest == Joined(ms) + rest[..k] + "\n" + rest[k + 1..];
  }

  lemma RedigitedSame(s: string)
    ensures Redigited(s, s)
  {
  }

  /** The snapshot round trip: a joining client holds the chunks of the server, exactly if no text chunk of
      the server contains a newline character or a NUL.  After a NUL nothing of the snapshot is sent, and the
      client takes what is missing from the broadcast that follows, which begins with VERSION. */
  lemma SnapshotRoundTrip(ls: seq<string>, later: string)
    requires ls != [] && Renumber(ls) == ls
    requires |Terminated(Text(Canon(ls)))| + |later| >= |Text(Canon(ls))|
    requires later == "" || later[0] == 'V'
    ensures Rebuild(Received(Text(Canon(ls)), later)) == Canon(ls) <==> Plain(ls)
  {
    hide Renumber, Canon, Rebuild, RebuildFrom, RebuildLines, Joined, Terminated;
    TextOfCanon(ls);
    JoinedPlain(ls);
    var text, sent := Joined(ls), Received(Joined(ls), later);
    RebuildStart(sent);
    CanonInjective(RebuildLines([""], sent), ls);
    if '\0' in text {
      RebuildRedigits([""], sent);
      EmptyJoined(sent);
      var k := |Terminated(text)|;
      assert sent[k] == later[0];
    } else {
      assert sent == text;
      if Unbroken(ls) {
        RebuildSettled(ls, 0);
        assert ls[..0] + [""] == [""] && ls[0..] == ls;
      } else {
        RebuildCount([""], text);
        JoinedCount(ls);
      }
    }
  }

  /** Then the whole text is sent, and what follows it stays in the pipe. */
  lemma SnapshotSent(ls: seq<string>)
    requires ls != [] && Renumber(ls) == ls && Plain(ls)
    ensures Terminated(Text(Canon(ls))) == Text(Canon(ls))
    ensures Rebuild(Terminated(Text(Canon(ls)))) == Canon(ls)
  {
    hide Renumber, Canon, Rebuild, Joined;
    TextOfCanon(ls);
    JoinedPlain(ls);
    SnapshotRoundTrip(ls, "");
    assert Joined(ls) + "" == Joined(ls);
  }

  lemma EmptyJoined(s: string)
    ensures Joined([""]) + s == s
  {
  }

  lemma RebuildStart(text: string)
    ensures Rebuild(text) == Canon(RebuildLines([""], text))
  {
    hide RebuildFrom, RebuildLines;
    CanonCanonical([""]);
    RebuildMeaning([""], text);
  }

  // ---------- when the document stays free of stray newline characters ----------

  /** Renumbering puts a NUL or a newline character into a line exactly if 208 lines of a list follow each other. */
  lemma RenumberPlain(ls: seq<string>)
    requires Plain(ls)
    ensures Plain(Renumber(ls)) <==> forall from, to :: to == from + 208 ==> !Listed(ls, from, to)
  {
    hide IsItem, Trail, PlainText, Listed;
    forall i | 0 <= i < |ls|
      ensures !PlainText(Renumber(ls)[i]) <==> IsItem(ls[i]) && (1 + Trail(ls[..i])) % 256 in {208, 218}
    {
      NumberedPlain(ls[i], 1 + Trail(ls[..i]));
    }
    if from, to :| to == from + 208 && Listed(ls, from, to) {
      ListedBounds(ls, from, to);
      LongRun(ls, from + 207);
      var j := RunReaches(ls, from + 207, 207);
      assert !PlainText(Renumber(ls)[j]);
    }
    if i :| 0 <= i < |ls| && !PlainText(Renumber(ls)[i]) {
      LongRun(ls, i);
      if IsItem(ls[i]) && Trail(ls[..i]) >= 207 {
        assert Listed(ls, i - 207, i + 1);
      }
    }
  }

  lemma ListedBounds(ls: seq<string>, from: int, to: int)
    requires Listed(ls, from, to)
    ensures 0 <= from <= to <= |ls|
  {
  }

  lemma LongRun(ls: seq<string>, i: nat)
    requires i < |ls|
    ensures Listed(ls, i - 207, i + 1) <==> IsItem(ls[i]) && Trail(ls[..i]) >= 207
  {
    TrailBounded(ls[..i]);
    if i >= 207 {
      ListedItems(ls, i - 207, i + 1);
      TrailReaches(ls, i, 207);
    }
  }

  lemma {:induction false} TrailBounded(ls: seq<string>)
    ensures Trail(ls) <= |ls|
  {
    if ls != [] {
      TrailBounded(Init(ls));
    }
  }

  lemma NumberedPlain(line: string, num: nat)
    requires PlainText(line)
    ensures !PlainText(Numbered(line, num)) <==> IsItem(line) && num % 256 in {208, 218}
  {
    hide Digit;
    DigitRange(num);
    if IsItem(line) {
      assert Numbered(line, num)[0] == Digit(num);
      assert forall k :: 1 <= k < |line| ==> Numbered(line, num)[k] == line[k];
    }
  }

  /** A run of items counts through all smaller numbers. */
  lemma {:induction false} RunReaches(ls: seq<string>, i: nat, n: nat) returns (j: nat)
    requires i < |ls| && IsItem(ls[i]) && n <= Trail(ls[..i])
    ensures j <= i && IsItem(ls[j]) && Trail(ls[..j]) == n
    decreases i
  {
    if Trail(ls[..i]) == n {
      j := i;
    } else {
      assert Init(ls[..i]) == ls[..i - 1];
      j := RunReaches(ls, i - 1, n);
    }
  }

  lemma PlainThree(line: string)
    requires |line| == 3 && line[1..] == ". "
    ensures PlainText(line) <==> line[0] != '\n' && line[0] != '\0'
  {
    assert line == [line[0]] + line[1..];
  }

  /** A list of 208 items: the last one's number is a NUL, and a client that joins does not get the document. */
  lemma LongListBreaksJoin(later: string) returns (ls: seq<string>)
    requires |later| > 0 && later[0] == 'V'
    ensures |ls| == 208 && Renumber(ls) == ls && Plain(ls[..207])
    ensures forall i :: 0 <= i < 208 ==> |ls[i]| == 3 && ls[i][1..] == ". "
    ensures forall i :: 0 <= i < 208 ==> ls[i][0] as int == ('0' as int + i + 1) % 256
    ensures ls[207][0] == '\0'
    ensures |Terminated(Text(Canon(ls)))| + |later| >= |Text(Canon(ls))| ==>
      Rebuild(Received(Text(Canon(ls)), later)) != Canon(ls)
  {
    hide Renumber, Canon, Rebuild, Received, Terminated, Text, Trail, Digit;
    var raw := seq(208, _ => "1. ");
    ls := Renumber(raw);
    RenumberIdempotent(raw);
    forall i | 0 <= i < 208
      ensures |ls[i]| == 3 && ls[i][1..] == ". " && ls[i][0] as int == ('0' as int + i + 1) % 256
      ensures i < 207 ==> PlainText(ls[i])
    {
      ListedItems(raw, 0, i + 1);
      ListNumbering(raw, i, i);
      assert raw[i] == "1. ";
      PlainThree(ls[i]);
    }
    assert !PlainText(ls[207]);
    if |Terminated(Text(Canon(ls)))| + |later| >= |Text(Canon(ls))| {
      SnapshotRoundTrip(ls, later);
    }
  }

  ghost predicate PlainPieces(ps: seq<Piece>) {
    forall k :: 0 <= k < |ps| && !ps[k].newline ==> PlainText(ps[k].text)
  }

  predicate PlainCommand(cmd: Command) {
    && (cmd.Insert? ==> PlainText(cmd.content))
    && (cmd.Link? ==> PlainText(cmd.url))
  }

  lemma TokenisePlain(text: string)
    requires PlainText(text) && Tokenise(text).Some?
    ensures PlainCommand(Tokenise(text).value)
  {
  }

  lemma CutPlain(ps: seq<Piece>, i: nat, off: nat)
    requires i < |ps| && off <= |ps[i].text| && PlainPieces(ps)
    requires ps[i].newline ==> off == |ps[i].text|
    ensures PlainPieces(Cut(ps, i, off))
  {
    var qs := Cut(ps, i, off);
    assert forall k :: 0 <= k < |qs| ==>
      qs[k] == if k < i then ps[k] else if k == i then Left(ps[i], off)
               else if k == i + 1 then Right(ps[i], off) else ps[k - 1];
  }

  lemma SplicedPlain(ps: seq<Piece>, k: nat, p: Piece)
    requires k <= |ps| && PlainPieces(ps) && (!p.newline ==> PlainText(p.text))
    ensures PlainPieces(Spliced(ps, k, p))
  {
    hide PlainText;
    var qs := Spliced(ps, k, p);
    assert forall m :: 0 <= m < |qs| ==> qs[m] == if m < k then ps[m] else if m == k then p else ps[m - 1];
  }

  lemma PlacePlain(ps: seq<Piece>, pos: nat, p: Piece)
    requires WellFormed(ps) && pos <= Size(ps) && Pending(p)
    requires PlainPieces(ps) && (!p.newline ==> PlainText(p.text))
    ensures PlainPieces(Place(ps, pos, p))
  {
    hide Size, Cut, Spliced, PlainPieces, PlainText, Seek;
    CutPlain(ps, Locate(ps, pos), Offset(ps, pos));
    CutLength(ps, Locate(ps, pos), Offset(ps, pos));
    SplicedPlain(Cut(ps, Locate(ps, pos), Offset(ps, pos)), Locate(ps, pos) + 1, p);
  }

  lemma ErasePlain(ps: seq<Piece>, from: nat, to: nat)
    requires WellFormed(ps) && from <= to <= Size(ps) && PlainPieces(ps)
    ensures PlainPieces(Erase(ps, from, to))
  {
    hide Size, Locate, Offset, Cut, PlainPieces;
    EraseKeeps(ps, from, to);
    var i, j, a, b := Locate(ps, from), Locate(ps, to), Offset(ps, from), Offset(ps, to);
    CutPlain(ps, j, b);
    EraseStart(ps, from, to);
    CutPlain(Cut(ps, j, b), i, a);
    MarkedPlain(Cut(Cut(ps, j, b), i, a), i + 1, j + 2);
  }

  lemma EraseStart(ps: seq<Piece>, from: nat, to: nat)
    requires WellFormed(ps) && from <= to <= Size(ps)
    ensures var i, j, a, b := Locate(ps, from), Locate(ps, to), Offset(ps, from), Offset(ps, to);
      && i < |Cut(ps, j, b)| && a <= |Cut(ps, j, b)[i].text|
      && (Cut(ps, j, b)[i].newline ==> a == |Cut(ps, j, b)[i].text|)
  {
    EraseKeeps(ps, from, to);
  }

  lemma MarkedPlain(ps: seq<Piece>, lo: nat, hi: nat)
    requires PlainPieces(ps)
    ensures PlainPieces(Marked(ps, lo, hi))
  {
  }

  lemma BlockPlain(ps: seq<Piece>, pos: nat, marker: string)
    requires WellFormed(ps) && pos <= Size(ps) && PlainPieces(ps) && PlainText(marker)
    ensures PlainPieces(Block(ps, pos, marker))
  {
    hide Place, Size, PlainPieces, Locate;
    PlacePlain(ps, pos, Fresh(marker));
    PlacePlain(Place(ps, pos, Fresh(marker)), pos, BREAK);
  }

  lemma WrapPlain(ps: seq<Piece>, start: int, end: int, open: string, close: string)
    requires WellFormed(ps) && start <= Size(ps) && end <= Size(ps)
    requires PlainPieces(ps) && PlainText(open) && PlainText(close)
    ensures PlainPieces(Wrap(ps, start, end, open, close).0)
  {
    hide Place, Size, PlainPieces, Locate;
    if InRange(start, Size(ps)) { PlacePlain(ps, start, Fresh(open)); }
    var qs := TryPlace(ps, start, open);
    if InRange(end, Size(ps)) { PlacePlain(qs, end, Fresh(close)); }
  }

  lemma ExecPlain(ps: seq<Piece>, cmd: Command)
    requires WellFormed(ps) && Defined(cmd, Size(ps)) && PlainPieces(ps) && PlainCommand(cmd)
    ensures PlainPieces(Exec(ps, cmd).0)
  {
    hide Place, Erase, Block, Wrap, Size, PlainPieces, Locate, WellFormed, ItemDigit;
    match cmd
    case Insert(pos, content) => if InRange(pos, Size(ps)) { PlacePlain(ps, pos, Fresh(content)); }
    case Del(pos, len) => if InRange(pos, Size(ps)) { ErasePlain(ps, pos, DelEnd(pos, len, Size(ps))); }
    case Newline(pos) => if InRange(pos, Size(ps)) { PlacePlain(ps, pos, BREAK); }
    case Heading(level, pos) => if InRange(pos, Size(ps)) { BlockPlain(ps, pos, HeadingMarker(level)); }
    case Blockquote(pos) => if InRange(pos, Size(ps)) { BlockPlain(ps, pos, QUOTE_MARKER); }
    case OrderedList(pos) => if InRange(pos, Size(ps)) { BlockPlain(ps, pos, ItemMarker(ItemDigit(ps, pos))); }
    case UnorderedList(pos) => if InRange(pos, Size(ps)) { BlockPlain(ps, pos, BULLET_MARKER); }
    case HorizontalRule(pos) =>
      if InRange(pos, Size(ps)) {
        PlacePlain(ps, pos, BREAK);
        BlockPlain(ps, pos, RULE_MARKER);
        BlockPlain(Place(ps, pos, BREAK), pos, RULE_MARKER);
      }
    case Bold(start, end) => WrapPlain(ps, start, end, "**", "**");
    case Italic(start, end) => WrapPlain(ps, start, end, "*", "*");
    case Code(start, end) => WrapPlain(ps, start, end, "`", "`");
    case Link(start, end, url) => WrapPlain(ps, start, end, "[", "](" + url + ")");
  }

  lemma {:induction false} MergedPlain(ps: seq<Piece>)
    requires PlainPieces(ps)
    ensures Ch('\n') !in Merged(ps) && Ch('\0') !in Merged(ps)
  {
    if ps != [] {
      MergedPlain(Init(ps));
    }
  }

  lemma {:induction false} SplitPlain(gs: seq<Glyph>)
    requires Ch('\n') !in gs && Ch('\0') !in gs
    ensures Plain(Split(gs))
  {
    if gs != [] {
      SplitPlain(Init(gs));
    }
  }

  lemma {:induction false} LayoutPlain(ls: seq<string>)
    requires ls != [] && Plain(ls)
    ensures PlainPieces(Layout(ls))
  {
    if |ls| > 1 {
      LayoutPlain(Init(ls));
    }
  }
}
