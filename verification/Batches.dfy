/** What a batch of commands, executed between two versions, does to the text. */
module Batches {
  import opened Seqs
  import opened Pieces
  import opened Drafts
  import opened Lines
  import opened Commits
  import opened Commands

  function ExecAll(ps: seq<Piece>, cmds: seq<Command>): (qs: seq<Piece>)
    requires WellFormed(ps) && forall c :: c in cmds ==> Defined(c, Size(ps))
    ensures WellFormed(qs) && Size(qs) == Size(ps)
    decreases |cmds|
  {
    if cmds == [] then ps else Exec(ExecAll(ps, Init(cmds)), Last(cmds)).0
  }

  function ApplyAll(d: Draft, cmds: seq<Command>, digits: string): (e: Draft)
    requires |digits| == |cmds| && forall c :: c in cmds ==> Defined(c, |d.cells|)
    ensures |e.cells| == |d.cells|
    decreases |cmds|
  {
    if cmds == [] then d else Apply(ApplyAll(d, Init(cmds), Init(digits)), Last(cmds), Last(digits)).0
  }

  /** The provisional list digits that the commands of a batch choose. */
  function Hints(ps: seq<Piece>, cmds: seq<Command>): (digits: string)
    requires WellFormed(ps) && forall c :: c in cmds ==> Defined(c, Size(ps))
    ensures |digits| == |cmds|
    decreases |cmds|
  {
    if cmds == [] then [] else Hints(ps, Init(cmds)) + [Hint(ExecAll(ps, Init(cmds)), Last(cmds))]
  }

  /** The chunks agree with the reference through any sequence of commands. */
  lemma {:induction false} BatchMeaning(ps: seq<Piece>, cmds: seq<Command>)
    requires WellFormed(ps) && forall c :: c in cmds ==> Defined(c, Size(ps))
    ensures |Abs(ps).cells| == Size(ps)
    ensures Abs(ExecAll(ps, cmds)) == ApplyAll(Abs(ps), cmds, Hints(ps, cmds))
    decreases |cmds|
  {
    hide Abs, Size, Exec, Apply, WellFormed, Defined, Hint;
    AbsSize(ps);
    if cmds != [] {
      BatchMeaning(ps, Init(cmds));
      ExecMeaning(ExecAll(ps, Init(cmds)), Last(cmds));
      assert Init(Hints(ps, cmds)) == Hints(ps, Init(cmds));
    }
  }

  /** The text after the commit is the renumbered interleaving of the reference. */
  lemma BatchCommit(ps: seq<Piece>, cmds: seq<Command>)
    requires WellFormed(ps) && forall c :: c in cmds ==> Defined(c, Size(ps))
    ensures |Abs(ps).cells| == Size(ps)
    ensures Commit(ExecAll(ps, cmds))
         == Canon(Renumber(Split(ApplyAll(Abs(ps), cmds, Hints(ps, cmds)).Merge())))
  {
    BatchMeaning(ps, cmds);
    CommitMeaning(ExecAll(ps, cmds));
  }

  // ---------- what a command does to every gap and every character ----------

  predicate IsBlock(cmd: Command) {
    cmd.Heading? || cmd.Blockquote? || cmd.OrderedList? || cmd.UnorderedList? || cmd.HorizontalRule?
  }

  function Marker(cmd: Command, digit: char): string
    requires IsBlock(cmd)
  {
    match cmd
    case Heading(level, _) => HeadingMarker(level)
    case Blockquote(_) => QUOTE_MARKER
    case OrderedList(_) => ItemMarker(digit)
    case UnorderedList(_) => BULLET_MARKER
    case HorizontalRule(_) => RULE_MARKER
  }

  /** The command addresses the gap at pos. */
  predicate Touches(cmd: Command, pos: int) {
    match cmd
    case Insert(p, _) => p == pos
    case Del(_, _) => false
    case Newline(p) => p == pos
    case Heading(_, p) => p == pos
    case Blockquote(p) => p == pos
    case OrderedList(p) => p == pos
    case UnorderedList(p) => p == pos
    case HorizontalRule(p) => p == pos
    case Bold(s, e) => s == pos || e == pos
    case Italic(s, e) => s == pos || e == pos
    case Code(s, e) => s == pos || e == pos
    case Link(s, e, _) => s == pos || e == pos
  }

  predicate Kills(cmd: Command, i: nat, n: nat) {
    cmd.Del? && InRange(cmd.pos, n) && cmd.pos <= i < DelEnd(cmd.pos, cmd.len, n)
  }

  /** What a command adds to the gap at p; of the document only the committed characters and their deletion
      marks matter. */
  function Put(d: Draft, cmd: Command, digit: char, p: nat): seq<Glyph>
    requires Defined(cmd, |d.cells|) && p <= |d.cells|
  {
    match cmd
    case Insert(pos, content) => if pos == p then Chars(content) else []
    case Del(_, _) => []
    case Newline(pos) => if pos == p then [Brk] else []
    case Bold(s, e) => PutWrap(d, s, e, "**", "**", p)
    case Italic(s, e) => PutWrap(d, s, e, "*", "*", p)
    case Code(s, e) => PutWrap(d, s, e, "`", "`", p)
    case Link(s, e, url) => PutWrap(d, s, e, "[", "](" + url + ")", p)
    case _ =>
      if cmd.pos != p then []
      else Opening(d, p) + Chars(Marker(cmd, digit)) + (if cmd.HorizontalRule? then Closing(d, p) else [])
  }

  function PutWrap(d: Draft, start: int, end: int, open: string, close: string, p: nat): seq<Glyph>
    requires start <= |d.cells| && end <= |d.cells|
  {
    if Deleted(d, start) && Deleted(d, end) then []
    else (if end == p then Chars(close) else []) + (if start == p then Chars(open) else [])
  }

  /** The same committed characters with the same deletion marks. */
  ghost predicate SameBase(d: Draft, e: Draft) {
    && |d.cells| == |e.cells|
    && forall i :: 0 <= i < |d.cells| ==> e.cells[i].glyph == d.cells[i].glyph && e.cells[i].dead == d.cells[i].dead
  }

  lemma InsertGaps(d: Draft, pos: nat, gs: seq<Glyph>)
    requires pos <= |d.cells|
    ensures SameBase(d, d.Insert(pos, gs))
    ensures forall p :: 0 <= p <= |d.cells| ==>
      d.Insert(pos, gs).Gap(p) == (if p == pos then gs else []) + d.Gap(p)
  {
    assert forall p :: 0 <= p <= |d.cells| ==> [] + d.Gap(p) == d.Gap(p);
  }

  lemma DeleteGaps(d: Draft, from: nat, to: nat)
    ensures |d.Delete(from, to).cells| == |d.cells|
    ensures forall p :: 0 <= p <= |d.cells| ==> d.Delete(from, to).Gap(p) == [] + d.Gap(p)
    ensures forall i :: 0 <= i < |d.cells| ==>
      d.Delete(from, to).cells[i].glyph == d.cells[i].glyph
      && d.Delete(from, to).cells[i].dead == (d.cells[i].dead || from <= i < to)
  {
    assert forall p :: 0 <= p <= |d.cells| ==> [] + d.Gap(p) == d.Gap(p);
  }

  lemma TryInsertGaps(d: Draft, pos: int, content: string)
    ensures SameBase(d, TryInsert(d, pos, content))
    ensures forall p :: 0 <= p <= |d.cells| ==>
      TryInsert(d, pos, content).Gap(p) == (if p == pos then Chars(content) else []) + d.Gap(p)
  {
    hide Draft.Insert, Draft.Gap, Chars;
    if InRange(pos, |d.cells|) {
      InsertGaps(d, pos, Chars(content));
    } else {
      assert forall p :: 0 <= p <= |d.cells| ==> [] + d.Gap(p) == d.Gap(p);
    }
  }

  lemma WrapGaps(d: Draft, start: int, end: int, open: string, close: string)
    requires start <= |d.cells| && end <= |d.cells|
    ensures var e := DraftWrap(d, start, end, open, close).0;
      && SameBase(d, e)
      && forall p :: 0 <= p <= |d.cells| ==> e.Gap(p) == PutWrap(d, start, end, open, close, p) + d.Gap(p)
  {
    hide TryInsert, Draft.Gap, Deleted, Chars;
    TryInsertGaps(d, start, open);
    TryInsertGaps(TryInsert(d, start, open), end, close);
    var e := DraftWrap(d, start, end, open, close).0;
    forall p | 0 <= p <= |d.cells|
      ensures e.Gap(p) == PutWrap(d, start, end, open, close, p) + d.Gap(p)
    {
      var a, b := if start == p then Chars(open) else [], if end == p then Chars(close) else [];
      ConcatAssoc(b, a, d.Gap(p));
      ConcatNil(d.Gap(p));
    }
  }

  lemma BlockStep(d: Draft, cmd: Command, digit: char)
    requires IsBlock(cmd) && Defined(cmd, |d.cells|) && InRange(cmd.pos, |d.cells|)
    ensures Apply(d, cmd, digit).0 == d.Insert(cmd.pos, Put(d, cmd, digit, cmd.pos))
  {
    hide Draft.Insert;
    ConcatNil(Opening(d, cmd.pos) + Chars(Marker(cmd, digit)));
  }

  /** One command adds its text to the gaps it names, in front of what is there, and kills what it deletes. */
  lemma StepGaps(d: Draft, cmd: Command, digit: char)
    requires Defined(cmd, |d.cells|)
    ensures var e := Apply(d, cmd, digit).0;
      && (forall p :: 0 <= p <= |d.cells| ==> e.Gap(p) == Put(d, cmd, digit, p) + d.Gap(p))
      && (forall i :: 0 <= i < |d.cells| ==>
            e.cells[i].glyph == d.cells[i].glyph
            && e.cells[i].dead == (d.cells[i].dead || Kills(cmd, i, |d.cells|)))
  {
    hide Draft.Insert, Draft.Delete, Draft.Gap, DraftWrap, DraftBlock, DraftRule, PutWrap, Opening, Closing, Chars,
      Marker;
    var n := |d.cells|;
    assert forall p :: 0 <= p <= n ==> [] + d.Gap(p) == d.Gap(p);
    match cmd
    case Insert(pos, content) => if InRange(pos, n) { InsertGaps(d, pos, Chars(content)); }
    case Del(pos, len) => if InRange(pos, n) { DeleteGaps(d, pos, DelEnd(pos, len, n)); }
    case Newline(pos) => if InRange(pos, n) { InsertGaps(d, pos, [Brk]); }
    case Bold(s, e) => WrapGaps(d, s, e, "**", "**");
    case Italic(s, e) => WrapGaps(d, s, e, "*", "*");
    case Code(s, e) => WrapGaps(d, s, e, "`", "`");
    case Link(s, e, url) => WrapGaps(d, s, e, "[", "](" + url + ")");
    case _ =>
      if InRange(cmd.pos, n) {
        BlockStep(d, cmd, digit);
        InsertGaps(d, cmd.pos, Put(d, cmd, digit, cmd.pos));
      }
  }

  lemma PutSame(d: Draft, e: Draft, cmd: Command, digit: char, p: nat)
    requires SameBase(d, e) && Defined(cmd, |d.cells|) && p <= |d.cells|
    ensures Put(d, cmd, digit, p) == Put(e, cmd, digit, p)
  {
    hide Chars, Marker;
  }

  // ---------- what a batch does to every gap and every character ----------

  predicate Killed(cmds: seq<Command>, i: nat, n: nat) {
    exists c :: c in cmds && Kills(c, i, n)
  }

  lemma KilledSnoc(cmds: seq<Command>, i: nat, n: nat)
    requires cmds != []
    ensures Killed(cmds, i, n) <==> Killed(Init(cmds), i, n) || Kills(Last(cmds), i, n)
  {
    hide Kills;
    assert cmds == Init(cmds) + [Last(cmds)];
    assert forall c :: c in cmds <==> c in Init(cmds) || c == Last(cmds);
  }

  /** The text that the commands from number m on add to the gap at p, newest first. */
  function Piled(d: Draft, cmds: seq<Command>, digits: string, m: nat, p: nat): seq<Glyph>
    requires |digits| == |cmds| && forall c :: c in cmds ==> Defined(c, |d.cells|)
    requires p <= |d.cells|
    decreases |cmds|
  {
    if |cmds| <= m then []
    else
      Put(ApplyAll(d, Init(cmds), Init(digits)), Last(cmds), Last(digits), p)
      + Piled(d, Init(cmds), Init(digits), m, p)
  }

  /** After any batch each gap holds what the commands added to it, newest first, and exactly the characters
      of some deleted range are dead, in addition to those that were. */
  lemma {:induction false} BatchGaps(d: Draft, cmds: seq<Command>, digits: string)
    requires |digits| == |cmds| && forall c :: c in cmds ==> Defined(c, |d.cells|)
    ensures var e := ApplyAll(d, cmds, digits);
      && (forall p :: 0 <= p <= |d.cells| ==> e.Gap(p) == Piled(d, cmds, digits, 0, p) + d.Gap(p))
      && (forall i :: 0 <= i < |d.cells| ==>
            e.cells[i].glyph == d.cells[i].glyph
            && e.cells[i].dead == (d.cells[i].dead || Killed(cmds, i, |d.cells|)))
    decreases |cmds|
  {
    hide Apply, Put, Kills, Draft.Gap, Defined;
    var e := ApplyAll(d, cmds, digits);
    if cmds == [] {
      assert forall p :: 0 <= p <= |d.cells| ==> [] + d.Gap(p) == d.Gap(p);
    } else {
      var before := ApplyAll(d, Init(cmds), Init(digits));
      BatchGaps(d, Init(cmds), Init(digits));
      StepGaps(before, Last(cmds), Last(digits));
      forall p | 0 <= p <= |d.cells|
        ensures e.Gap(p) == Piled(d, cmds, digits, 0, p) + d.Gap(p)
      {
        ConcatAssoc(Put(before, Last(cmds), Last(digits), p), Piled(d, Init(cmds), Init(digits), 0, p), d.Gap(p));
      }
      forall i | 0 <= i < |d.cells|
        ensures Killed(cmds, i, |d.cells|) <==> Killed(Init(cmds), i, |d.cells|) || Kills(Last(cmds), i, |d.cells|)
      {
        KilledSnoc(cmds, i, |d.cells|);
      }
    }
  }

  // ---------- insertions and deletions, whatever their order ----------

  /** What a simple command adds to the gap at position p. */
  function Added(cmd: Command, p: nat): seq<Glyph> {
    match cmd
    case Insert(pos, content) => if pos == p then Chars(content) else []
    case Newline(pos) => if pos == p then [Brk] else []
    case _ => []
  }

  /** The pending text of a gap: what the commands add to it, newest first. */
  function Stack(cmds: seq<Command>, p: nat): seq<Glyph> {
    if cmds == [] then [] else Added(Last(cmds), p) + Stack(Init(cmds), p)
  }

  predicate AllSimple(cmds: seq<Command>) {
    forall c :: c in cmds ==> Simple(c)
  }

  lemma {:induction false} PiledIsStack(d: Draft, cmds: seq<Command>, digits: string, p: nat)
    requires |digits| == |cmds| && AllSimple(cmds) && p <= |d.cells|
    ensures forall c :: c in cmds ==> Defined(c, |d.cells|)
    ensures Piled(d, cmds, digits, 0, p) == Stack(cmds, p)
    decreases |cmds|
  {
    if cmds != [] {
      assert AllSimple(Init(cmds)) && Simple(Last(cmds));
      PiledIsStack(d, Init(cmds), Init(digits), p);
    }
  }

  /** After any sequence of insertions, line breaks and deletions every gap holds what was added at its
      position, newest first, and exactly the characters in some deleted range are dead. */
  lemma SimpleBatch(d: Draft, cmds: seq<Command>, digits: string)
    requires |digits| == |cmds| && AllSimple(cmds)
    ensures forall c :: c in cmds ==> Defined(c, |d.cells|)
    ensures var e := ApplyAll(d, cmds, digits);
      && (forall p :: 0 <= p <= |d.cells| ==> e.Gap(p) == Stack(cmds, p) + d.Gap(p))
      && (forall i :: 0 <= i < |d.cells| ==>
            e.cells[i].glyph == d.cells[i].glyph
            && e.cells[i].dead == (d.cells[i].dead || Killed(cmds, i, |d.cells|)))
  {
    hide Apply, ApplyAll, Piled, Stack, Kills, Killed, Draft.Gap;
    BatchGaps(d, cmds, digits);
    forall p | 0 <= p <= |d.cells|
      ensures Piled(d, cmds, digits, 0, p) == Stack(cmds, p)
    {
      PiledIsStack(d, cmds, digits, p);
    }
  }

  ghost predicate SameStacks(a: seq<Command>, b: seq<Command>, n: nat) {
    forall p :: 0 <= p <= n ==> Stack(a, p) == Stack(b, p)
  }

  /** The batches kill the same characters of those still alive. */
  ghost predicate SameKills(d: Draft, a: seq<Command>, b: seq<Command>) {
    forall i :: 0 <= i < |d.cells| ==> d.cells[i].dead || Killed(a, i, |d.cells|) == Killed(b, i, |d.cells|)
  }

  /** Two such batches do the same to a document, exactly if they add the same text to every gap and kill the
      same characters of those still alive. */
  lemma SimpleBatches(d: Draft, a: seq<Command>, b: seq<Command>, x: string, y: string)
    requires |x| == |a| && |y| == |b| && AllSimple(a) && AllSimple(b)
    ensures forall c :: c in a || c in b ==> Defined(c, |d.cells|)
    ensures ApplyAll(d, a, x) == ApplyAll(d, b, y) <==> SameStacks(a, b, |d.cells|) && SameKills(d, a, b)
  {
    hide Apply, ApplyAll, Stack, Kills, Killed, Draft.Gap, SameStacks, SameKills, SameGaps, SameBase;
    SimpleBatch(d, a, x);
    SimpleBatch(d, b, y);
    var e, f := ApplyAll(d, a, x), ApplyAll(d, b, y);
    SameDraft(e, f);
    GapsAgree(d, e, f, a, b);
    DeadAgree(d, e, f, a, b);
  }

  ghost predicate SameGaps(d: Draft, e: Draft) {
    |d.cells| == |e.cells| && forall p :: 0 <= p <= |d.cells| ==> d.Gap(p) == e.Gap(p)
  }

  lemma GapsAgree(d: Draft, e: Draft, f: Draft, a: seq<Command>, b: seq<Command>)
    requires |e.cells| == |f.cells| == |d.cells|
    requires forall p :: 0 <= p <= |d.cells| ==> e.Gap(p) == Stack(a, p) + d.Gap(p)
    requires forall p :: 0 <= p <= |d.cells| ==> f.Gap(p) == Stack(b, p) + d.Gap(p)
    ensures SameGaps(e, f) <==> SameStacks(a, b, |d.cells|)
  {
    hide Stack, Draft.Gap;
    forall p | 0 <= p <= |d.cells|
      ensures e.Gap(p) == f.Gap(p) <==> Stack(a, p) == Stack(b, p)
    {
      CancelRight(Stack(a, p), Stack(b, p), d.Gap(p));
    }
  }

  lemma DeadAgree(d: Draft, e: Draft, f: Draft, a: seq<Command>, b: seq<Command>)
    requires |e.cells| == |f.cells| == |d.cells|
    requires forall i :: 0 <= i < |d.cells| ==>
      e.cells[i].glyph == d.cells[i].glyph && e.cells[i].dead == (d.cells[i].dead || Killed(a, i, |d.cells|))
    requires forall i :: 0 <= i < |d.cells| ==>
      f.cells[i].glyph == d.cells[i].glyph && f.cells[i].dead == (d.cells[i].dead || Killed(b, i, |d.cells|))
    ensures SameBase(e, f) <==> SameKills(d, a, b)
  {
    hide Killed;
  }

  lemma SameDraft(x: Draft, y: Draft)
    ensures x == y <==> SameBase(x, y) && SameGaps(x, y)
  {
    if SameBase(x, y) && SameGaps(x, y) {
      assert x.front == x.Gap(0) == y.Gap(0) == y.front;
      forall i | 0 <= i < |x.cells|
        ensures x.cells[i] == y.cells[i]
      {
        assert x.cells[i].after == x.Gap(i + 1) == y.Gap(i + 1) == y.cells[i].after;
      }
    }
  }

  lemma CancelRight<T>(a: seq<T>, b: seq<T>, c: seq<T>)
    ensures a + c == b + c <==> a == b
  {
    if a + c == b + c {
      assert |a + c| == |b + c|;
      assert a == (a + c)[..|a|] == (b + c)[..|b|] == b;
    }
  }

  // ---------- concurrent edits ----------

  lemma SimpleDefined(cmds: seq<Command>, n: nat)
    requires AllSimple(cmds)
    ensures forall c :: c in cmds ==> Defined(c, n)
  {
  }

  /** So on chunks, however they were split, such batches lead to the same next version. */
  lemma SameEdits(ps: seq<Piece>, a: seq<Command>, b: seq<Command>)
    requires WellFormed(ps) && AllSimple(a) && AllSimple(b)
    requires SameStacks(a, b, Size(ps)) && SameKills(Abs(ps), a, b)
    ensures forall c :: c in a || c in b ==> Defined(c, Size(ps))
    ensures Abs(ExecAll(ps, a)) == Abs(ExecAll(ps, b))
    ensures Commit(ExecAll(ps, a)) == Commit(ExecAll(ps, b))
  {
    hide Abs, Size, ExecAll, ApplyAll, WellFormed, SameStacks, SameKills, Commit, Split, Renumber, Canon, Draft.Merge;
    AbsSize(ps);
    SimpleDefined(a, Size(ps));
    SimpleDefined(b, Size(ps));
    SimpleBatches(Abs(ps), a, b, Hints(ps, a), Hints(ps, b));
    BatchMeaning(ps, a);
    BatchMeaning(ps, b);
    CommitMeaning(ExecAll(ps, a));
    CommitMeaning(ExecAll(ps, b));
  }

  /** The commands that add text at position p, in order. */
  function AtGap(cmds: seq<Command>, p: nat): seq<Command>
    requires AllSimple(cmds)
  {
    if cmds == [] then []
    else
      assert Last(cmds) in cmds;
      AtGap(Init(cmds), p) + (if !Last(cmds).Del? && Last(cmds).pos == p then [Last(cmds)] else [])
  }

  lemma {:induction false} AtGapStack(cmds: seq<Command>, p: nat)
    requires AllSimple(cmds)
    ensures Stack(AtGap(cmds, p), p) == Stack(cmds, p)
  {
    if cmds != [] {
      AtGapStack(Init(cmds), p);
      assert AllSimple(Init(cmds)) && Simple(Last(cmds));
      var a := AtGap(Init(cmds), p);
      if !Last(cmds).Del? && Last(cmds).pos == p {
        assert Init(a + [Last(cmds)]) == a;
      } else {
        assert a + [] == a;
        assert [] + Stack(Init(cmds), p) == Stack(Init(cmds), p);
      }
    }
  }

  lemma SameDeletions(d: Draft, a: seq<Command>, b: seq<Command>)
    requires forall c: Command :: c.Del? ==> (c in a <==> c in b)
    ensures SameKills(d, a, b)
  {
  }

  /** Any rearrangement of insertions, line breaks and deletions that keeps the order of those at one
      position, and may repeat deletions, leads to the same next version. */
  lemma Rearranged(ps: seq<Piece>, a: seq<Command>, b: seq<Command>)
    requires WellFormed(ps) && AllSimple(a) && AllSimple(b)
    requires forall p: nat :: AtGap(a, p) == AtGap(b, p)
    requires forall c: Command :: c.Del? ==> (c in a <==> c in b)
    ensures forall c :: c in a || c in b ==> Defined(c, Size(ps))
    ensures Commit(ExecAll(ps, a)) == Commit(ExecAll(ps, b))
  {
    hide Abs, Size, ExecAll, WellFormed, Commit, Stack, AtGap, Killed, Kills;
    forall p | 0 <= p <= Size(ps)
      ensures Stack(a, p) == Stack(b, p)
    {
      AtGapStack(a, p);
      AtGapStack(b, p);
    }
    SameDeletions(Abs(ps), a, b);
    SameEdits(ps, a, b);
  }

  /** Two commands that add text to the same gap. */
  predicate SameGap(a: Command, b: Command)
    requires Simple(a) && Simple(b)
  {
    !a.Del? && !b.Del? && a.pos == b.pos
  }

  /** The newest-first order at one position is the only order that matters. */
  lemma SimpleCommute(d: Draft, a: Command, b: Command, c: char)
    requires Simple(a) && Simple(b)
    ensures Apply(Apply(d, a, c).0, b, c).0 == Apply(Apply(d, b, c).0, a, c).0
      <==> (!SameGap(a, b) || !InRange(a.pos, |d.cells|)
            || Added(a, a.pos) + Added(b, a.pos) == Added(b, a.pos) + Added(a, a.pos))
  {
    hide Apply, SameStacks, SameKills, Added;
    PairStacks(a, b, |d.cells|);
    PairApplied(d, a, b, c);
    PairApplied(d, b, a, c);
    SimpleBatches(d, [a, b], [b, a], [c, c], [c, c]);
    SameDeletions(d, [a, b], [b, a]);
  }

  lemma PairStacks(a: Command, b: Command, n: nat)
    requires Simple(a) && Simple(b)
    ensures SameStacks([a, b], [b, a], n)
      <==> (!SameGap(a, b) || !InRange(a.pos, n)
            || Added(a, a.pos) + Added(b, a.pos) == Added(b, a.pos) + Added(a, a.pos))
  {
    hide Added, Stack;
    PairStack(a, b);
    PairStack(b, a);
    AddedElsewhere(a);
    AddedElsewhere(b);
    forall p: nat | a.Del? || b.Del? || a.pos != b.pos
      ensures Added(a, p) + Added(b, p) == Added(b, p) + Added(a, p)
    {
      ConcatNil(Added(a, p));
      ConcatNil(Added(b, p));
    }
    if SameGap(a, b) && InRange(a.pos, n) {
      assert Stack([a, b], a.pos) == Added(b, a.pos) + Added(a, a.pos);
    }
  }

  lemma PairStack(a: Command, b: Command)
    ensures forall p: nat :: Stack([a, b], p) == Added(b, p) + Added(a, p)
  {
    hide Added;
    assert Init([a, b]) == [a] && Init([a]) == [];
    forall p: nat
      ensures Stack([a, b], p) == Added(b, p) + Added(a, p)
    {
      ConcatNil(Added(a, p));
      assert Stack([a], p) == Added(a, p) + Stack([], p);
    }
  }

  lemma PairApplied(d: Draft, a: Command, b: Command, c: char)
    requires Defined(a, |d.cells|) && Defined(b, |d.cells|)
    ensures ApplyAll(d, [a, b], [c, c]) == Apply(Apply(d, a, c).0, b, c).0
  {
    hide Apply;
    assert Init([a, b]) == [a] && Init([a]) == [] && Init([c, c]) == [c] && Init([c]) == [];
    assert ApplyAll(d, [a], [c]) == Apply(d, a, c).0;
  }

  lemma AddedElsewhere(a: Command)
    requires Simple(a)
    ensures forall p: nat :: a.Del? || p != a.pos ==> Added(a, p) == []
  {
  }

  lemma {:induction false} ExecAllConcat(ps: seq<Piece>, a: seq<Command>, b: seq<Command>)
    requires WellFormed(ps) && forall c :: c in a + b ==> Defined(c, Size(ps))
    ensures forall c :: c in a || c in b ==> Defined(c, Size(ps))
    ensures ExecAll(ps, a + b) == ExecAll(ExecAll(ps, a), b)
    decreases |b|
  {
    hide Exec, Size, WellFormed, Defined;
    assert forall c :: c in a || c in b ==> c in a + b;
    if b == [] {
      ConcatNil(a);
    } else {
      InitConcat(a, b);
      ExecAllConcat(ps, a, Init(b));
    }
  }

  /** Chunk lists that stand for the same document still do after the same commands; only the provisional
      number of a list item looks at the chunks. */
  lemma {:induction false} SameFuture(ps: seq<Piece>, qs: seq<Piece>, cmds: seq<Command>)
    requires WellFormed(ps) && WellFormed(qs) && Abs(ps) == Abs(qs)
    requires forall c :: c in cmds ==> Defined(c, Size(ps)) && !c.OrderedList?
    ensures Size(qs) == Size(ps)
    ensures Abs(ExecAll(ps, cmds)) == Abs(ExecAll(qs, cmds))
    decreases |cmds|
  {
    hide Abs, Size, Exec, Apply, WellFormed, Defined;
    AbsSize(ps);
    AbsSize(qs);
    if cmds != [] {
      SameFuture(ps, qs, Init(cmds));
      ExecMeaning(ExecAll(ps, Init(cmds)), Last(cmds));
      ExecMeaning(ExecAll(qs, Init(cmds)), Last(cmds));
    }
  }

  /** The range command is refused, because the characters before both its positions are deleted. */
  predicate Refuses(d: Draft, cmd: Command)
    requires Defined(cmd, |d.cells|)
  {
    IsRange(cmd) && Deleted(d, cmd.start) && Deleted(d, cmd.end)
  }

  predicate SharesGap(a: Command, b: Command, n: nat) {
    exists p :: 0 <= p <= n && Touches(a, p) && Touches(b, p)
  }

  /** What a command adds depends on deletion marks only as far as they refuse it. */
  lemma PutAfter(d: Draft, e: Draft, cmd: Command, digit: char)
    requires |e.cells| == |d.cells| && forall i :: 0 <= i < |d.cells| ==> e.cells[i].glyph == d.cells[i].glyph
    requires Defined(cmd, |d.cells|)
    ensures (forall p :: 0 <= p <= |d.cells| ==> Put(e, cmd, digit, p) == Put(d, cmd, digit, p))
       <==> Refuses(e, cmd) == Refuses(d, cmd)
  {
    hide Deleted, Chars, Marker;
    if Refuses(e, cmd) != Refuses(d, cmd) {
      RefusedInside(if Refuses(d, cmd) then d else e, cmd);
      PutBehind(d, cmd, digit);
      PutBehind(e, cmd, digit);
    }
  }

  lemma RefusedInside(d: Draft, cmd: Command)
    requires Defined(cmd, |d.cells|) && Refuses(d, cmd)
    ensures 0 < cmd.end <= |d.cells|
  {
  }

  lemma PutBehind(d: Draft, cmd: Command, digit: char)
    requires Defined(cmd, |d.cells|) && IsRange(cmd) && 0 < cmd.end <= |d.cells|
    ensures Put(d, cmd, digit, cmd.end) == [] <==> Refuses(d, cmd)
  {
    hide Deleted;
  }

  /** Any two commands that have no gap in common commute, exactly if neither brings about or lifts the other's
      refusal. */
  lemma CommandsCommute(d: Draft, a: Command, b: Command, x: char, y: char)
    requires Defined(a, |d.cells|) && Defined(b, |d.cells|) && !SharesGap(a, b, |d.cells|)
    ensures var da, db := Apply(d, a, x).0, Apply(d, b, y).0;
      Apply(da, b, y).0 == Apply(db, a, x).0 <==> Refuses(da, b) == Refuses(d, b) && Refuses(db, a) == Refuses(d, a)
  {
    hide Apply, Put, Refuses, Kills, Touches, Draft.Gap, Defined, SameGaps, SameBase;
    var da, db := Apply(d, a, x).0, Apply(d, b, y).0;
    StepGaps(d, a, x);
    StepGaps(d, b, y);
    SameDraft(Apply(da, b, y).0, Apply(db, a, x).0);
    SwappedBase(d, a, b, x, y);
    SwappedGaps(d, a, b, x, y);
    PutAfter(d, db, a, x);
    PutAfter(d, da, b, y);
  }

  lemma SwappedBase(d: Draft, a: Command, b: Command, x: char, y: char)
    requires Defined(a, |d.cells|) && Defined(b, |d.cells|)
    ensures SameBase(Apply(Apply(d, a, x).0, b, y).0, Apply(Apply(d, b, y).0, a, x).0)
  {
    hide Apply, Put, Kills, Draft.Gap, Defined;
    StepGaps(d, a, x);
    StepGaps(d, b, y);
    StepGaps(Apply(d, a, x).0, b, y);
    StepGaps(Apply(d, b, y).0, a, x);
  }

  lemma SwappedGaps(d: Draft, a: Command, b: Command, x: char, y: char)
    requires Defined(a, |d.cells|) && Defined(b, |d.cells|) && !SharesGap(a, b, |d.cells|)
    ensures var da, db := Apply(d, a, x).0, Apply(d, b, y).0;
      SameGaps(Apply(da, b, y).0, Apply(db, a, x).0)
      <==> (forall p :: 0 <= p <= |d.cells| ==> Put(da, b, y, p) == Put(d, b, y, p))
           && (forall p :: 0 <= p <= |d.cells| ==> Put(db, a, x, p) == Put(d, a, x, p))
  {
    hide Apply, Put, Kills, Touches, Draft.Gap, Defined;
    var da, db := Apply(d, a, x).0, Apply(d, b, y).0;
    StepGaps(d, a, x);
    StepGaps(d, b, y);
    StepGaps(da, b, y);
    StepGaps(db, a, x);
    forall p | 0 <= p <= |d.cells|
      ensures Apply(da, b, y).0.Gap(p) == Apply(db, a, x).0.Gap(p)
         <==> Put(da, b, y, p) == Put(d, b, y, p) && Put(db, a, x, p) == Put(d, a, x, p)
    {
      if !Touches(a, p) {
        PutNothing(d, a, x, p);
        PutNothing(db, a, x, p);
        SwappedPuts(Put(da, b, y, p), Put(d, b, y, p), d.Gap(p));
      } else {
        PutNothing(d, b, y, p);
        PutNothing(da, b, y, p);
        SwappedPuts(Put(db, a, x, p), Put(d, a, x, p), d.Gap(p));
      }
    }
  }

  lemma SwappedPuts<T>(s: seq<T>, t: seq<T>, gap: seq<T>)
    ensures s + ([] + gap) == [] + (t + gap) <==> s == t
  {
    CancelRight(s, t, gap);
    assert [] + gap == gap;
    assert [] + (t + gap) == t + gap;
  }

  lemma PutNothing(d: Draft, cmd: Command, digit: char, p: nat)
    requires Defined(cmd, |d.cells|) && p <= |d.cells| && !Touches(cmd, p)
    ensures Put(d, cmd, digit, p) == []
  {
  }

  /** The command deletes the character before a position of the other, a range command. */
  predicate Undermines(cmd: Command, other: Command, n: nat) {
    IsRange(other)
    && ((other.start > 0 && Kills(cmd, other.start - 1, n)) || (other.end > 0 && Kills(cmd, other.end - 1, n)))
  }

  /** What a caller can see of two commands that commute: they name no position in common, and neither deletes a
      character that a range command of the other stands behind. */
  predicate Independent(a: Command, b: Command, n: nat) {
    !SharesGap(a, b, n) && !Undermines(a, b, n) && !Undermines(b, a, n)
  }

  lemma IndependentCommute(d: Draft, a: Command, b: Command, x: char, y: char)
    requires Defined(a, |d.cells|) && Defined(b, |d.cells|) && Independent(a, b, |d.cells|)
    ensures Apply(Apply(d, a, x).0, b, y).0 == Apply(Apply(d, b, y).0, a, x).0
  {
    hide Apply, Put, Refuses, SharesGap, Undermines, Defined;
    CommandsCommute(d, a, b, x, y);
    SameRefusal(d, a, b, x);
    SameRefusal(d, b, a, y);
  }

  lemma SameRefusal(d: Draft, cmd: Command, other: Command, digit: char)
    requires Defined(cmd, |d.cells|) && Defined(other, |d.cells|) && !Undermines(cmd, other, |d.cells|)
    ensures Refuses(Apply(d, cmd, digit).0, other) == Refuses(d, other)
  {
    hide Apply, Put, Kills, Draft.Gap;
    StepGaps(d, cmd, digit);
  }

  /** Two independent neighbours in a batch give the same next version in either order, whatever comes before them
      and, list items apart, after them. */
  lemma ConcurrentEdits(ps: seq<Piece>, before: seq<Command>, a: Command, b: Command, after: seq<Command>)
    requires WellFormed(ps) && Independent(a, b, Size(ps))
    requires forall c :: c in before ==> Defined(c, Size(ps))
    requires forall c :: c in [a, b] + after ==> Defined(c, Size(ps)) && !c.OrderedList?
    ensures forall c :: c in before + [a, b] + after || c in before + [b, a] + after ==> Defined(c, Size(ps))
    ensures Commit(ExecAll(ps, before + [a, b] + after)) == Commit(ExecAll(ps, before + [b, a] + after))
  {
    hide Abs, Size, ExecAll, Split, Renumber, Canon, Draft.Merge, WellFormed, Commit, Defined, Independent;
    assert forall c :: c in [a, b] + after || c in [b, a] + after ==> c in [a, b] + after;
    var qs := ExecAll(ps, before);
    NeighboursCommute(qs, a, b);
    ExecAllConcat(ps, before + [a, b], after);
    ExecAllConcat(ps, before, [a, b]);
    ExecAllConcat(ps, before + [b, a], after);
    ExecAllConcat(ps, before, [b, a]);
    SameFuture(ExecAll(qs, [a, b]), ExecAll(qs, [b, a]), after);
    CommitMeaning(ExecAll(ExecAll(qs, [a, b]), after));
    CommitMeaning(ExecAll(ExecAll(qs, [b, a]), after));
  }

  lemma NeighboursCommute(ps: seq<Piece>, a: Command, b: Command)
    requires WellFormed(ps) && Independent(a, b, Size(ps)) && !a.OrderedList? && !b.OrderedList?
    requires forall c :: c in [a, b] || c in [b, a] ==> Defined(c, Size(ps))
    ensures Abs(ExecAll(ps, [a, b])) == Abs(ExecAll(ps, [b, a]))
  {
    hide Abs, Size, ExecAll, Apply, Independent, Defined, WellFormed;
    AbsSize(ps);
    assert a in [a, b] && b in [a, b];
    ExecTwice(ps, a, b);
    ExecTwice(ps, b, a);
    IndependentCommute(Abs(ps), a, b, '1', '1');
  }

  lemma ExecTwice(ps: seq<Piece>, a: Command, b: Command)
    requires WellFormed(ps) && Defined(a, Size(ps)) && Defined(b, Size(ps)) && !a.OrderedList? && !b.OrderedList?
    ensures |Abs(ps).cells| == Size(ps)
    ensures Abs(ExecAll(ps, [a, b])) == Apply(Apply(Abs(ps), a, '1').0, b, '1').0
  {
    hide Abs, Size, Exec, Apply, Defined, WellFormed;
    AbsSize(ps);
    assert Init([a, b]) == [a] && Init([a]) == [];
    assert ExecAll(ps, [a]) == Exec(ps, a).0;
    ExecMeaning(ps, a);
    ExecMeaning(Exec(ps, a).0, b);
  }

  /** DEL marks exactly the characters from its position on, as many as it names or all the rest, in addition
      to those marked before, and no pending text. */
  lemma DeleteExact(ps: seq<Piece>, pos: nat, len: int)
    requires WellFormed(ps) && pos <= Size(ps)
    ensures var d, e := Abs(ps), Abs(Exec(ps, Command.Del(pos, len)).0);
      && |e.cells| == |d.cells|
      && (forall p :: 0 <= p <= |d.cells| ==> e.Gap(p) == d.Gap(p))
      && (forall i :: 0 <= i < |d.cells| ==>
            e.cells[i].glyph == d.cells[i].glyph
            && e.cells[i].dead == (d.cells[i].dead || (pos <= i && (len < 0 || i < pos + len))))
  {
    hide Abs, Size, Exec;
    AbsSize(ps);
    ExecMeaning(ps, Command.Del(pos, len));
  }

  /** Deletions act as the union of their ranges: two batches of deletions do the same exactly if they cover
      the same characters, those deleted before apart, whatever their number, order and overlap. */
  lemma DeletionsUnite(ps: seq<Piece>, a: seq<Command>, b: seq<Command>)
    requires WellFormed(ps) && forall c :: c in a || c in b ==> c.Del?
    ensures |Abs(ps).cells| == Size(ps)
    ensures Abs(ExecAll(ps, a)) == Abs(ExecAll(ps, b))
       <==> SameKills(Abs(ps), a, b)
  {
    hide Abs, Size, ExecAll, ApplyAll, WellFormed, SameKills, Stack;
    AbsSize(ps);
    SimpleBatches(Abs(ps), a, b, Hints(ps, a), Hints(ps, b));
    BatchMeaning(ps, a);
    BatchMeaning(ps, b);
    NoStack(a);
    NoStack(b);
  }

  lemma {:induction false} NoStack(cmds: seq<Command>)
    requires forall c :: c in cmds ==> c.Del?
    ensures forall p: nat :: Stack(cmds, p) == []
  {
    if cmds != [] {
      NoStack(Init(cmds));
    }
  }

  lemma KilledByOne(a: Command, i: nat, n: nat)
    ensures Killed([a], i, n) <==> Kills(a, i, n)
  {
    assert a in [a];
  }

  lemma KilledByTwo(a: Command, b: Command, i: nat, n: nat)
    ensures Killed([a, b], i, n) <==> Kills(a, i, n) || Kills(b, i, n)
  {
    assert a in [a, b] && b in [a, b];
  }

  /** So overlapping or adjoining deletions are one deletion from the first start to the last end. */
  lemma OverlapIsOne(ps: seq<Piece>, pos: nat, len: nat, skip: nat, more: nat)
    requires WellFormed(ps) && pos + skip <= Size(ps) && skip <= len
    ensures var one := [Command.Del(pos, if len >= skip + more then len else skip + more)];
      && Commit(ExecAll(ps, [Command.Del(pos, len), Command.Del(pos + skip, more)])) == Commit(ExecAll(ps, one))
      && Commit(ExecAll(ps, [Command.Del(pos + skip, more), Command.Del(pos, len)])) == Commit(ExecAll(ps, one))
  {
    hide Abs, Size, ExecAll, WellFormed, Stack, Commit, Killed;
    AbsSize(ps);
    var x, y := Command.Del(pos, len), Command.Del(pos + skip, more);
    var one := [Command.Del(pos, if len >= skip + more then len else skip + more)];
    forall i | 0 <= i < Size(ps)
      ensures Killed([x, y], i, Size(ps)) == Killed(one, i, Size(ps)) == Killed([y, x], i, Size(ps))
    {
      KilledByOne(x, i, Size(ps));
      KilledByOne(one[0], i, Size(ps));
      KilledByTwo(x, y, i, Size(ps));
      KilledByTwo(y, x, i, Size(ps));
    }
    NoStack([x, y]);
    NoStack([y, x]);
    NoStack(one);
    SameEdits(ps, [x, y], one);
    SameEdits(ps, [y, x], one);
  }

  // ---------- the committed text until the commit, and its size at the commit ----------

  lemma ApplyBase(d: Draft, cmd: Command, digit: char)
    requires Defined(cmd, |d.cells|)
    ensures Apply(d, cmd, digit).0.Base() == d.Base()
  {
    hide Draft.Insert, Draft.Delete, Draft.Base, Chars;
    forall pos: nat, gs | pos <= |d.cells|
      ensures d.Insert(pos, gs).Base() == d.Base() && |d.Insert(pos, gs).cells| == |d.cells|
    {
      EditBase(d, pos, gs, 0, 0);
    }
    match cmd
    case Del(pos, len) => if InRange(pos, |d.cells|) { EditBase(d, 0, [], pos, DelEnd(pos, len, |d.cells|)); }
    case Bold(s, e) => WrapBase(d, s, e, "**", "**");
    case Italic(s, e) => WrapBase(d, s, e, "*", "*");
    case Code(s, e) => WrapBase(d, s, e, "`", "`");
    case Link(s, e, url) => WrapBase(d, s, e, "[", "](" + url + ")");
    case _ =>
  }

  lemma EditBase(d: Draft, pos: nat, gs: seq<Glyph>, from: nat, to: nat)
    requires pos <= |d.cells|
    ensures d.Insert(pos, gs).Base() == d.Base() && |d.Insert(pos, gs).cells| == |d.cells|
    ensures d.Delete(from, to).Base() == d.Base()
  {
  }

  lemma WrapBase(d: Draft, start: int, end: int, open: string, close: string)
    requires start <= |d.cells| && end <= |d.cells|
    ensures DraftWrap(d, start, end, open, close).0.Base() == d.Base()
  {
    hide Draft.Insert, Draft.Delete, Draft.Base, Chars;
    if InRange(start, |d.cells|) { EditBase(d, start, Chars(open), 0, 0); }
    if InRange(end, |d.cells|) { EditBase(TryInsert(d, start, open), end, Chars(close), 0, 0); }
  }

  lemma {:induction false} TextIsBase(ps: seq<Piece>)
    requires forall k :: 0 <= k < |ps| ==> ps[k].newline ==> ps[k].text == "\n"
    ensures Text(ps) == Render(Abs(ps).Base())
  {
    if ps != [] {
      TextIsBase(Init(ps));
      BaseJoin(Abs(Init(ps)), One(Last(ps)));
      RenderOne(Last(ps));
      RenderConcat(Abs(Init(ps)).Base(), One(Last(ps)).Base());
    }
  }

  lemma BaseJoin(d: Draft, e: Draft)
    ensures d.Join(e).Base() == d.Base() + e.Base()
  {
  }

  lemma RenderConcat(a: seq<Glyph>, b: seq<Glyph>)
    ensures Render(a + b) == Render(a) + Render(b)
  {
  }

  lemma RenderOne(p: Piece)
    requires p.newline ==> p.text == "\n"
    ensures Render(One(p).Base()) == if p.tbi then "" else p.text
  {
    if !p.tbi {
      assert One(p).Base() == Glyphs(p);
    }
  }

  /** Read stability: whatever is executed, readers see the text of the last version. */
  lemma {:induction false} ReadStability(ps: seq<Piece>, cmds: seq<Command>)
    requires WellFormed(ps) && forall c :: c in cmds ==> Defined(c, Size(ps))
    ensures Abs(ExecAll(ps, cmds)).Base() == Abs(ps).Base()
    ensures Text(ExecAll(ps, cmds)) == Text(ps)
    decreases |cmds|
  {
    hide Abs, Size, Exec, Apply, Text, Hint;
    if cmds != [] {
      var qs := ExecAll(ps, Init(cmds));
      ReadStability(ps, Init(cmds));
      ExecMeaning(qs, Last(cmds));
      ApplyBase(Abs(qs), Last(cmds), Hint(qs, Last(cmds)));
    }
    TextIsBase(ps);
    TextIsBase(ExecAll(ps, cmds));
  }

  function AddedChars(cs: seq<Cell>): nat {
    if cs == [] then 0 else AddedChars(Init(cs)) + |Last(cs).after|
  }

  function DeadChars(cs: seq<Cell>): nat {
    if cs == [] then 0 else DeadChars(Init(cs)) + (if Last(cs).dead then 1 else 0)
  }

  lemma {:induction false} WovenSize(cs: seq<Cell>)
    ensures |Woven(cs)| + DeadChars(cs) == |cs| + AddedChars(cs)
  {
    if cs != [] {
      WovenSize(Init(cs));
    }
  }

  /** The commit grows the document by its pending text and shrinks it by its distinct deleted characters,
      renumbering notwithstanding. */
  lemma CommitSize(ps: seq<Piece>)
    requires WellFormed(ps)
    ensures var d := Abs(ps);
      Size(Commit(ps)) == Size(ps) + |d.front| + AddedChars(d.cells) - DeadChars(d.cells)
    ensures Size(Commit(ps)) == |Merged(ps)|
  {
    var d := Abs(ps);
    WovenSize(d.cells);
    AbsSize(ps);
    CommitMeaning(ps);
    MergedIsMerge(ps);
    AbsSize(Commit(ps));
    UnlinesRenumber(Split(d.Merge()));
    UnlinesSplit(d.Merge());
  }
}
