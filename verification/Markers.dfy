/** Where the formatting commands leave their markers in the next version. */
module Markers {
  import opened Seqs
  import opened Pieces
  import opened Drafts
  import opened Lines
  import opened Commits
  import opened Commands
  import opened Batches

  // ---------- one gap in the merged text ----------

  /** The merged text before a gap. */
  function Ahead(d: Draft, pos: nat): seq<Glyph>
    requires pos <= |d.cells|
  {
    if pos == 0 then []
    else d.front + Woven(d.cells[..pos - 1]) + (if d.cells[pos - 1].dead then [] else [d.cells[pos - 1].glyph])
  }

  function Behind(d: Draft, pos: nat): seq<Glyph>
    requires pos <= |d.cells|
  {
    Woven(d.cells[pos..])
  }

  lemma MergeAt(d: Draft, pos: nat)
    requires pos <= |d.cells|
    ensures d.Merge() == Ahead(d, pos) + d.Gap(pos) + Behind(d, pos)
  {
    hide Woven;
    var cs := d.cells;
    assert cs == cs[..pos] + cs[pos..];
    WovenConcat(cs[..pos], cs[pos..]);
    if pos == 0 {
      assert cs[..0] == [];
      WovenNil();
      ConcatNil(d.front);
      ConcatNil(Woven(cs[0..]));
    } else {
      var alive := if cs[pos - 1].dead then [] else [cs[pos - 1].glyph];
      WovenSnoc(cs, pos - 1);
      Regroup(d.front, Woven(cs[..pos - 1]), alive, cs[pos - 1].after, Woven(cs[pos..]));
    }
  }

  lemma WovenNil()
    ensures Woven([]) == []
  {
  }

  lemma WovenSnoc(cs: seq<Cell>, k: nat)
    requires k < |cs|
    ensures Woven(cs[..k + 1]) == Woven(cs[..k]) + Kept(cs[k])
  {
    assert Init(cs[..k + 1]) == cs[..k];
  }

  lemma Regroup<T>(a: seq<T>, b: seq<T>, c: seq<T>, d: seq<T>, e: seq<T>)
    ensures a + (b + (c + d) + e) == a + b + c + d + e
  {
  }

  predicate StartsLine(gs: seq<Glyph>) {
    gs == [] || Last(gs).Brk?
  }

  lemma StartsLineSplit(gs: seq<Glyph>)
    ensures StartsLine(gs) <==> Last(Split(gs)) == ""
  {
  }

  lemma OpeningStarts(d: Draft, pos: nat)
    requires pos <= |d.cells|
    ensures StartsLine(Ahead(d, pos) + Opening(d, pos)) <==> AfterText(d, pos) || StartsLine(Ahead(d, pos))
    ensures pos == 0 || !d.cells[pos - 1].dead ==> StartsLine(Ahead(d, pos) + Opening(d, pos))
  {
    assert Ahead(d, pos) + [] == Ahead(d, pos);
  }

  lemma InsertMerge(d: Draft, pos: nat, gs: seq<Glyph>)
    requires pos <= |d.cells|
    ensures d.Insert(pos, gs).Merge() == Ahead(d, pos) + gs + d.Gap(pos) + Behind(d, pos)
  {
    var e := d.Insert(pos, gs);
    MergeAt(e, pos);
    assert e.cells[pos..] == d.cells[pos..];
    if pos > 0 {
      assert e.cells[..pos - 1] == d.cells[..pos - 1];
    }
  }

  // ---------- block commands ----------

  /** The merged text before the marker that command m of a batch has inserted: what is ahead of its gap, what
      later commands have put there, and the line break that comes with a marker placed behind text. */
  function Lead(d: Draft, cmds: seq<Command>, digits: string, m: nat): seq<Glyph>
    requires |digits| == |cmds| && forall c :: c in cmds ==> Defined(c, |d.cells|)
    requires m < |cmds| && IsBlock(cmds[m]) && InRange(cmds[m].pos, |d.cells|)
  {
    var pos := cmds[m].pos;
    Ahead(ApplyAll(d, cmds, digits), pos) + Piled(d, cmds, digits, m + 1, pos) + Opening(d, pos)
  }

  /** The merged text behind the marker: a rule's own line break, what the gap held before, and the rest. */
  function Remainder(d: Draft, cmds: seq<Command>, digits: string, m: nat): seq<Glyph>
    requires |digits| == |cmds| && forall c :: c in cmds ==> Defined(c, |d.cells|)
    requires m < |cmds| && IsBlock(cmds[m]) && InRange(cmds[m].pos, |d.cells|)
  {
    var pos := cmds[m].pos;
    (if cmds[m].HorizontalRule? then Closing(d, pos) else [])
      + ApplyAll(d, cmds[..m], digits[..m]).Gap(pos) + Behind(ApplyAll(d, cmds, digits), pos)
  }

  lemma {:induction false} GapSplit(d: Draft, cmds: seq<Command>, digits: string, m: nat, p: nat)
    requires |digits| == |cmds| && forall c :: c in cmds ==> Defined(c, |d.cells|)
    requires m < |cmds| && p <= |d.cells|
    ensures var before := ApplyAll(d, cmds[..m], digits[..m]);
      ApplyAll(d, cmds, digits).Gap(p)
        == Piled(d, cmds, digits, m + 1, p) + (Put(before, cmds[m], digits[m], p) + before.Gap(p))
    decreases |cmds|
  {
    hide Apply, Put, Draft.Gap, Defined;
    var a, x := Init(cmds), Init(digits);
    var last := ApplyAll(d, a, x);
    StepGaps(last, Last(cmds), Last(digits));
    if m == |cmds| - 1 {
      assert cmds[..m] == a && digits[..m] == x;
      ConcatNil(ApplyAll(d, cmds, digits).Gap(p));
    } else {
      GapSplit(d, a, x, m, p);
      assert a[..m] == cmds[..m] && x[..m] == digits[..m];
      var before := ApplyAll(d, cmds[..m], digits[..m]);
      ConcatAssoc(Put(last, Last(cmds), Last(digits), p), Piled(d, a, x, m + 1, p),
                  Put(before, cmds[m], digits[m], p) + before.Gap(p));
    }
  }

  lemma BlockPut(d: Draft, e: Draft, cmd: Command, digit: char)
    requires |e.cells| == |d.cells| && forall i :: 0 <= i < |d.cells| ==> e.cells[i].glyph == d.cells[i].glyph
    requires IsBlock(cmd) && Defined(cmd, |d.cells|) && InRange(cmd.pos, |d.cells|)
    ensures Put(e, cmd, digit, cmd.pos)
         == Opening(d, cmd.pos) + Chars(Marker(cmd, digit)) + (if cmd.HorizontalRule? then Closing(d, cmd.pos) else [])
  {
    hide Chars, Marker;
  }

  /** After any batch the marker of a block command stands behind its lead. */
  lemma MarkerPlace(d: Draft, cmds: seq<Command>, digits: string, m: nat)
    requires |digits| == |cmds| && forall c :: c in cmds ==> Defined(c, |d.cells|)
    requires m < |cmds| && IsBlock(cmds[m]) && InRange(cmds[m].pos, |d.cells|)
    ensures ApplyAll(d, cmds, digits).Merge()
         == Lead(d, cmds, digits, m) + Chars(Marker(cmds[m], digits[m])) + Remainder(d, cmds, digits, m)
  {
    hide ApplyAll, Piled, Put, Draft.Merge, Draft.Gap, Ahead, Behind, Chars, Marker, Opening, Closing, Defined, Lead,
      Remainder, Killed;
    var pos, e, before := cmds[m].pos, ApplyAll(d, cmds, digits), ApplyAll(d, cmds[..m], digits[..m]);
    GapSplit(d, cmds, digits, m, pos);
    BatchGaps(d, cmds[..m], digits[..m]);
    BlockPut(d, before, cmds[m], digits[m]);
    MergePlaced(e, pos, Piled(d, cmds, digits, m + 1, pos), Opening(d, pos), Chars(Marker(cmds[m], digits[m])),
                if cmds[m].HorizontalRule? then Closing(d, pos) else [], before.Gap(pos));
    LeadIs(d, cmds, digits, m);
  }

  lemma LeadIs(d: Draft, cmds: seq<Command>, digits: string, m: nat)
    requires |digits| == |cmds| && forall c :: c in cmds ==> Defined(c, |d.cells|)
    requires m < |cmds| && IsBlock(cmds[m]) && InRange(cmds[m].pos, |d.cells|)
    ensures var pos, e := cmds[m].pos, ApplyAll(d, cmds, digits);
      && Lead(d, cmds, digits, m) == Ahead(e, pos) + Piled(d, cmds, digits, m + 1, pos) + Opening(d, pos)
      && Remainder(d, cmds, digits, m)
           == (if cmds[m].HorizontalRule? then Closing(d, pos) else [])
              + ApplyAll(d, cmds[..m], digits[..m]).Gap(pos) + Behind(e, pos)
  {
    hide ApplyAll, Piled, Ahead, Behind, Draft.Gap, Opening, Closing;
  }

  lemma MergePlaced(e: Draft, pos: nat, pile: seq<Glyph>, open: seq<Glyph>, mark: seq<Glyph>, close: seq<Glyph>,
                    gap: seq<Glyph>)
    requires pos <= |e.cells| && e.Gap(pos) == pile + (open + mark + close + gap)
    ensures e.Merge() == (Ahead(e, pos) + pile + open) + mark + (close + gap + Behind(e, pos))
  {
    hide *;
    MergeAt(e, pos);
    Regrouped(Ahead(e, pos), pile, open, mark, close, gap, Behind(e, pos));
  }

  lemma Regrouped<T>(a: seq<T>, p: seq<T>, o: seq<T>, m: seq<T>, c: seq<T>, g: seq<T>, b: seq<T>)
    ensures a + (p + (o + m + c + g)) + b == (a + p + o) + m + (c + g + b)
  {
  }

  /** Where a block command leaves its marker in the next version, whatever else the batch does: an item's digit
      aside it is there, and it begins its line exactly if its lead ends with a line break or is empty. */
  lemma BlockMarker(ps: seq<Piece>, cmds: seq<Command>, m: nat)
    requires WellFormed(ps) && forall c :: c in cmds ==> Defined(c, Size(ps))
    requires m < |cmds| && IsBlock(cmds[m]) && InRange(cmds[m].pos, Size(ps))
    ensures |Abs(ps).cells| == Size(ps)
    ensures var gs := Abs(Commit(ExecAll(ps, cmds))).Base();
      var lead, rest := Lead(Abs(ps), cmds, Hints(ps, cmds), m), Remainder(Abs(ps), cmds, Hints(ps, cmds), m);
      var k, marker := |lead|, Marker(cmds[m], '1');
      && |gs| == k + |marker| + |rest|
      && (forall i :: 0 <= i < |marker| ==> gs[k + i] == Ch(marker[i]) || (i == 0 && cmds[m].OrderedList?))
      && (k == 0 || gs[k - 1].Brk? <==> StartsLine(lead))
      && (rest != [] ==> (gs[k + |marker|].Brk? <==> rest[0].Brk?))
  {
    hide Abs, Size, Split, Unlines, Renumber, Canon, ExecAll, ApplyAll, Draft.Merge, Draft.Base, Commit, Lead,
      Remainder, Hints, Defined, WellFormed, Marker, IsBlock, Chars;
    AbsSize(ps);
    var d, digits := Abs(ps), Hints(ps, cmds);
    var e := ApplyAll(d, cmds, digits);
    BatchCommit(ps, cmds);
    CommitBase(ExecAll(ps, cmds), Split(e.Merge()));
    MarkerPlace(d, cmds, digits, m);
    UnlinesRenumber(Split(e.Merge()));
    UnlinesSplit(e.Merge());
    MarkerDigits(cmds[m], digits[m]);
    CharsAt(Marker(cmds[m], digits[m]));
    Middle(Lead(d, cmds, digits, m), Chars(Marker(cmds[m], digits[m])), Remainder(d, cmds, digits, m));
  }

  lemma CommitBase(ps: seq<Piece>, ls: seq<string>)
    requires ls != [] && Commit(ps) == Canon(Renumber(ls))
    ensures Abs(Commit(ps)).Base() == Unlines(Renumber(ls))
  {
    AbsCanon(Renumber(ls));
    CleanMerge(Unlines(Renumber(ls)));
  }

  lemma MarkerDigits(cmd: Command, digit: char)
    requires IsBlock(cmd)
    ensures |Marker(cmd, digit)| == |Marker(cmd, '1')|
    ensures forall i :: 0 <= i < |Marker(cmd, digit)| ==>
      (i == 0 && cmd.OrderedList?)
      || (Marker(cmd, digit)[i] == Marker(cmd, '1')[i] && !('1' <= Marker(cmd, digit)[i] <= '9'))
  {
  }

  lemma Middle<T>(x: seq<T>, m: seq<T>, y: seq<T>)
    ensures |x + m + y| == |x| + |m| + |y|
    ensures forall i :: 0 <= i < |m| ==> (x + m + y)[|x| + i] == m[i]
    ensures y != [] ==> (x + m + y)[|x| + |m|] == y[0]
  {
  }

  lemma CharsAt(s: string)
    ensures forall i :: 0 <= i < |s| ==> Chars(s)[i] == Ch(s[i])
  {
  }

  /** Leaves the gap of the block command alone, and does not delete the newline before it or, for a rule,
      the newline behind it. */
  predicate Spares(cmd: Command, block: Command, gs: seq<Glyph>)
    requires IsBlock(block)
  {
    var pos := block.pos;
    && !Touches(cmd, pos)
    && (0 < pos <= |gs| && gs[pos - 1].Brk? ==> !Kills(cmd, pos - 1, |gs|))
    && (block.HorizontalRule? && 0 <= pos < |gs| && gs[pos].Brk? ==> !Kills(cmd, pos, |gs|))
  }

  lemma {:induction false} PiledNothing(d: Draft, cmds: seq<Command>, digits: string, m: nat, p: nat)
    requires |digits| == |cmds| && forall c :: c in cmds ==> Defined(c, |d.cells|)
    requires p <= |d.cells| && forall i :: m <= i < |cmds| ==> !Touches(cmds[i], p)
    ensures Piled(d, cmds, digits, m, p) == []
    decreases |cmds|
  {
    hide Put, Touches, ApplyAll, Defined;
    if |cmds| > m {
      PiledNothing(d, Init(cmds), Init(digits), m, p);
      PutNothing(ApplyAll(d, Init(cmds), Init(digits)), Last(cmds), Last(digits), p);
    }
  }

  /** The gap of a block command on its own position. */
  lemma AloneAround(gs: seq<Glyph>, cmds: seq<Command>, digits: string, m: nat)
    requires |digits| == |cmds| && forall c :: c in cmds ==> Defined(c, |gs|)
    requires m < |cmds| && IsBlock(cmds[m]) && InRange(cmds[m].pos, |gs|)
    requires forall i :: 0 <= i < |cmds| && i != m ==> Spares(cmds[i], cmds[m], gs)
    ensures Piled(Clean(gs), cmds, digits, m + 1, cmds[m].pos) == []
    ensures ApplyAll(Clean(gs), cmds[..m], digits[..m]).Gap(cmds[m].pos) == []
  {
    hide Apply, ApplyAll, Piled, Touches, Defined, Kills;
    var pos := cmds[m].pos;
    PiledNothing(Clean(gs), cmds, digits, m + 1, pos);
    PiledNothing(Clean(gs), cmds[..m], digits[..m], 0, pos);
    BatchGaps(Clean(gs), cmds[..m], digits[..m]);
    CleanAround(gs, pos);
  }

  lemma SparedCells(gs: seq<Glyph>, cmds: seq<Command>, digits: string, m: nat)
    requires |digits| == |cmds| && forall c :: c in cmds ==> Defined(c, |gs|)
    requires m < |cmds| && IsBlock(cmds[m]) && InRange(cmds[m].pos, |gs|)
    requires forall i :: 0 <= i < |cmds| && i != m ==> Spares(cmds[i], cmds[m], gs)
    ensures var e, pos := ApplyAll(Clean(gs), cmds, digits), cmds[m].pos;
      && (forall i :: 0 <= i < |gs| ==> e.cells[i].glyph == gs[i])
      && (pos > 0 && gs[pos - 1].Brk? ==> !e.cells[pos - 1].dead)
      && (cmds[m].HorizontalRule? && pos < |gs| && gs[pos].Brk? ==> !e.cells[pos].dead)
  {
    hide Apply, ApplyAll, Piled, Touches, Defined, Kills, Draft.Gap;
    BatchGaps(Clean(gs), cmds, digits);
    BlockKillsNothing(cmds[m]);
    forall c | c in cmds && c != cmds[m]
      ensures Spares(c, cmds[m], gs)
    {
      var k :| 0 <= k < |cmds| && cmds[k] == c;
      assert Spares(cmds[k], cmds[m], gs);
    }
  }

  lemma BlockKillsNothing(cmd: Command)
    requires IsBlock(cmd)
    ensures forall i: nat, n: nat :: !Kills(cmd, i, n)
  {
  }

  /** A block command that is the batch's only one at its position, with no newline next to it deleted,
      leaves its marker at the start of a line, and a rule has the line to itself. */
  lemma BlockStartsLine(ls: seq<string>, cmds: seq<Command>, m: nat) returns (k: nat)
    requires ls != [] && m < |cmds|
    requires forall c :: c in cmds ==> Defined(c, Size(Canon(ls)))
    requires IsBlock(cmds[m]) && InRange(cmds[m].pos, Size(Canon(ls)))
    requires forall i :: 0 <= i < |cmds| && i != m ==> Spares(cmds[i], cmds[m], Unlines(ls))
    ensures |Unlines(ls)| == Size(Canon(ls))
    ensures var e := ApplyAll(Clean(Unlines(ls)), cmds, Hints(Canon(ls), cmds));
      k == |Ahead(e, cmds[m].pos)| + |Opening(e, cmds[m].pos)|
    ensures var gs := Abs(Commit(ExecAll(Canon(ls), cmds))).Base();
      var marker := Marker(cmds[m], '1');
      && k + |marker| <= |gs|
      && (k == 0 || gs[k - 1].Brk?)
      && (forall i :: 0 <= i < |marker| ==> gs[k + i] == Ch(marker[i]) || (i == 0 && cmds[m].OrderedList?))
      && (cmds[m].HorizontalRule? ==> k + |marker| < |gs| && gs[k + |marker|].Brk?)
  {
    hide Abs, Size, Unlines, Canon, ExecAll, ApplyAll, Draft.Base, Commit, Lead, Remainder, StartsLine, Kills, Touches,
      Ahead, Opening, Hints, Spares, Defined, WellFormed, Marker;
    AbsCanon(ls);
    AbsSize(Canon(ls));
    BlockMarker(Canon(ls), cmds, m);
    SparedLead(Unlines(ls), cmds, Hints(Canon(ls), cmds), m);
    k := |Lead(Clean(Unlines(ls)), cmds, Hints(Canon(ls), cmds), m)|;
  }

  /** The lead of a block command that the rest of the batch spares. */
  lemma SparedLead(gs: seq<Glyph>, cmds: seq<Command>, digits: string, m: nat)
    requires |digits| == |cmds| && forall c :: c in cmds ==> Defined(c, |gs|)
    requires m < |cmds| && IsBlock(cmds[m]) && InRange(cmds[m].pos, |gs|)
    requires forall i :: 0 <= i < |cmds| && i != m ==> Spares(cmds[i], cmds[m], gs)
    ensures var e, lead := ApplyAll(Clean(gs), cmds, digits), Lead(Clean(gs), cmds, digits, m);
      StartsLine(lead) && |lead| == |Ahead(e, cmds[m].pos)| + |Opening(e, cmds[m].pos)|
    ensures var rest := Remainder(Clean(gs), cmds, digits, m);
      cmds[m].HorizontalRule? ==> rest != [] && rest[0].Brk?
  {
    hide ApplyAll, Draft.Gap, Ahead, Behind, Defined, Piled, StartsLine, Kills, Touches, Spares;
    var e, pos := ApplyAll(Clean(gs), cmds, digits), cmds[m].pos;
    AloneAround(gs, cmds, digits, m);
    SparedCells(gs, cmds, digits, m);
    ConcatNil(Ahead(e, pos));
    ConcatNil(Closing(e, pos));
    SameEnds(e, gs, pos);
    OpeningStarts(e, pos);
    if cmds[m].HorizontalRule? {
      ClosingStarts(e, pos);
    }
  }

  lemma SameEnds(e: Draft, gs: seq<Glyph>, pos: nat)
    requires |e.cells| == |gs| && pos <= |gs| && forall i :: 0 <= i < |gs| ==> e.cells[i].glyph == gs[i]
    ensures Opening(e, pos) == Opening(Clean(gs), pos) && Closing(e, pos) == Closing(Clean(gs), pos)
    ensures pos > 0 && gs[pos - 1].Ch? ==> AfterText(e, pos)
  {
  }

  lemma ClosingStarts(e: Draft, pos: nat)
    requires pos <= |e.cells|
    requires pos < |e.cells| && e.cells[pos].glyph.Brk? ==> !e.cells[pos].dead
    ensures var y := Closing(e, pos) + Behind(e, pos); y != [] && y[0] == Brk
  {
    if pos < |e.cells| && e.cells[pos].glyph.Brk? {
      BehindStarts(e, pos);
    }
  }

  lemma BehindStarts(d: Draft, pos: nat)
    requires pos < |d.cells| && !d.cells[pos].dead
    ensures Behind(d, pos) != [] && Behind(d, pos)[0] == d.cells[pos].glyph
  {
    var cs := d.cells[pos..];
    assert cs == [cs[0]] + cs[1..];
    WovenConcat([cs[0]], cs[1..]);
    assert Woven([cs[0]]) == [] + Kept(cs[0]);
  }

  // ---------- block commands on a clean document ----------

  /** The text with something put at a position, preceded by a line break if it stands behind text. */
  function PutLine(gs: seq<Glyph>, pos: nat, added: seq<Glyph>): seq<Glyph>
    requires pos <= |gs|
  {
    gs[..pos] + (if pos > 0 && gs[pos - 1].Ch? then [Brk] else []) + added + gs[pos..]
  }

  lemma BlockText(ls: seq<string>, cmd: Command)
    requires ls != [] && IsBlock(cmd) && InRange(cmd.pos, |Unlines(ls)|)
    requires Defined(cmd, |Unlines(ls)|)
    ensures Size(Canon(ls)) == |Unlines(ls)|
    ensures Commit(Exec(Canon(ls), cmd).0)
         == Canon(Renumber(Split(PutLine(Unlines(ls), cmd.pos, Chars(Marker(cmd, Hint(Canon(ls), cmd)))
              + (if cmd.HorizontalRule? then Closing(Clean(Unlines(ls)), cmd.pos) else [])))))
  {
    hide Abs, Size, Commit, Split, Unlines, Renumber, Chars, Canon, Exec, Apply, Marker, Closing, Hint,
      Draft.Merge, Draft.Insert, Clean, WellFormed, IsBlock;
    var ps, gs := Canon(ls), Unlines(ls);
    AbsCanon(ls);
    AbsSize(ps);
    CleanSize(gs);
    ExecCommit(ps, cmd);
    BlockInserted(gs, cmd, Hint(ps, cmd));
  }

  lemma BlockInserted(gs: seq<Glyph>, cmd: Command, digit: char)
    requires IsBlock(cmd) && InRange(cmd.pos, |gs|) && Defined(cmd, |gs|)
    ensures Apply(Clean(gs), cmd, digit).0.Merge()
         == PutLine(gs, cmd.pos, Chars(Marker(cmd, digit))
              + (if cmd.HorizontalRule? then Closing(Clean(gs), cmd.pos) else []))
  {
    hide Apply, Chars, Marker, Closing, Draft.Merge, Draft.Insert;
    var d, pos := Clean(gs), cmd.pos;
    var mark := Chars(Marker(cmd, digit)) + (if cmd.HorizontalRule? then Closing(d, pos) else []);
    BlockStep(d, cmd, digit);
    BlockPut(d, d, cmd, digit);
    ConcatAssoc(Opening(d, pos), Chars(Marker(cmd, digit)), if cmd.HorizontalRule? then Closing(d, pos) else []);
    InsertedMerge(gs, pos, Opening(d, pos) + mark);
    ConcatAssoc(gs[..pos], Opening(d, pos), mark);
  }

  /** The document of the lines with something on a line of its own. */
  function WithLine(ls: seq<string>, pos: nat, added: seq<Glyph>): seq<Piece>
    requires ls != [] && pos <= |Unlines(ls)|
  {
    Canon(Renumber(Split(PutLine(Unlines(ls), pos, added))))
  }

  lemma PlainBlock(ls: seq<string>, cmd: Command, marker: string)
    requires ls != [] && IsBlock(cmd) && InRange(cmd.pos, |Unlines(ls)|) && Defined(cmd, |Unlines(ls)|)
    requires !cmd.HorizontalRule? && forall c :: Marker(cmd, c) == marker
    ensures Size(Canon(ls)) == |Unlines(ls)|
    ensures Commit(Exec(Canon(ls), cmd).0) == WithLine(ls, cmd.pos, Chars(marker))
  {
    hide Size, Commit, Split, Unlines, Renumber, Chars, Canon, Exec, PutLine, Marker, Hint;
    BlockText(ls, cmd);
    ConcatNil(Chars(marker));
  }

  /** What a heading makes of a clean document. */
  lemma HeadingCommand(ls: seq<string>, level: int, pos: nat)
    requires ls != [] && pos <= |Unlines(ls)| && 1 <= level <= 3
    ensures Size(Canon(ls)) == |Unlines(ls)|
    ensures var ps := Commit(Exec(Canon(ls), Command.Heading(level, pos)).0);
      && (level == 1 ==> ps == WithLine(ls, pos, Chars("# ")))
      && (level == 2 ==> ps == WithLine(ls, pos, Chars("## ")))
      && (level == 3 ==> ps == WithLine(ls, pos, Chars("### ")))
  {
    hide Size, Commit, Split, Unlines, Renumber, Chars, Canon, Exec, WithLine, WellFormed;
    PlainBlock(ls, Command.Heading(level, pos), HeadingMarker(level));
  }

  /** What a quote makes of a clean document. */
  lemma QuoteCommand(ls: seq<string>, pos: nat)
    requires ls != [] && pos <= |Unlines(ls)|
    ensures Size(Canon(ls)) == |Unlines(ls)|
    ensures Commit(Exec(Canon(ls), Command.Blockquote(pos)).0) == WithLine(ls, pos, Chars("> "))
  {
    hide Size, Commit, Split, Unlines, Renumber, Chars, Canon, Exec, WithLine, WellFormed;
    PlainBlock(ls, Command.Blockquote(pos), "> ");
  }

  /** What a bullet makes of a clean document. */
  lemma BulletCommand(ls: seq<string>, pos: nat)
    requires ls != [] && pos <= |Unlines(ls)|
    ensures Size(Canon(ls)) == |Unlines(ls)|
    ensures Commit(Exec(Canon(ls), Command.UnorderedList(pos)).0) == WithLine(ls, pos, Chars("- "))
  {
    hide Size, Commit, Split, Unlines, Renumber, Chars, Canon, Exec, WithLine, WellFormed;
    PlainBlock(ls, Command.UnorderedList(pos), "- ");
  }

  /** What a rule makes of a clean document: a line break follows it, its own unless there is one already. */
  lemma RuleCommand(ls: seq<string>, pos: nat)
    requires ls != [] && pos <= |Unlines(ls)|
    ensures Size(Canon(ls)) == |Unlines(ls)|
    ensures var followed := pos < |Unlines(ls)| && Unlines(ls)[pos].Brk?;
      Commit(Exec(Canon(ls), Command.HorizontalRule(pos)).0)
        == WithLine(ls, pos, Chars("---") + (if followed then [] else [Brk]))
  {
    hide Size, Commit, Split, Unlines, Renumber, Chars, Canon, Exec, PutLine, Hint;
    BlockText(ls, Command.HorizontalRule(pos));
    assert Marker(Command.HorizontalRule(pos), Hint(Canon(ls), Command.HorizontalRule(pos))) == "---";
  }

  // ---------- range commands ----------

  /** The text with the two markers of a range command: the opening one at start, the closing one at end and, at
      the same position, before it; a marker with a negative position is lost. */
  function Surrounded(gs: seq<Glyph>, start: int, end: int, open: seq<Glyph>, close: seq<Glyph>): seq<Glyph>
    requires start <= |gs| && end <= |gs|
  {
    if start < 0 then if end < 0 then gs else gs[..end] + close + gs[end..]
    else if end < 0 then gs[..start] + open + gs[start..]
    else if start < end then gs[..start] + open + gs[start..end] + close + gs[end..]
    else gs[..end] + close + gs[end..start] + open + gs[start..]
  }

  /** The range commands on a clean document.  When start < end their markers enclose the text between the two
      positions; other pairs are accepted as well. */
  lemma RangeMarkers(ls: seq<string>, start: int, end: int, open: string, close: string)
    requires ls != [] && start <= |Unlines(ls)| && end <= |Unlines(ls)|
    ensures Size(Canon(ls)) == |Unlines(ls)|
    ensures Wrap(Canon(ls), start, end, open, close).1 == SUCCESS
    ensures Commit(Wrap(Canon(ls), start, end, open, close).0)
         == Canon(Renumber(Split(Surrounded(Unlines(ls), start, end, Chars(open), Chars(close)))))
  {
    hide Abs, Size, Wrap, Locate, Split, Renumber, Chars, Canon, Draft.Merge, Draft.Insert, Unlines, Surrounded;
    var ps, gs := Canon(ls), Unlines(ls);
    CanonCanonical(ls);
    AbsCanon(ls);
    AbsSize(ps);
    WrapMeaning(ps, start, end, open, close);
    CommitMeaning(Wrap(ps, start, end, open, close).0);
    SurroundedMerge(gs, start, end, open, close);
  }

  lemma SurroundedMerge(gs: seq<Glyph>, start: int, end: int, open: string, close: string)
    requires start <= |gs| && end <= |gs|
    ensures TryInsert(TryInsert(Clean(gs), start, open), end, close).Merge()
         == Surrounded(gs, start, end, Chars(open), Chars(close))
  {
    hide Chars, Draft.Merge, Draft.Insert;
    var d := Clean(gs);
    if start < 0 && end < 0 {
      CleanMerge(gs);
    } else if start < 0 {
      InsertedMerge(gs, end, Chars(close));
    } else if end < 0 {
      InsertedMerge(gs, start, Chars(open));
    } else if start < end {
      TwiceMerge(gs, start, end, Chars(open), Chars(close));
    } else if end < start {
      InsertsCommute(d, start, end, Chars(open), Chars(close));
      TwiceMerge(gs, end, start, Chars(close), Chars(open));
    } else {
      InsertTwice(d, start, Chars(open), Chars(close));
      InsertedMerge(gs, start, Chars(close) + Chars(open));
      assert gs[..start] + (Chars(close) + Chars(open)) == gs[..end] + Chars(close) + gs[end..start] + Chars(open);
    }
  }

  lemma InsertsCommute(d: Draft, p: nat, q: nat, a: seq<Glyph>, b: seq<Glyph>)
    requires p <= |d.cells| && q <= |d.cells| && p != q
    ensures d.Insert(p, a).Insert(q, b) == d.Insert(q, b).Insert(p, a)
  {
    assert d.Insert(p, a).Insert(q, b).cells == d.Insert(q, b).Insert(p, a).cells;
  }

  lemma TwiceMerge(gs: seq<Glyph>, p: nat, q: nat, a: seq<Glyph>, b: seq<Glyph>)
    requires p < q <= |gs|
    ensures Clean(gs).Insert(p, a).Insert(q, b).Merge() == gs[..p] + a + gs[p..q] + b + gs[q..]
  {
    hide Draft.Merge, Draft.Insert, Draft.Gap, Ahead, Behind;
    InsertBase(Clean(gs), p, a);
    InsertMerge(Clean(gs).Insert(p, a), q, b);
    WrapAhead(gs, p, q, a);
    ConcatNil(gs[..p] + a + gs[p..q] + b);
  }

  /** The document of the lines with the markers of a range command. */
  function Enclosed(ls: seq<string>, start: int, end: int, open: string, close: string): seq<Piece>
    requires ls != [] && start <= |Unlines(ls)| && end <= |Unlines(ls)|
  {
    Canon(Renumber(Split(Surrounded(Unlines(ls), start, end, Chars(open), Chars(close)))))
  }

  /** The four range commands on a clean document. */
  lemma RangeCommands(ls: seq<string>, start: int, end: int, url: string)
    requires ls != [] && start <= |Unlines(ls)| && end <= |Unlines(ls)|
    ensures Size(Canon(ls)) == |Unlines(ls)|
    ensures Enclosed(ls, start, end, "**", "**") == Commit(Exec(Canon(ls), Command.Bold(start, end)).0)
    ensures Enclosed(ls, start, end, "*", "*") == Commit(Exec(Canon(ls), Command.Italic(start, end)).0)
    ensures Enclosed(ls, start, end, "`", "`") == Commit(Exec(Canon(ls), Command.Code(start, end)).0)
    ensures Enclosed(ls, start, end, "[", "](" + url + ")") == Commit(Exec(Canon(ls), Command.Link(start, end, url)).0)
  {
    hide Size, Wrap, Commit, Unlines, Canon, Enclosed, WellFormed;
    EnclosedByWrap(ls, start, end, "**", "**");
    EnclosedByWrap(ls, start, end, "*", "*");
    EnclosedByWrap(ls, start, end, "`", "`");
    EnclosedByWrap(ls, start, end, "[", "](" + url + ")");
  }

  lemma EnclosedByWrap(ls: seq<string>, start: int, end: int, open: string, close: string)
    requires ls != [] && start <= |Unlines(ls)| && end <= |Unlines(ls)|
    ensures Size(Canon(ls)) == |Unlines(ls)|
    ensures Enclosed(ls, start, end, open, close) == Commit(Wrap(Canon(ls), start, end, open, close).0)
  {
    hide Size, Wrap, Commit, Split, Unlines, Renumber, Chars, Canon, Surrounded;
    RangeMarkers(ls, start, end, open, close);
  }

  /** Two rejections that the documentation announces and the code does not give: a range whose end does not
      follow its start, and an insertion behind deleted text. */
  lemma RejectionsMissed()
    ensures var ps := Canon(["ab"]);
      && Size(ps) == 2
      && Exec(ps, Command.Bold(1, 1)).1 == SUCCESS
      && Commit(Exec(ps, Command.Bold(1, 1)).0) == Canon(["a****b"])
      && var qs := Exec(ps, Command.Del(0, 1)).0;
      && |Abs(qs).cells| == 2 && Deleted(Abs(qs), 1)
      && Exec(qs, Command.Insert(1, "x")).1 == SUCCESS
  {
    hide Abs, Size, Commit, Canon, Renumber, Split, Unlines, Exec, Surrounded, Chars;
    var ps := Canon(["ab"]);
    AbText();
    RangeCommands(["ab"], 1, 1, "");
    AbSurrounded();
    AbsCanon(["ab"]);
    AbsSize(ps);
    DeleteExact(ps, 0, 1);
    ResultCodes(ps, Command.Bold(1, 1), true);
    AbsSize(Exec(ps, Command.Del(0, 1)).0);
    ResultCodes(Exec(ps, Command.Del(0, 1)).0, Command.Insert(1, "x"), true);
  }

  lemma AbText()
    ensures Unlines(["ab"]) == Chars("ab")
    ensures Renumber(["a****b"]) == ["a****b"]
  {
  }

  lemma AbSurrounded()
    ensures Surrounded(Chars("ab"), 1, 1, Chars("**"), Chars("**")) == Chars("a****b")
    ensures Split(Chars("a****b")) == ["a****b"]
  {
    SplitEmpty();
    SplitChars([], "a****b");
    assert [] + Chars("a****b") == Chars("a****b") && "" + "a****b" == "a****b";
  }

  /** One insertion or one deletion on a clean document. */
  lemma SingleEdits(ls: seq<string>, from: nat, to: nat, content: string)
    requires ls != [] && from <= to <= |Unlines(ls)|
    ensures Size(Canon(ls)) == |Unlines(ls)|
    ensures var gs := Unlines(ls);
      && Commit(Exec(Canon(ls), Command.Insert(from, content)).0)
           == Canon(Renumber(Split(gs[..from] + Chars(content) + gs[from..])))
      && Commit(Exec(Canon(ls), Command.Newline(from)).0)
           == Canon(Renumber(Split(gs[..from] + [Brk] + gs[from..])))
      && Commit(Exec(Canon(ls), Command.Del(from, to - from)).0)
           == Canon(Renumber(Split(gs[..from] + gs[to..])))
  {
    hide Abs, Size, Commit, Split, Unlines, Renumber, Chars, Canon, Exec,
      Draft.Merge, Draft.Insert, Draft.Delete, Clean;
    var ps, gs := Canon(ls), Unlines(ls);
    AbsCanon(ls);
    AbsSize(ps);
    CleanSize(gs);
    ExecCommit(ps, Command.Insert(from, content));
    ExecCommit(ps, Command.Newline(from));
    ExecCommit(ps, Command.Del(from, to - from));
    InsertedMerge(gs, from, Chars(content));
    InsertedMerge(gs, from, [Brk]);
    DeletedMerge(gs, from, to);
  }

  lemma CleanSize(gs: seq<Glyph>)
    ensures |Clean(gs).cells| == |gs|
  {
  }

  lemma ExecCommit(ps: seq<Piece>, cmd: Command)
    requires WellFormed(ps) && Defined(cmd, Size(ps))
    ensures |Abs(ps).cells| == Size(ps)
    ensures Commit(Exec(ps, cmd).0) == Canon(Renumber(Split(Apply(Abs(ps), cmd, Hint(ps, cmd)).0.Merge())))
  {
    hide Abs, Size, Exec, Apply, Split, Renumber, Canon, Draft.Merge;
    ExecMeaning(ps, cmd);
    CommitMeaning(Exec(ps, cmd).0);
  }

  lemma DeletedMerge(gs: seq<Glyph>, from: nat, to: nat)
    requires from <= to <= |gs|
    ensures Clean(gs).Delete(from, to).Merge() == gs[..from] + gs[to..]
  {
    hide Woven;
    var a, b, c := Cells(gs[..from], false), Cells(gs[from..to], true), Cells(gs[to..], false);
    assert Clean(gs).Delete(from, to).cells == a + b + c;
    WovenConcat(a + b, c);
    WovenConcat(a, b);
    CellsWoven(gs[..from], false);
    CellsWoven(gs[from..to], true);
    CellsWoven(gs[to..], false);
    assert [] + (gs[..from] + [] + gs[to..]) == gs[..from] + gs[to..];
  }

  lemma WrapAhead(gs: seq<Glyph>, start: nat, end: nat, open: seq<Glyph>)
    requires start < end <= |gs|
    ensures var d := Clean(gs).Insert(start, open);
      && Ahead(d, end) == gs[..start] + open + gs[start..end]
      && d.Gap(end) == []
      && Behind(d, end) == gs[end..]
  {
    var d := Clean(gs).Insert(start, open);
    assert d.cells[end..] == Cells(gs[end..], false);
    CellsWoven(gs[end..], false);
    AheadPrefix(d, end);
    assert Draft(d.front, d.cells[..end]) == Clean(gs[..end]).Insert(start, open) by {
      assert d.cells[..end] == Clean(gs[..end]).Insert(start, open).cells;
    }
    InsertedMerge(gs[..end], start, open);
    assert gs[..end][..start] == gs[..start] && gs[..end][start..] == gs[start..end];
  }

  /** What is ahead of an empty gap is the document up to it. */
  lemma AheadPrefix(d: Draft, pos: nat)
    requires 0 < pos <= |d.cells| && d.Gap(pos) == []
    ensures Ahead(d, pos) == Draft(d.front, d.cells[..pos]).Merge()
  {
    hide Woven;
    var e := Draft(d.front, d.cells[..pos]);
    MergeAt(e, pos);
    assert e.cells[..pos - 1] == d.cells[..pos - 1];
    assert e.cells[pos..] == [];
    WovenNil();
    assert Ahead(e, pos) + [] + [] == Ahead(e, pos);
  }

  lemma InsertedMerge(gs: seq<Glyph>, pos: nat, added: seq<Glyph>)
    requires pos <= |gs|
    ensures Clean(gs).Insert(pos, added).Merge() == gs[..pos] + added + gs[pos..]
  {
    hide Draft.Merge, Draft.Insert, Draft.Gap, Ahead, Behind;
    CleanAround(gs, pos);
    InsertMerge(Clean(gs), pos, added);
    assert gs[..pos] + added + [] + gs[pos..] == gs[..pos] + added + gs[pos..];
  }

  lemma CleanAround(gs: seq<Glyph>, pos: nat)
    requires pos <= |gs|
    ensures Ahead(Clean(gs), pos) == gs[..pos]
    ensures Clean(gs).Gap(pos) == []
    ensures Behind(Clean(gs), pos) == gs[pos..]
  {
    assert Clean(gs).cells[pos..] == Cells(gs[pos..], false);
    CellsWoven(gs[pos..], false);
    if pos > 0 {
      assert Clean(gs).cells[..pos - 1] == Cells(gs[..pos - 1], false);
      CellsWoven(gs[..pos - 1], false);
      assert [] + gs[..pos - 1] + [gs[pos - 1]] == gs[..pos];
    }
  }
}
