/** The provisional number that ORDERED_LIST gives its item (source/markdown.c, in_list_check in
    source/document.c): it depends on the chunks, which pending edits may have split, and this module tells
    when it does not show in the next version. */
module Numbering {
  import opened Seqs
  import opened Pieces
  import opened Drafts
  import opened Lines
  import opened Commits
  import opened Commands
  import opened Batches
  import opened Markers

  // ---------- one marker in a text ----------

  /** The provisional number vanishes at the commit exactly if the marker begins its line. */
  lemma DigitIrrelevant(x: seq<Glyph>, y: seq<Glyph>, a: char, b: char)
    requires '1' <= a <= '9' && '1' <= b <= '9' && a != b
    ensures Renumber(Split(x + Chars(ItemMarker(a)) + y)) == Renumber(Split(x + Chars(ItemMarker(b)) + y))
       <==> StartsLine(x)
  {
    hide Split, Renumber, Chars;
    StartsLineSplit(x);
    SplitMarker(x, y, a);
    SplitMarker(x, y, b);
    var ls, tail := Split(x), Split(y);
    if StartsLine(x) {
      RenumberDigit(Init(ls), ". " + tail[0], tail[1..], a, b);
      assert "" + ItemMarker(a) + tail[0] == [a] + (". " + tail[0]);
      assert "" + ItemMarker(b) + tail[0] == [b] + (". " + tail[0]);
    } else {
      var n := |ls| - 1;
      var k := |Last(ls)|;
      RenumberKeeps(Split(x + Chars(ItemMarker(a)) + y), n);
      RenumberKeeps(Split(x + Chars(ItemMarker(b)) + y), n);
      assert (Last(ls) + ItemMarker(a) + tail[0])[k] == a;
      assert (Last(ls) + ItemMarker(b) + tail[0])[k] == b;
    }
  }

  lemma SplitMarker(x: seq<Glyph>, y: seq<Glyph>, c: char)
    ensures Split(x + Chars(ItemMarker(c)) + y)
         == Init(Split(x)) + [Last(Split(x)) + ItemMarker(c) + Split(y)[0]] + Split(y)[1..]
  {
    hide Split, Chars;
    SplitConcat(x + Chars(ItemMarker(c)), y);
    SplitChars(x, ItemMarker(c));
  }

  lemma RenumberDigit(above: seq<string>, rest: string, below: seq<string>, a: char, b: char)
    requires IsItem([a] + rest) && IsItem([b] + rest)
    ensures Renumber(above + [[a] + rest] + below) == Renumber(above + [[b] + rest] + below)
  {
    var xs, ys := above + [[a] + rest] + below, above + [[b] + rest] + below;
    forall i | 0 <= i < |xs|
      ensures Renumber(xs)[i] == Renumber(ys)[i]
    {
      TrailDigit(above, rest, below, a, b, i);
      if i == |above| {
        NumberedDigit(rest, 1 + Trail(xs[..i]), a, b);
      } else {
        assert xs[i] == ys[i];
      }
    }
  }

  lemma NumberedDigit(rest: string, num: nat, a: char, b: char)
    requires IsItem([a] + rest) && IsItem([b] + rest)
    ensures Numbered([a] + rest, num) == Numbered([b] + rest, num)
  {
    assert ([a] + rest)[1..] == rest == ([b] + rest)[1..];
  }

  lemma {:induction false} TrailDigit(above: seq<string>, rest: string, below: seq<string>, a: char, b: char, i: nat)
    requires '1' <= a <= '9' && '1' <= b <= '9' && i <= |above| + 1 + |below|
    ensures Trail((above + [[a] + rest] + below)[..i]) == Trail((above + [[b] + rest] + below)[..i])
  {
    var xs, ys := above + [[a] + rest] + below, above + [[b] + rest] + below;
    if i > 0 {
      TrailDigit(above, rest, below, a, b, i - 1);
      assert Init(xs[..i]) == xs[..i - 1] && Init(ys[..i]) == ys[..i - 1];
      assert ([a] + rest)[1..] == rest == ([b] + rest)[1..];
    }
  }

  /** What ORDERED_LIST makes of a clean document: whatever number it finds, the new item is renumbered like one that
      starts with 1. */
  lemma ItemCommand(ls: seq<string>, pos: nat)
    requires ls != [] && pos <= |Unlines(ls)|
    ensures Size(Canon(ls)) == |Unlines(ls)|
    ensures Commit(Exec(Canon(ls), Command.OrderedList(pos)).0) == WithLine(ls, pos, Chars("1. "))
  {
    hide Size, Commit, Split, Unlines, Renumber, Chars, Canon, Exec, Hint;
    var gs, digit := Unlines(ls), Hint(Canon(ls), Command.OrderedList(pos));
    BlockText(ls, Command.OrderedList(pos));
    ConcatNil(Chars(ItemMarker(digit)));
    var lead := gs[..pos] + (if pos > 0 && gs[pos - 1].Ch? then [Brk] else []);
    if digit != '1' {
      DigitIrrelevant(lead, gs[pos..], digit, '1');
    }
    assert ItemMarker('1') == "1. ";
  }

  // ---------- one marker in a batch ----------

  /** The lines of the next version, if the list items of the batch get the given provisional numbers. */
  function NextLines(d: Draft, cmds: seq<Command>, digits: string): seq<string>
    requires |digits| == |cmds| && forall c :: c in cmds ==> Defined(c, |d.cells|)
  {
    Renumber(Split(ApplyAll(d, cmds, digits).Merge()))
  }

  /** Command m inserts a list item. */
  predicate MakesItem(cmds: seq<Command>, m: nat, n: nat)
    requires m < |cmds|
  {
    cmds[m].OrderedList? && InRange(cmds[m].pos, n)
  }

  predicate Numbers(digits: string, n: nat) {
    |digits| == n && forall i :: 0 <= i < n ==> '1' <= digits[i] <= '9'
  }

  /** Everything but the gap at p is the same. */
  ghost predicate SameBut(d: Draft, e: Draft, p: nat) {
    SameBase(d, e) && forall q :: 0 <= q <= |d.cells| && q != p ==> d.Gap(q) == e.Gap(q)
  }

  lemma SameButStep(d: Draft, e: Draft, p: nat, cmd: Command, digit: char)
    requires SameBut(d, e, p) && Defined(cmd, |d.cells|)
    ensures SameBut(Apply(d, cmd, digit).0, Apply(e, cmd, digit).0, p)
  {
    hide Apply, Put, Draft.Gap;
    StepGaps(d, cmd, digit);
    StepGaps(e, cmd, digit);
    forall q | 0 <= q <= |d.cells|
      ensures Put(d, cmd, digit, q) == Put(e, cmd, digit, q)
    {
      PutSame(d, e, cmd, digit, q);
    }
  }

  /** Another number for one item changes nothing outside its gap, nor what is put on top of it. */
  lemma {:induction false} OtherNumber(d: Draft, cmds: seq<Command>, digits: string, m: nat, c: char)
    requires |digits| == |cmds| && forall c :: c in cmds ==> Defined(c, |d.cells|)
    requires m < |cmds| && MakesItem(cmds, m, |d.cells|)
    ensures SameBut(ApplyAll(d, cmds, digits), ApplyAll(d, cmds, digits[m := c]), cmds[m].pos)
    ensures Piled(d, cmds, digits, m + 1, cmds[m].pos) == Piled(d, cmds, digits[m := c], m + 1, cmds[m].pos)
    decreases |cmds|
  {
    hide Apply, Put, Draft.Gap, Defined, SameBut;
    var a, x, y := Init(cmds), Init(digits), Init(digits[m := c]);
    if m == |cmds| - 1 {
      assert y == x;
      ItemStep(ApplyAll(d, a, x), cmds[m], digits[m], c);
    } else {
      assert y == x[m := c];
      OtherNumber(d, a, x, m, c);
      SameButStep(ApplyAll(d, a, x), ApplyAll(d, a, y), cmds[m].pos, Last(cmds), Last(digits));
      SameButBase(ApplyAll(d, a, x), ApplyAll(d, a, y), cmds[m].pos);
      PutSame(ApplyAll(d, a, x), ApplyAll(d, a, y), Last(cmds), Last(digits), cmds[m].pos);
    }
  }

  lemma SameButBase(d: Draft, e: Draft, p: nat)
    requires SameBut(d, e, p)
    ensures SameBase(d, e)
  {
  }

  lemma ItemStep(d: Draft, cmd: Command, a: char, c: char)
    requires cmd.OrderedList? && InRange(cmd.pos, |d.cells|)
    ensures SameBut(Apply(d, cmd, a).0, Apply(d, cmd, c).0, cmd.pos)
  {
    hide Apply, Draft.Gap;
    StepGaps(d, cmd, a);
    StepGaps(d, cmd, c);
  }

  /** So its marker keeps its place. */
  lemma SameLead(d: Draft, cmds: seq<Command>, digits: string, m: nat, c: char)
    requires |digits| == |cmds| && forall c :: c in cmds ==> Defined(c, |d.cells|)
    requires m < |cmds| && MakesItem(cmds, m, |d.cells|)
    ensures Lead(d, cmds, digits, m) == Lead(d, cmds, digits[m := c], m)
    ensures Remainder(d, cmds, digits, m) == Remainder(d, cmds, digits[m := c], m)
  {
    hide ApplyAll, Piled, Ahead, Behind, Defined, SameBut, Draft.Gap, Opening, Closing;
    OtherNumber(d, cmds, digits, m, c);
    assert digits[m := c][..m] == digits[..m];
    SameAround(ApplyAll(d, cmds, digits), ApplyAll(d, cmds, digits[m := c]), cmds[m].pos);
  }

  lemma SameAround(d: Draft, e: Draft, p: nat)
    requires SameBut(d, e, p) && p <= |d.cells|
    ensures Ahead(d, p) == Ahead(e, p) && Behind(d, p) == Behind(e, p)
  {
    hide Woven;
    forall i | 0 <= i < |d.cells| && i != p - 1
      ensures d.cells[i] == e.cells[i]
    {
      assert d.cells[i].after == d.Gap(i + 1) == e.Gap(i + 1) == e.cells[i].after;
    }
    assert d.cells[p..] == e.cells[p..];
    if p > 0 {
      assert d.front == d.Gap(0) == e.Gap(0) == e.front;
      assert d.cells[..p - 1] == e.cells[..p - 1];
    }
  }

  /** Whatever else a batch does, another provisional number for one of its items gives the same next version,
      exactly if the item's marker begins its line there. */
  lemma ProvisionalNumber(d: Draft, cmds: seq<Command>, digits: string, m: nat, c: char)
    requires |digits| == |cmds| && forall c :: c in cmds ==> Defined(c, |d.cells|)
    requires m < |cmds| && MakesItem(cmds, m, |d.cells|)
    requires '1' <= digits[m] <= '9' && '1' <= c <= '9' && c != digits[m]
    ensures NextLines(d, cmds, digits) == NextLines(d, cmds, digits[m := c]) <==> StartsLine(Lead(d, cmds, digits, m))
  {
    hide ApplyAll, Draft.Merge, Lead, Remainder, Defined, Chars, Split, Renumber;
    MarkerPlace(d, cmds, digits, m);
    MarkerPlace(d, cmds, digits[m := c], m);
    SameLead(d, cmds, digits, m, c);
    DigitIrrelevant(Lead(d, cmds, digits, m), Remainder(d, cmds, digits, m), digits[m], c);
  }

  // ---------- all the markers of a batch ----------

  /** Line breaks in the same places. */
  ghost predicate Alike(x: seq<Glyph>, y: seq<Glyph>) {
    |x| == |y| && forall i :: 0 <= i < |x| ==> x[i].Brk? == y[i].Brk?
  }

  ghost predicate AlikeDrafts(d: Draft, e: Draft) {
    SameBase(d, e) && forall p :: 0 <= p <= |d.cells| ==> Alike(d.Gap(p), e.Gap(p))
  }

  lemma AlikeConcat(a: seq<Glyph>, b: seq<Glyph>, x: seq<Glyph>, y: seq<Glyph>)
    requires Alike(a, b) && Alike(x, y)
    ensures Alike(a + x, b + y)
  {
  }

  lemma AlikeSelf(x: seq<Glyph>)
    ensures Alike(x, x)
  {
  }

  lemma PutAlike(d: Draft, e: Draft, cmd: Command, a: char, c: char, p: nat)
    requires SameBase(d, e) && Defined(cmd, |d.cells|) && p <= |d.cells|
    ensures Alike(Put(d, cmd, a, p), Put(e, cmd, c, p))
  {
    hide Put, Opening, Closing;
    PutSame(d, e, cmd, c, p);
    if cmd.OrderedList? {
      ItemAlike(d, cmd, a, c, p);
    } else {
      PutDigitless(d, cmd, a, c, p);
    }
  }

  lemma ItemAlike(d: Draft, cmd: Command, a: char, c: char, p: nat)
    requires cmd.OrderedList? && p <= |d.cells|
    ensures Alike(Put(d, cmd, a, p), Put(d, cmd, c, p))
  {
  }

  lemma PutDigitless(d: Draft, cmd: Command, a: char, c: char, p: nat)
    requires Defined(cmd, |d.cells|) && p <= |d.cells| && !cmd.OrderedList?
    ensures Put(d, cmd, a, p) == Put(d, cmd, c, p)
  {
  }

  lemma {:induction false} BatchAlike(d: Draft, cmds: seq<Command>, x: string, y: string)
    requires |x| == |y| == |cmds| && forall c :: c in cmds ==> Defined(c, |d.cells|)
    ensures AlikeDrafts(ApplyAll(d, cmds, x), ApplyAll(d, cmds, y))
    decreases |cmds|
  {
    hide Apply, Put, Draft.Gap, Defined, Alike;
    if cmds == [] {
      AlikeItself(d);
    } else {
      var e, f := ApplyAll(d, Init(cmds), Init(x)), ApplyAll(d, Init(cmds), Init(y));
      BatchAlike(d, Init(cmds), Init(x), Init(y));
      StepGaps(e, Last(cmds), Last(x));
      StepGaps(f, Last(cmds), Last(y));
      forall p | 0 <= p <= |d.cells|
        ensures Alike(Put(e, Last(cmds), Last(x), p) + e.Gap(p), Put(f, Last(cmds), Last(y), p) + f.Gap(p))
      {
        PutAlike(e, f, Last(cmds), Last(x), Last(y), p);
        AlikeConcat(Put(e, Last(cmds), Last(x), p), Put(f, Last(cmds), Last(y), p), e.Gap(p), f.Gap(p));
      }
    }
  }

  lemma AlikeItself(d: Draft)
    ensures AlikeDrafts(d, d)
  {
  }

  lemma {:induction false} PiledAlike(d: Draft, cmds: seq<Command>, x: string, y: string, m: nat, p: nat)
    requires |x| == |y| == |cmds| && forall c :: c in cmds ==> Defined(c, |d.cells|)
    requires p <= |d.cells|
    ensures Alike(Piled(d, cmds, x, m, p), Piled(d, cmds, y, m, p))
    decreases |cmds|
  {
    hide Apply, ApplyAll, Put, Draft.Gap, Defined, Alike;
    if |cmds| <= m {
      AlikeSelf([]);
    } else {
      var e, f := ApplyAll(d, Init(cmds), Init(x)), ApplyAll(d, Init(cmds), Init(y));
      BatchAlike(d, Init(cmds), Init(x), Init(y));
      PiledAlike(d, Init(cmds), Init(x), Init(y), m, p);
      PutAlike(e, f, Last(cmds), Last(x), Last(y), p);
      AlikeConcat(Put(e, Last(cmds), Last(x), p), Put(f, Last(cmds), Last(y), p),
                  Piled(d, Init(cmds), Init(x), m, p), Piled(d, Init(cmds), Init(y), m, p));
    }
  }

  lemma {:induction false} WovenAlike(a: seq<Cell>, b: seq<Cell>)
    requires |a| == |b|
    requires forall i :: 0 <= i < |a| ==>
      a[i].glyph == b[i].glyph && a[i].dead == b[i].dead && Alike(a[i].after, b[i].after)
    ensures Alike(Woven(a), Woven(b))
  {
    hide Alike;
    AlikeSelf([]);
    if a != [] {
      WovenAlike(Init(a), Init(b));
      var x, y := Last(a), Last(b);
      var alive := if x.dead then [] else [x.glyph];
      AlikeSelf(alive);
      AlikeConcat(alive, alive, x.after, y.after);
      AlikeConcat(Woven(Init(a)), Woven(Init(b)), Kept(x), Kept(y));
    }
  }

  lemma AheadAlike(d: Draft, e: Draft, p: nat)
    requires AlikeDrafts(d, e) && p <= |d.cells|
    ensures Alike(Ahead(d, p), Ahead(e, p))
  {
    hide Alike, Woven, StartsLine;
    AlikeSelf([]);
    if p > 0 {
      AlikeCells(d, e);
      WovenAlike(d.cells[..p - 1], e.cells[..p - 1]);
      AlikeConcat(d.front, e.front, Woven(d.cells[..p - 1]), Woven(e.cells[..p - 1]));
      var alive := if d.cells[p - 1].dead then [] else [d.cells[p - 1].glyph];
      AlikeSelf(alive);
      AlikeConcat(d.front + Woven(d.cells[..p - 1]), e.front + Woven(e.cells[..p - 1]), alive, alive);
    }
  }

  lemma AlikeCells(d: Draft, e: Draft)
    requires AlikeDrafts(d, e)
    ensures Alike(d.front, e.front)
    ensures forall i :: 0 <= i < |d.cells| ==> Alike(d.cells[i].after, e.cells[i].after)
  {
    hide Alike;
    assert d.Gap(0) == d.front && e.Gap(0) == e.front;
    forall i | 0 <= i < |d.cells|
      ensures Alike(d.cells[i].after, e.cells[i].after)
    {
      assert Alike(d.Gap(i + 1), e.Gap(i + 1));
    }
  }

  /** The digits '1' for every command. */
  function Ones(n: nat): (digits: string)
    ensures Numbers(digits, n)
  {
    seq(n, _ => '1')
  }

  /** The marker of item m begins its line in the next version. */
  predicate BeginsLine(d: Draft, cmds: seq<Command>, m: nat)
    requires forall c :: c in cmds ==> Defined(c, |d.cells|)
    requires m < |cmds| && MakesItem(cmds, m, |d.cells|)
  {
    StartsLine(Lead(d, cmds, Ones(|cmds|), m))
  }

  lemma BeginsLineAnyway(d: Draft, cmds: seq<Command>, digits: string, m: nat)
    requires |digits| == |cmds| && forall c :: c in cmds ==> Defined(c, |d.cells|)
    requires m < |cmds| && MakesItem(cmds, m, |d.cells|)
    ensures BeginsLine(d, cmds, m) <==> StartsLine(Lead(d, cmds, digits, m))
  {
    hide ApplyAll, Piled, Ahead, Defined, Alike, Opening, StartsLine;
    var pos, x, y := cmds[m].pos, digits, Ones(|cmds|);
    BatchAlike(d, cmds, x, y);
    PiledAlike(d, cmds, x, y, m + 1, pos);
    AheadAlike(ApplyAll(d, cmds, x), ApplyAll(d, cmds, y), pos);
    AlikeConcat(Ahead(ApplyAll(d, cmds, x), pos), Ahead(ApplyAll(d, cmds, y), pos),
                Piled(d, cmds, x, m + 1, pos), Piled(d, cmds, y, m + 1, pos));
    AlikeSelf(Opening(d, pos));
    AlikeConcat(Ahead(ApplyAll(d, cmds, x), pos) + Piled(d, cmds, x, m + 1, pos),
                Ahead(ApplyAll(d, cmds, y), pos) + Piled(d, cmds, y, m + 1, pos), Opening(d, pos), Opening(d, pos));
    AlikeStarts(Lead(d, cmds, x, m), Lead(d, cmds, y, m));
  }

  lemma AlikeStarts(x: seq<Glyph>, y: seq<Glyph>)
    requires Alike(x, y)
    ensures StartsLine(x) == StartsLine(y)
  {
  }

  lemma {:induction false} NumberIgnored(d: Draft, cmds: seq<Command>, digits: string, m: nat, c: char)
    requires |digits| == |cmds| && forall c :: c in cmds ==> Defined(c, |d.cells|)
    requires m < |cmds| && !MakesItem(cmds, m, |d.cells|)
    ensures ApplyAll(d, cmds, digits) == ApplyAll(d, cmds, digits[m := c])
    decreases |cmds|
  {
    hide Apply, Defined;
    var a, x := Init(cmds), Init(digits);
    if m == |cmds| - 1 {
      assert Init(digits[m := c]) == x;
      ApplyDigitless(ApplyAll(d, a, x), cmds[m], digits[m], c);
    } else {
      assert Init(digits[m := c]) == x[m := c];
      NumberIgnored(d, a, x, m, c);
    }
  }

  lemma ApplyDigitless(d: Draft, cmd: Command, a: char, c: char)
    requires Defined(cmd, |d.cells|) && !(cmd.OrderedList? && InRange(cmd.pos, |d.cells|))
    ensures Apply(d, cmd, a).0 == Apply(d, cmd, c).0
  {
  }

  ghost predicate AllBeginLines(d: Draft, cmds: seq<Command>)
    requires forall c :: c in cmds ==> Defined(c, |d.cells|)
  {
    forall m :: 0 <= m < |cmds| && MakesItem(cmds, m, |d.cells|) ==> BeginsLine(d, cmds, m)
  }

  lemma {:induction false} NumbersVanish(d: Draft, cmds: seq<Command>, x: string, y: string, n: nat)
    requires Numbers(x, |cmds|) && Numbers(y, |cmds|) && n <= |cmds|
    requires (forall c :: c in cmds ==> Defined(c, |d.cells|)) && AllBeginLines(d, cmds)
    ensures NextLines(d, cmds, x) == NextLines(d, cmds, y[..n] + x[n..])
  {
    hide ApplyAll, BeginsLine, Defined, Split, Renumber, Draft.Merge, MakesItem, Lead;
    if n == 0 {
      assert y[..0] + x[0..] == x;
    } else {
      NumbersVanish(d, cmds, x, y, n - 1);
      var z := y[..n - 1] + x[n - 1..];
      assert y[..n] + x[n..] == z[n - 1 := y[n - 1]];
      if !MakesItem(cmds, n - 1, |d.cells|) {
        NumberIgnored(d, cmds, z, n - 1, y[n - 1]);
      } else if y[n - 1] == z[n - 1] {
        assert z[n - 1 := y[n - 1]] == z;
      } else {
        BeginsLineAnyway(d, cmds, z, n - 1);
        ProvisionalNumber(d, cmds, z, n - 1, y[n - 1]);
      }
    }
  }

  /** The provisional numbers of a batch do not matter at all, exactly if every item begins its line. */
  lemma ProvisionalNumbers(d: Draft, cmds: seq<Command>)
    requires forall c :: c in cmds ==> Defined(c, |d.cells|)
    ensures AllBeginLines(d, cmds)
       <==> forall x, y | Numbers(x, |cmds|) && Numbers(y, |cmds|) :: NextLines(d, cmds, x) == NextLines(d, cmds, y)
  {
    hide NextLines, BeginsLine, Defined, MakesItem, Lead, StartsLine;
    if AllBeginLines(d, cmds) {
      forall x, y | Numbers(x, |cmds|) && Numbers(y, |cmds|)
        ensures NextLines(d, cmds, x) == NextLines(d, cmds, y)
      {
        NumbersVanish(d, cmds, x, y, |cmds|);
        assert y[..|cmds|] + x[|cmds|..] == y;
      }
    } else {
      var m :| 0 <= m < |cmds| && MakesItem(cmds, m, |d.cells|) && !BeginsLine(d, cmds, m);
      var x := Ones(|cmds|);
      BeginsLineAnyway(d, cmds, x, m);
      ProvisionalNumber(d, cmds, x, m, '2');
      assert Numbers(x[m := '2'], |cmds|);
    }
  }

  /** Then the reference alone, with any numbers, tells the next version. */
  lemma BatchNextLines(ps: seq<Piece>, cmds: seq<Command>, digits: string)
    requires WellFormed(ps) && (forall c :: c in cmds ==> Defined(c, Size(ps))) && Numbers(digits, |cmds|)
    ensures |Abs(ps).cells| == Size(ps)
    ensures AllBeginLines(Abs(ps), cmds) ==> Commit(ExecAll(ps, cmds)) == Canon(NextLines(Abs(ps), cmds, digits))
  {
    hide Abs, Size, ExecAll, ApplyAll, AllBeginLines, Split, Renumber, Canon, Draft.Merge, WellFormed, Commit, Defined;
    BatchCommit(ps, cmds);
    if AllBeginLines(Abs(ps), cmds) {
      HintsAreNumbers(ps, cmds);
      NumbersVanish(Abs(ps), cmds, Hints(ps, cmds), digits, |cmds|);
      assert digits[..|cmds|] + Hints(ps, cmds)[|cmds|..] == digits;
    }
  }

  lemma {:induction false} HintsAreNumbers(ps: seq<Piece>, cmds: seq<Command>)
    requires WellFormed(ps) && forall c :: c in cmds ==> Defined(c, Size(ps))
    ensures Numbers(Hints(ps, cmds), |cmds|)
    decreases |cmds|
  {
    hide Size, ExecAll, WellFormed, Defined, Hint;
    if cmds != [] {
      HintsAreNumbers(ps, Init(cmds));
    }
  }

  // ---------- when an item begins its line ----------

  /** For an item whose newline stays: it begins its line exactly if it stands behind text, so that it brings a line
      break of its own, or if the text that later commands put on top of it is empty or ends with a line break;
      in particular if no later command names its position. */
  lemma SparedItem(gs: seq<Glyph>, cmds: seq<Command>, m: nat)
    requires forall c :: c in cmds ==> Defined(c, |gs|)
    requires m < |cmds| && MakesItem(cmds, m, |gs|)
    requires cmds[m].pos > 0 && gs[cmds[m].pos - 1].Brk? ==> !Killed(cmds, cmds[m].pos - 1, |gs|)
    ensures var pos := cmds[m].pos;
      var top := Piled(Clean(gs), cmds, Ones(|cmds|), m + 1, pos);
      BeginsLine(Clean(gs), cmds, m) <==> (pos > 0 && gs[pos - 1].Ch?) || top == [] || Last(top).Brk?
    ensures (forall i :: m < i < |cmds| ==> !Touches(cmds[i], cmds[m].pos)) ==> BeginsLine(Clean(gs), cmds, m)
  {
    hide ApplyAll, Piled, Killed, Defined, Touches, Woven, Draft.Gap;
    var d, pos, x := Clean(gs), cmds[m].pos, Ones(|cmds|);
    var e, top := ApplyAll(d, cmds, x), Piled(d, cmds, x, m + 1, pos);
    BatchGaps(d, cmds, x);
    if top == [] {
      ConcatNil(Ahead(e, pos));
    } else if !AfterText(d, pos) {
      ConcatNil(Ahead(e, pos) + top);
      InitConcat(Ahead(e, pos), top);
    }
    if forall i :: m < i < |cmds| ==> !Touches(cmds[i], pos) {
      PiledNothing(d, cmds, x, m + 1, pos);
    }
  }

  /** Every item stands behind text, or keeps the newline before it and has its position to itself afterwards. */
  ghost predicate Harmless(gs: seq<Glyph>, cmds: seq<Command>) {
    forall m :: 0 <= m < |cmds| && MakesItem(cmds, m, |gs|) ==>
      var pos := cmds[m].pos;
      || (pos > 0 && gs[pos - 1].Ch?)
      || ((pos > 0 ==> !Killed(cmds, pos - 1, |gs|)) && forall i :: m < i < |cmds| ==> !Touches(cmds[i], pos))
  }

  /** The next version of a clean document, told without looking at the chunks, for every harmless batch. */
  lemma HarmlessBatch(ls: seq<string>, cmds: seq<Command>, digits: string)
    requires ls != [] && (forall c :: c in cmds ==> Defined(c, Size(Canon(ls)))) && Numbers(digits, |cmds|)
    ensures |Unlines(ls)| == Size(Canon(ls))
    ensures Harmless(Unlines(ls), cmds) ==>
      Commit(ExecAll(Canon(ls), cmds)) == Canon(NextLines(Clean(Unlines(ls)), cmds, digits))
  {
    hide Abs, Size, ExecAll, ApplyAll, Unlines, NextLines, Canon, WellFormed, Commit, Defined, BeginsLine, Piled,
      Killed, Touches;
    var gs := Unlines(ls);
    AbsCanon(ls);
    AbsSize(Canon(ls));
    BatchNextLines(Canon(ls), cmds, digits);
    if Harmless(gs, cmds) {
      forall m | 0 <= m < |cmds| && MakesItem(cmds, m, |gs|)
        ensures BeginsLine(Clean(gs), cmds, m)
      {
        HarmlessItem(gs, cmds, m);
      }
    }
  }

  lemma HarmlessItem(gs: seq<Glyph>, cmds: seq<Command>, m: nat)
    requires forall c :: c in cmds ==> Defined(c, |gs|)
    requires m < |cmds| && MakesItem(cmds, m, |gs|) && Harmless(gs, cmds)
    ensures BeginsLine(Clean(gs), cmds, m)
  {
    hide ApplyAll, Piled, Killed, Defined, Touches, BeginsLine;
    SparedItem(gs, cmds, m);
  }

  // ---------- concurrent edits among list items ----------

  lemma {:induction false} ApplyAllConcat(d: Draft, a: seq<Command>, b: seq<Command>, x: string, y: string)
    requires |x| == |a| && |y| == |b| && forall c :: c in a || c in b ==> Defined(c, |d.cells|)
    ensures ApplyAll(d, a + b, x + y) == ApplyAll(ApplyAll(d, a, x), b, y)
    decreases |b|
  {
    hide Apply, Defined;
    if b == [] {
      ConcatNil(a);
      ConcatNil(x);
    } else {
      InitConcat(a, b);
      InitConcat(x, y);
      ApplyAllConcat(d, a, Init(b), x, Init(y));
    }
  }

  /** Independent neighbours of any kind commute within any batch, list items included, as long as every item
      begins its line in either order. */
  lemma ConcurrentItems(ps: seq<Piece>, before: seq<Command>, a: Command, b: Command, after: seq<Command>)
    requires WellFormed(ps) && Independent(a, b, Size(ps))
    requires forall c :: c in before + [a, b] + after ==> Defined(c, Size(ps))
    ensures |Abs(ps).cells| == Size(ps)
    ensures forall c :: c in before + [b, a] + after ==> Defined(c, Size(ps))
    ensures AllBeginLines(Abs(ps), before + [a, b] + after) && AllBeginLines(Abs(ps), before + [b, a] + after)
        ==> Commit(ExecAll(ps, before + [a, b] + after)) == Commit(ExecAll(ps, before + [b, a] + after))
  {
    hide Abs, Size, ExecAll, Split, Renumber, Canon, Draft.Merge, WellFormed, Commit, Defined, AllBeginLines, ApplyAll,
      Independent;
    AbsSize(ps);
    assert forall c :: c in before + [b, a] + after ==> c in before + [a, b] + after;
    var x := Ones(|before|) + "11" + Ones(|after|);
    SameApplied(Abs(ps), before, a, b, after);
    BatchNextLines(ps, before + [a, b] + after, x);
    BatchNextLines(ps, before + [b, a] + after, x);
  }

  lemma SameApplied(d: Draft, before: seq<Command>, a: Command, b: Command, after: seq<Command>)
    requires Independent(a, b, |d.cells|)
    requires forall c :: c in before + [a, b] + after || c in before + [b, a] + after ==> Defined(c, |d.cells|)
    ensures var x := Ones(|before|) + "11" + Ones(|after|);
      ApplyAll(d, before + [a, b] + after, x) == ApplyAll(d, before + [b, a] + after, x)
  {
    hide Defined, ApplyAll, Apply, Independent;
    assert forall c :: c in before || c in [a, b] || c in [b, a] || c in after ==> c in before + [a, b] + after;
    assert a in [a, b] && b in [a, b];
    var e := ApplyAll(d, before, Ones(|before|));
    ApplyAllConcat(d, before + [a, b], after, Ones(|before|) + "11", Ones(|after|));
    ApplyAllConcat(d, before + [b, a], after, Ones(|before|) + "11", Ones(|after|));
    ApplyAllConcat(d, before, [a, b], Ones(|before|), "11");
    ApplyAllConcat(d, before, [b, a], Ones(|before|), "11");
    PairApplied(e, a, b, '1');
    PairApplied(e, b, a, '1');
    IndependentCommute(e, a, b, '1', '1');
  }

  // ---------- the number found in a clean document ----------

  /** Where line i stands among the chunks: behind the newline chunk that ends the lines above. */
  lemma {:induction false} LayoutAt(ls: seq<string>, i: nat) returns (tail: seq<Piece>)
    requires 0 < i < |ls|
    ensures Layout(ls) == Layout(ls[..i]) + [NEWLINE] + LinePiece(ls[i]) + tail
    ensures tail == [] || tail[0] == NEWLINE
  {
    hide Layout, LinePiece;
    var a := Init(ls);
    LayoutLast(ls);
    if i == |ls| - 1 {
      assert ls[..i] == a;
      tail := [];
      ConcatNil(Layout(ls));
    } else {
      var t := LayoutAt(a, i);
      assert a[..i] == ls[..i];
      tail := t + [NEWLINE] + LinePiece(Last(ls));
      MoreBehind(Layout(ls[..i]) + [NEWLINE] + LinePiece(ls[i]), t, [NEWLINE], LinePiece(Last(ls)));
    }
  }

  lemma LayoutLast(ls: seq<string>)
    requires |ls| > 1
    ensures Layout(ls) == Layout(Init(ls)) + [NEWLINE] + LinePiece(Last(ls))
  {
  }

  lemma MoreBehind<T>(a: seq<T>, t: seq<T>, n: seq<T>, p: seq<T>)
    ensures (a + t) + n + p == a + (t + n + p)
  {
  }

  lemma LayoutSize(ls: seq<string>)
    requires ls != []
    ensures Size([SENTINEL] + Layout(ls)) == |Unlines(ls)|
  {
    AbsLayout(ls);
    AbsSize(Layout(ls));
    SizeConcat([SENTINEL], Layout(ls));
    SizeOne(SENTINEL);
  }

  /** The place of a position in line i of a clean document. */
  function PositionIn(ls: seq<string>, i: nat, off: nat): nat
    requires i < |ls|
  {
    (if i == 0 then 0 else |Unlines(ls[..i])| + 1) + off
  }

  /** ORDERED_LIST in a line of a list, except the first line of the document, finds the number after the one that
      the line starts with, unless that is 9; anywhere else it takes 1. */
  lemma NumberFound(ls: seq<string>, i: nat, off: nat)
    requires i < |ls| && off <= |ls[i]|
    ensures PositionIn(ls, i, off) <= Size(Canon(ls))
    ensures var digit := ItemDigit(Canon(ls), PositionIn(ls, i, off));
      if i > 0 && Listed(ls, i, i + 1) && ls[i][0] != '9' then digit as int == ls[i][0] as int + 1 else digit == '1'
  {
    hide Canon, Size, ItemDigit, Listed, Unlines, ListNumber;
    if i == 0 {
      FirstLineNumber(ls, off);
    } else {
      LineNumber(ls, i, off);
      ListedItems(ls, i, i + 1);
      ItemInWords(ls[i]);
    }
  }

  lemma FirstLineNumber(ls: seq<string>, off: nat)
    requires ls != [] && off <= |ls[0]|
    ensures off <= Size(Canon(ls)) && ItemDigit(Canon(ls), off) == '1'
  {
    hide Size, Unlines, Seek;
    var ps := Canon(ls);
    var tail := FirstLayout(ls);
    assert ps == [SENTINEL] + LinePiece(ls[0]) + (tail + [SENTINEL]);
    if off > 0 {
      assert ps[1] == Settled(ls[0]);
      SizeSnoc(ps, 0);
      SizeSnoc(ps, 1);
      assert Size(ps[..0]) == 0 by { SizeNil(); }
      SizeMonotone(ps, 2, |ps|);
      assert ps[..|ps|] == ps;
      LocateUnique(ps, off, 1);
    }
  }

  lemma FirstLayout(ls: seq<string>) returns (tail: seq<Piece>)
    requires ls != []
    ensures Layout(ls) == LinePiece(ls[0]) + tail
  {
    hide Layout, LinePiece;
    LayoutOne(ls[0]);
    if |ls| == 1 {
      assert ls == [ls[0]];
      tail := [];
      ConcatNil(LinePiece(ls[0]));
    } else {
      var t := LayoutAt(ls, 1);
      assert ls[..1] == [ls[0]];
      tail := [NEWLINE] + LinePiece(ls[1]) + t;
      assert LinePiece(ls[0]) + [NEWLINE] + LinePiece(ls[1]) + t == LinePiece(ls[0]) + tail;
    }
  }

  lemma LayoutOne(line: string)
    ensures Layout([line]) == LinePiece(line)
  {
    ConcatNil(LinePiece(line));
  }

  lemma LineNumber(ls: seq<string>, i: nat, off: nat)
    requires 0 < i < |ls| && off <= |ls[i]|
    ensures PositionIn(ls, i, off) <= Size(Canon(ls))
    ensures var digit := ItemDigit(Canon(ls), PositionIn(ls, i, off));
      if IsItem(ls[i]) && ls[i][0] != '9' then digit as int == ls[i][0] as int + 1 else digit == '1'
  {
    hide Size, Unlines, Layout, Seek, IsItem, ItemDigit, Canon, WellFormed, Locate, Digit;
    var k := LineChunk(ls, i);
    var pos := PositionIn(ls, i, off);
    LayoutSize(ls[..i]);
    CursorNear(Canon(ls), k, pos, off);
    DigitFound(Canon(ls), k, pos);
    NotAnItem();
    if IsItem(ls[i]) {
      NextDigit(ls[i]);
    }
  }

  /** The newline chunk before a line and the chunk behind it: the line's, or what follows an empty line. */
  lemma LineChunk(ls: seq<string>, i: nat) returns (k: nat)
    requires 0 < i < |ls|
    ensures var ps := Canon(ls);
      && 0 < k < |ps| - 1 && ps[..k] == [SENTINEL] + Layout(ls[..i]) && ps[k] == NEWLINE
      && !ps[k + 1].tbi && (k + 1 == |ps| - 1 || ps[k + 1].text != "")
      && (if ls[i] != "" then ps[k + 1].text == ls[i] && !ps[k + 1].newline else ps[k + 1].text in ["\n", ""])
  {
    hide Layout;
    var tail := LayoutAt(ls, i);
    var head, rest := [SENTINEL] + Layout(ls[..i]), LinePiece(ls[i]) + (tail + [SENTINEL]);
    k := |head|;
    assert Canon(ls) == head + ([NEWLINE] + rest);
    assert rest[0] == if ls[i] != "" then Settled(ls[i]) else (tail + [SENTINEL])[0];
    TwoBehind(head, NEWLINE, rest);
  }

  lemma TwoBehind<T>(head: seq<T>, n: T, rest: seq<T>)
    requires rest != []
    ensures var s := head + ([n] + rest);
      |s| == |head| + 1 + |rest| && s[..|head|] == head && s[|head|] == n && s[|head| + 1] == rest[0]
  {
  }

  lemma CursorNear(ps: seq<Piece>, k: nat, pos: nat, off: nat)
    requires WellFormed(ps) && 0 < k < |ps| - 1 && ps[k] == NEWLINE && !ps[k + 1].tbi
    requires pos == Size(ps[..k]) + 1 + off && off <= |ps[k + 1].text|
    ensures pos <= Size(ps) && (Locate(ps, pos) == k || Locate(ps, pos) == k + 1)
    ensures Locate(ps, pos) == k + 1 ==> off > 0
  {
    hide Size, Seek;
    assert ps[..|ps|] == ps;
    SizeSnoc(ps, k);
    SizeMonotone(ps, k + 1, |ps|);
    if off > 0 {
      SizeSnoc(ps, k + 1);
      SizeMonotone(ps, k + 2, |ps|);
      LocateUnique(ps, pos, k + 1);
    } else {
      LocateUnique(ps, pos, k);
    }
  }

  /** The scan from the text behind a newline, or from the newline itself. */
  lemma DigitFound(ps: seq<Piece>, k: nat, pos: nat)
    requires WellFormed(ps) && 0 < k < |ps| - 1 && ps[k] == NEWLINE
    requires !ps[k + 1].tbi && (k + 1 == |ps| - 1 || ps[k + 1].text != "")
    requires pos <= Size(ps) && (Locate(ps, pos) == k || (Locate(ps, pos) == k + 1 && !ps[k + 1].newline))
    ensures var line, digit := ps[k + 1].text, ItemDigit(ps, pos);
      && (!IsItem(line) ==> digit == '1')
      && (IsItem(line) && 2 <= line[0] as int - '0' as int + 1 <= 9 ==> digit == Digit(line[0] as int - '0' as int + 1))
      && (IsItem(line) && line[0] as int - '0' as int + 1 > 9 ==> digit == '1')
  {
    hide Size, Locate, IsItem, Digit, WellFormed;
    assert NewlineBehind(ps, Locate(ps, pos)) == k;
    assert CommittedFrom(ps, k + 1) == k + 1;
    SentinelNoItem(ps);
  }

  lemma SentinelNoItem(ps: seq<Piece>)
    requires WellFormed(ps)
    ensures !IsItem(ps[|ps| - 1].text)
  {
  }

  lemma NextDigit(line: string)
    requires IsItem(line)
    ensures 2 <= line[0] as int - '0' as int + 1 <= 10
    ensures line[0] == '9' <==> line[0] as int - '0' as int + 1 > 9
    ensures line[0] != '9' ==> Digit(line[0] as int - '0' as int + 1) as int == line[0] as int + 1
  {
  }

  lemma NotAnItem()
    ensures !IsItem("\n") && !IsItem("")
  {
  }

  // ---------- what the scan does not look at ----------

  /** A chunk the scan passes over: a pending one, or one without text. */
  predicate Unseen(p: Piece) {
    (p.tbi || p.text == "") && !p.head
  }

  function Removed(ps: seq<Piece>, x: nat): seq<Piece>
    requires x < |ps|
  {
    ps[..x] + ps[x + 1..]
  }

  /** The place of chunk i once chunk x is removed. */
  function Shifted(i: nat, x: nat): nat
    requires i != x
  {
    if i < x then i else i - 1
  }

  lemma RemovedAt(ps: seq<Piece>, x: nat, i: nat)
    requires x < |ps| && i < |ps| && i != x
    ensures Shifted(i, x) < |Removed(ps, x)| && Removed(ps, x)[Shifted(i, x)] == ps[i]
  {
  }

  lemma {:induction false} BehindUnseen(ps: seq<Piece>, x: nat, i: nat)
    requires 0 < x < |ps| && i < |ps| && i != x && (ps[x].newline ==> ps[x].tbi)
    ensures NewlineBehind(ps, i) != x
    ensures Shifted(i, x) < |Removed(ps, x)|
    ensures NewlineBehind(Removed(ps, x), Shifted(i, x)) == Shifted(NewlineBehind(ps, i), x)
  {
    hide Removed;
    RemovedAt(ps, x, i);
    if i > 0 && (!ps[i].newline || ps[i].tbi) {
      if i - 1 == x {
        BehindUnseen(ps, x, i - 2);
      } else {
        BehindUnseen(ps, x, i - 1);
      }
    }
  }

  lemma {:induction false} FromUnseen(ps: seq<Piece>, x: nat, k: nat)
    requires x < |ps| - 1 && k < |ps| && Unseen(ps[x])
    ensures CommittedFrom(ps, k) != x && |Removed(ps, x)| == |ps| - 1
    ensures (if k <= x then k else k - 1) < |Removed(ps, x)|
    ensures CommittedFrom(Removed(ps, x), if k <= x then k else k - 1) == Shifted(CommittedFrom(ps, k), x)
    decreases |ps| - k
  {
    hide Removed;
    RemovedSize(ps, x);
    if k != x {
      RemovedAt(ps, x, k);
    }
    if k < |ps| - 1 && (ps[k].tbi || ps[k].text == "") {
      FromUnseen(ps, x, k + 1);
    }
  }

  lemma RemovedSize(ps: seq<Piece>, x: nat)
    requires x < |ps|
    ensures |Removed(ps, x)| == |ps| - 1
  {
  }

  lemma RemovedWellFormed(ps: seq<Piece>, x: nat)
    requires WellFormed(ps) && 0 < x < |ps| - 1
    ensures WellFormed(Removed(ps, x))
  {
    RemovedIndices(ps, x);
  }

  lemma RemovedIndices(ps: seq<Piece>, x: nat)
    requires x < |ps|
    ensures forall i :: 0 <= i < |Removed(ps, x)| ==>
      Removed(ps, x)[i] == ps[if i < x then i else i + 1]
  {
  }

  /** Pending chunks, line breaks among them, and empty ones make no difference to the number found: it is the same
      without any of them. */
  lemma PendingUnseen(ps: seq<Piece>, x: nat, i: nat)
    requires WellFormed(ps) && 0 < x < |ps| - 1 && i < |ps| - 1 && i != x && Unseen(ps[x])
    ensures WellFormed(Removed(ps, x)) && Shifted(i, x) < |Removed(ps, x)| - 1
    ensures ListNumber(Removed(ps, x), Shifted(i, x)) == ListNumber(ps, i)
  {
    hide Removed, IsItem, NewlineBehind, CommittedFrom;
    RemovedWellFormed(ps, x);
    RemovedSize(ps, x);
    BehindUnseen(ps, x, i);
    var k := NewlineBehind(ps, i);
    FromUnseen(ps, x, k + 1);
    RemovedAt(ps, x, CommittedFrom(ps, k + 1));
  }

  // ---------- a number that shows ----------

  const ITEM := ["", "1. b"]

  /** On the text of ITEM two batches put an item marker behind the newline and a letter in front of the marker;
      an insertion into the old item beforehand, elsewhere in the document, changes the marker's number. */
  lemma NumberShows()
    ensures var ps := Canon(ITEM);
      var a := [Command.OrderedList(1), Command.Insert(1, "x")];
      var b := [Command.Insert(2, "y"), Command.OrderedList(1), Command.Insert(1, "x")];
      && WellFormed(ps) && Size(ps) == 5
      && Commit(ExecAll(ps, a)) == Canon(["", "x2. 1. b"])
      && Commit(ExecAll(ps, b)) == Canon(["", "x1. 1y. b"])
  {
    hide Abs, Size, ExecAll, Canon, WellFormed, Commit, Exec, Hint, ApplyAll, Renumber, Split, Draft.Merge, Chars,
      Clean;
    var ps := Canon(ITEM);
    ItemChunks();
    ItemHints();
    var a := [Command.OrderedList(1), Command.Insert(1, "x")];
    var b := [Command.Insert(2, "y"), Command.OrderedList(1), Command.Insert(1, "x")];
    assert forall c :: c in a || c in b ==> Defined(c, 5);
    AbsCanon(ITEM);
    BatchCommit(ps, a);
    BatchCommit(ps, b);
    FirstNextLines();
    SecondNextLines();
  }

  lemma ItemChunks()
    ensures Canon(ITEM) == [SENTINEL, NEWLINE, Settled("1. b"), SENTINEL]
    ensures Size(Canon(ITEM)) == 5
    ensures Unlines(ITEM) == [Brk] + Chars("1. b")
  {
    ItemLayout();
    CanonSize5();
    assert Init(ITEM) == [""];
    assert Chars("") == [];
  }

  lemma ItemLayout()
    ensures Layout(ITEM) == [NEWLINE, Settled("1. b")]
  {
    assert Init(ITEM) == [""];
    assert Layout([""]) == [];
  }

  lemma CanonSize5()
    ensures Size([SENTINEL, NEWLINE, Settled("1. b"), SENTINEL]) == 5
  {
    var ps := [SENTINEL, NEWLINE, Settled("1. b"), SENTINEL];
    SizeSnoc(ps, 0);
    SizeSnoc(ps, 1);
    SizeSnoc(ps, 2);
    SizeSnoc(ps, 3);
    assert ps[..4] == ps;
  }

  lemma ItemHints()
    ensures var ps := Canon(ITEM);
      var a := [Command.OrderedList(1), Command.Insert(1, "x")];
      var b := [Command.Insert(2, "y"), Command.OrderedList(1), Command.Insert(1, "x")];
      && WellFormed(ps) && Size(ps) == 5
      && Hints(ps, a) == "21" && Hints(ps, b) == "111"
  {
    hide Canon, WellFormed, Exec, ItemDigit, Size;
    var ps := Canon(ITEM);
    ItemChunks();
    var a := [Command.OrderedList(1), Command.Insert(1, "x")];
    assert Init(a) == [Command.OrderedList(1)] && Init(Init(a)) == [];
    WholeItem();
    assert Hints(ps, [Command.OrderedList(1)]) == [] + ['2'];
    assert Hints(ps, a) == ['2'] + ['1'];
    var b := [Command.Insert(2, "y"), Command.OrderedList(1), Command.Insert(1, "x")];
    assert Init(b) == [Command.Insert(2, "y"), Command.OrderedList(1)];
    assert Init(Init(b)) == [Command.Insert(2, "y")] && Init(Init(Init(b))) == [];
    SplitItem();
    assert Hints(ps, [Command.Insert(2, "y")]) == [] + ['1'];
    assert Hints(ps, Init(b)) == ['1'] + ['1'];
  }

  lemma WholeItem()
    ensures Size(Canon(ITEM)) == 5 && ItemDigit(Canon(ITEM), 1) == '2'
  {
    hide Canon, Size, Seek;
    var ps := Canon(ITEM);
    ItemChunks();
    SizeSnoc(ps, 0);
    SizeSnoc(ps, 1);
    assert Size(ps[..0]) == 0 by { SizeNil(); }
    LocateUnique(ps, 1, 1);
    assert CommittedFrom(ps, 2) == 2;
  }

  lemma SizeNil()
    ensures Size([]) == 0
  {
  }

  lemma SplitItem()
    ensures Size(Canon(ITEM)) == 5
    ensures var qs := ExecAll(Canon(ITEM), [Command.Insert(2, "y")]);
      Size(qs) == 5 && ItemDigit(qs, 1) == '1'
  {
    hide Canon, Size, Seek, Exec, WellFormed;
    var ps := Canon(ITEM);
    ItemChunks();
    assert Init([Command.Insert(2, "y")]) == [];
    assert ExecAll(ps, [Command.Insert(2, "y")]) == Exec(ps, Command.Insert(2, "y")).0;
    InsertedY();
    var qs := Exec(ps, Command.Insert(2, "y")).0;
    SizeSnoc(qs, 0);
    SizeSnoc(qs, 1);
    assert Size(qs[..0]) == 0 by { SizeNil(); }
    LocateUnique(qs, 1, 1);
    assert CommittedFrom(qs, 2) == 2;
  }

  lemma InsertedY()
    ensures Size(Canon(ITEM)) == 5
    ensures Exec(Canon(ITEM), Command.Insert(2, "y")).0
         == [SENTINEL, NEWLINE, Settled("1"), Fresh("y"), Settled(". b"), SENTINEL]
  {
    hide Canon, Size, Seek;
    var ps := Canon(ITEM);
    ItemChunks();
    SizeSnoc(ps, 0);
    SizeSnoc(ps, 1);
    SizeSnoc(ps, 2);
    assert Size(ps[..0]) == 0 by { SizeNil(); }
    LocateUnique(ps, 2, 2);
    assert Offset(ps, 2) == 1;
    assert "1. b"[..1] == "1" && "1. b"[1..] == ". b";
    assert Cut(ps, 2, 1) == [SENTINEL, NEWLINE, Settled("1"), Settled(". b"), SENTINEL];
  }

  lemma FirstNextLines()
    ensures NextLines(Clean(Unlines(ITEM)), [Command.OrderedList(1), Command.Insert(1, "x")], "21") == ["", "x2. 1. b"]
  {
    hide *;
    ItemText();
    var d := Clean(Unlines(ITEM));
    FirstApplied(d);
    ItemInserted(d, '2');
    InsertedMerge(Unlines(ITEM), 1, Chars("x2. "));
    FirstText();
    SecondLine("x2. 1. b");
    NextLinesAre(d, [Command.OrderedList(1), Command.Insert(1, "x")], "21");
  }

  lemma NextLinesAre(d: Draft, cmds: seq<Command>, digits: string)
    requires |digits| == |cmds| && forall c :: c in cmds ==> Defined(c, |d.cells|)
    ensures NextLines(d, cmds, digits) == Renumber(Split(ApplyAll(d, cmds, digits).Merge()))
  {
  }

  lemma ItemText()
    ensures ITEM != []
    ensures Unlines(ITEM) == [Brk] + Chars("1. b") && |Unlines(ITEM)| == 5
    ensures |Clean(Unlines(ITEM)).cells| == 5 && Clean(Unlines(ITEM)).cells[0].glyph == Brk
    ensures forall cmd :: cmd in [Command.OrderedList(1), Command.Insert(1, "x"), Command.Insert(2, "y")] ==>
      Defined(cmd, 5)
  {
    hide Canon, Size;
    ItemChunks();
  }

  lemma FirstText()
    ensures |Unlines(ITEM)| == 5
    ensures Unlines(ITEM)[..1] + Chars("x2. ") + Unlines(ITEM)[1..] == [Brk] + Chars("x2. 1. b")
  {
    hide Unlines;
    ItemText();
  }

  lemma SecondText()
    ensures |Unlines(ITEM)| == 5
    ensures var gs := Unlines(ITEM);
      gs[..1] + Chars("x1. ") + gs[1..2] + Chars("y") + gs[2..] == [Brk] + Chars("x1. 1y. b")
  {
    hide Unlines;
    ItemText();
  }

  lemma FirstApplied(d: Draft)
    requires |d.cells| == 5
    ensures ApplyAll(d, [Command.OrderedList(1), Command.Insert(1, "x")], "21")
         == Apply(Apply(d, Command.OrderedList(1), '2').0, Command.Insert(1, "x"), '1').0
  {
    hide Apply;
    var a := [Command.OrderedList(1), Command.Insert(1, "x")];
    assert Init(a) == [Command.OrderedList(1)] && Init(Init(a)) == [];
    assert Init("21") == "2" && Init("2") == "";
    assert ApplyAll(d, Init(a), "2") == Apply(d, Command.OrderedList(1), '2').0;
  }

  lemma SecondApplied(d: Draft)
    requires |d.cells| == 5
    ensures ApplyAll(d, [Command.Insert(2, "y"), Command.OrderedList(1), Command.Insert(1, "x")], "111")
         == Apply(Apply(d.Insert(2, Chars("y")), Command.OrderedList(1), '1').0, Command.Insert(1, "x"), '1').0
  {
    hide Draft.Insert, DraftBlock;
    var b := [Command.Insert(2, "y"), Command.OrderedList(1), Command.Insert(1, "x")];
    assert Init(b) == [Command.Insert(2, "y"), Command.OrderedList(1)];
    assert Init(Init(b)) == [Command.Insert(2, "y")] && Init(Init(Init(b))) == [];
    assert Init("111") == "11" && Init("11") == "1" && Init("1") == "";
    assert ApplyAll(d, Init(Init(b)), "1") == d.Insert(2, Chars("y"));
    assert ApplyAll(d, Init(b), "11") == Apply(d.Insert(2, Chars("y")), Command.OrderedList(1), '1').0;
  }

  lemma ItemInserted(d: Draft, digit: char)
    requires |d.cells| == 5 && d.cells[0].glyph == Brk
    ensures var e := Apply(d, Command.OrderedList(1), digit).0;
      Apply(e, Command.Insert(1, "x"), '1').0 == d.Insert(1, Chars(['x', digit, '.', ' ']))
  {
    hide Draft.Insert;
    ConcatNil(Chars(ItemMarker(digit)));
    InsertBase(d, 1, Chars(ItemMarker(digit)));
    InsertTwice(d, 1, Chars(ItemMarker(digit)), Chars("x"));
    CharsConcat("x", ItemMarker(digit));
    assert "x" + ItemMarker(digit) == ['x', digit, '.', ' '];
  }

  lemma CharsConcat(a: string, b: string)
    ensures Chars(a) + Chars(b) == Chars(a + b)
  {
  }

  lemma SecondLine(s: string)
    requires s != "" && s[0] == 'x'
    ensures Renumber(Split([Brk] + Chars(s))) == ["", s]
  {
    hide Split;
    SplitEmpty();
    SplitBreak([]);
    assert [] + [Brk] == [Brk];
    SplitChars([Brk], s);
    assert "" + s == s;
    assert Init([""] + [""]) + [s] == ["", s];
  }

  lemma SecondNextLines()
    ensures NextLines(Clean(Unlines(ITEM)),
                    [Command.Insert(2, "y"), Command.OrderedList(1), Command.Insert(1, "x")], "111")
         == ["", "x1. 1y. b"]
  {
    hide *;
    ItemText();
    var d := Clean(Unlines(ITEM));
    SecondApplied(d);
    InsertBase(d, 2, Chars("y"));
    ItemInserted(d.Insert(2, Chars("y")), '1');
    InsertsCommute(d, 2, 1, Chars("y"), Chars("x1. "));
    TwiceMerge(Unlines(ITEM), 1, 2, Chars("x1. "), Chars("y"));
    SecondText();
    SecondLine("x1. 1y. b");
    NextLinesAre(d, [Command.Insert(2, "y"), Command.OrderedList(1), Command.Insert(1, "x")], "111");
  }
}
