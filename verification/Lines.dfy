/** The committed text of a clean document as a list of lines, the chunk list that holds it, and the
    renumbering of ordered lists (list_cleanup in source/document.c). */
module Lines {
  import opened Seqs
  import opened Pieces

  /** The text between the line breaks; there is always a last line, possibly empty. */
  function Split(gs: seq<Glyph>): (ls: seq<string>)
    ensures ls != []
  {
    if gs == [] then [""] else Extend(Split(Init(gs)), Last(gs))
  }

  /** One more character: it goes to the last line, or starts a new one. */
  function Extend(ls: seq<string>, g: Glyph): (ms: seq<string>)
    requires ls != []
    ensures ms != []
  {
    match g
    case Brk => ls + [""]
    case Ch(c) => Init(ls) + [Last(ls) + [c]]
  }

  /** The last line of ls goes on as the first line of ms. */
  function Glue(ls: seq<string>, ms: seq<string>): (all: seq<string>)
    requires ls != [] && ms != []
    ensures all != []
  {
    Init(ls) + [Last(ls) + ms[0]] + ms[1..]
  }

  function Unlines(ls: seq<string>): seq<Glyph>
    requires ls != []
  {
    (if |ls| == 1 then [] else Unlines(Init(ls)) + [Brk]) + Chars(Last(ls))
  }

  const NEWLINE := Piece("\n", false, false, true, false)

  function Settled(line: string): Piece {
    Piece(line, false, false, false, false)
  }

  function LinePiece(line: string): seq<Piece> {
    if line == "" then [] else [Settled(line)]
  }

  /** One chunk for each nonempty line and one for each line break. */
  function Layout(ls: seq<string>): seq<Piece>
    requires ls != []
  {
    (if |ls| == 1 then [] else Layout(Init(ls)) + [NEWLINE]) + LinePiece(Last(ls))
  }

  /** The chunk list of a document without pending edits. */
  function Canon(ls: seq<string>): (ps: seq<Piece>)
    requires ls != []
    ensures WellFormed(ps)
  {
    CanonWellFormed(ls);
    [SENTINEL] + Layout(ls) + [SENTINEL]
  }

  lemma {:induction false} LayoutShape(ls: seq<string>)
    requires ls != []
    ensures forall k :: 0 <= k < |Layout(ls)| ==>
      Layout(ls)[k] == NEWLINE || (Layout(ls)[k].text != "" && Layout(ls)[k] == Settled(Layout(ls)[k].text))
    ensures forall k :: 0 < k < |Layout(ls)| ==> Layout(ls)[k - 1].newline || Layout(ls)[k].newline
    ensures Last(ls) == "" && |ls| > 1 ==> Layout(ls) != [] && Last(Layout(ls)) == NEWLINE
  {
    if |ls| > 1 {
      LayoutShape(Init(ls));
    }
  }

  lemma CanonWellFormed(ls: seq<string>)
    requires ls != []
    ensures WellFormed([SENTINEL] + Layout(ls) + [SENTINEL])
  {
    hide Layout;
    LayoutShape(ls);
    var ps := [SENTINEL] + Layout(ls) + [SENTINEL];
    forall k | 0 < k < |ps| - 1
      ensures !ps[k].head && !ps[k].tbi && (ps[k].newline ==> ps[k].text == "\n")
    {
      assert ps[k] == Layout(ls)[k - 1];
    }
  }

  /** An ordered-list item: a digit 1 to 9, a full stop and a space. */
  predicate IsItem(line: string) {
    |line| >= 3 && '1' <= line[0] <= '9' && line[1] == '.' && line[2] == ' '
  }

  /** The byte `num + '0'` stored in one character. */
  function Digit(num: nat): char {
    ((num + 48) % 256) as char
  }

  function Numbered(line: string, num: nat): string {
    if IsItem(line) then [Digit(num)] + line[1..] else line
  }

  /** How many item lines end the list without interruption. */
  function Trail(ls: seq<string>): nat {
    if ls == [] || !IsItem(Last(ls)) then 0 else 1 + Trail(Init(ls))
  }

  /** Every item line gets 1 + the number of item lines just above it. */
  function Renumber(ls: seq<string>): (rs: seq<string>)
    ensures |rs| == |ls|
  {
    seq(|ls|, i requires 0 <= i < |ls| => Numbered(ls[i], 1 + Trail(ls[..i])))
  }

  lemma RenumberSnoc(ls: seq<string>, l: string)
    ensures Renumber(ls + [l]) == Renumber(ls) + [Numbered(l, 1 + Trail(ls))]
  {
    hide Trail, Numbered;
    assert (ls + [l])[..|ls|] == ls;
    assert forall i :: 0 <= i < |ls| ==> (ls + [l])[..i] == ls[..i];
  }

  /** The lines from..to begin each with a digit from 1 to 9, a full stop and a space. */
  ghost predicate Listed(ls: seq<string>, from: int, to: int) {
    0 <= from <= to <= |ls|
    && forall j :: from <= j < to ==> |ls[j]| >= 3 && ls[j][0] in "123456789" && ls[j][1..3] == ". "
  }

  lemma ListedItems(ls: seq<string>, from: nat, to: nat)
    requires from <= to <= |ls|
    ensures Listed(ls, from, to) <==> forall j :: from <= j < to ==> IsItem(ls[j])
  {
    forall j | from <= j < to
      ensures IsItem(ls[j]) <==> |ls[j]| >= 3 && ls[j][0] in "123456789" && ls[j][1..3] == ". "
    {
      ItemInWords(ls[j]);
    }
  }

  lemma ItemInWords(line: string)
    ensures IsItem(line) <==> |line| >= 3 && line[0] in "123456789" && line[1..3] == ". "
  {
    if |line| >= 3 {
      assert line[1..3] == [line[1], line[2]];
      assert "123456789" == ['1', '2', '3', '4', '5', '6', '7', '8', '9'];
    }
  }

  /** The line below exactly n lines of a list, whether the list starts with the document, with a blank line or with
      any other text, gets number n + 1, which takes one character, and otherwise stays as it is. */
  lemma ListNumbering(ls: seq<string>, i: nat, n: nat)
    requires n <= i < |ls| && Listed(ls, i - n, i + 1) && !Listed(ls, i - n - 1, i + 1)
    ensures |Renumber(ls)[i]| == |ls[i]| && Renumber(ls)[i][1..] == ls[i][1..]
    ensures Renumber(ls)[i][0] as int == ('0' as int + n + 1) % 256
    ensures n < 9 ==> Renumber(ls)[i][0] == "123456789"[n]
  {
    hide IsItem, Listed, Numbered, Trail;
    ListedItems(ls, i - n, i + 1);
    if n < i {
      ListedItems(ls, i - n - 1, i + 1);
    }
    TrailCounts(ls, i, n);
    NumberedChars(ls[i], n + 1);
  }

  lemma NumberedChars(line: string, num: nat)
    requires IsItem(line) && num > 0
    ensures |Numbered(line, num)| == |line| && Numbered(line, num)[1..] == line[1..]
    ensures Numbered(line, num)[0] as int == ('0' as int + num) % 256
    ensures num <= 9 ==> Numbered(line, num)[0] == "123456789"[num - 1]
  {
    assert "123456789" == ['1', '2', '3', '4', '5', '6', '7', '8', '9'];
  }

  /** Every line that is not of that form stays as it is. */
  lemma OthersStay(ls: seq<string>, i: nat)
    requires i < |ls| && !Listed(ls, i, i + 1)
    ensures Renumber(ls)[i] == ls[i]
  {
    ListedItems(ls, i, i + 1);
  }

  lemma {:induction false} TrailCounts(ls: seq<string>, i: nat, n: nat)
    requires n <= i <= |ls|
    requires forall j :: i - n <= j < i ==> IsItem(ls[j])
    requires n == i || !IsItem(ls[i - n - 1])
    ensures Trail(ls[..i]) == n
  {
    if i > 0 {
      assert Init(ls[..i]) == ls[..i - 1];
      if n > 0 {
        TrailCounts(ls, i - 1, n - 1);
      }
    }
  }

  /** How far a list reaches back. */
  lemma {:induction false} TrailReaches(ls: seq<string>, i: nat, n: nat)
    requires n <= i <= |ls|
    ensures Trail(ls[..i]) >= n <==> forall j :: i - n <= j < i ==> IsItem(ls[j])
  {
    if n > 0 {
      assert Init(ls[..i]) == ls[..i - 1];
      TrailReaches(ls, i - 1, n - 1);
    }
  }

  /** Renumbering depends on the lines above only. */
  lemma RenumberPrefix(ls: seq<string>, n: nat)
    requires n <= |ls|
    ensures Renumber(ls[..n]) == Renumber(ls)[..n]
  {
    assert forall i :: 0 <= i < n ==> ls[..n][..i] == ls[..i];
  }

  /** Only the first character of a line of a list changes. */
  lemma RenumberKeeps(ls: seq<string>, i: nat)
    requires i < |ls|
    ensures |Renumber(ls)[i]| == |ls[i]|
    ensures forall k :: 0 <= k < |ls[i]| && Renumber(ls)[i][k] != ls[i][k] ==> k == 0 && Listed(ls, i, i + 1)
  {
    ListedItems(ls, i, i + 1);
  }

  /** Renumbering twice is renumbering once, however long the runs of items are: a number beyond 9 is
      stored as another character, and the line it starts is no item any more. */
  lemma RenumberIdempotent(ls: seq<string>)
    ensures Renumber(Renumber(ls)) == Renumber(ls)
  {
    hide Trail, Numbered;
    forall i | 0 <= i < |ls|
      ensures Renumber(Renumber(ls))[i] == Renumber(ls)[i]
    {
      TrailAgain(ls, i);
      NumberedAgain(ls[i], 1 + Trail(ls[..i]), 1 + Trail(Renumber(ls)[..i]));
    }
  }

  lemma NumberedAgain(line: string, k: nat, j: nat)
    requires 1 <= k % 256 <= 9 ==> j % 256 == k % 256
    ensures Numbered(Numbered(line, k), j) == Numbered(line, k)
  {
    hide Digit;
    DigitRange(k);
    if k % 256 == j % 256 {
      SameDigit(k, j);
    }
  }

  lemma SameDigit(k: nat, j: nat)
    requires k % 256 == j % 256
    ensures Digit(k) == Digit(j)
  {
    assert (k + 48) % 256 == (k % 256 + 48) % 256;
    assert (j + 48) % 256 == (j % 256 + 48) % 256;
  }

  lemma {:induction false} TrailAgain(ls: seq<string>, n: nat)
    requires n <= |ls|
    ensures var k, j := 1 + Trail(ls[..n]), 1 + Trail(Renumber(ls)[..n]);
      1 <= k % 256 <= 9 ==> j % 256 == k % 256
  {
    hide Numbered, IsItem, Trail;
    if n == 0 {
      assert ls[..0] == [] && Renumber(ls)[..0] == [];
      TrailNil();
    } else {
      TrailAgain(ls, n - 1);
      TrailSnoc(ls, n - 1);
      TrailSnoc(Renumber(ls), n - 1);
      NumberedItem(ls[n - 1], 1 + Trail(ls[..n - 1]));
      ModNext(1 + Trail(ls[..n - 1]));
      ModNext(1 + Trail(Renumber(ls)[..n - 1]));
    }
  }

  lemma TrailNil()
    ensures Trail([]) == 0
  {
  }

  lemma TrailSnoc(ls: seq<string>, n: nat)
    requires n < |ls|
    ensures Trail(ls[..n + 1]) == if IsItem(ls[n]) then 1 + Trail(ls[..n]) else 0
  {
    assert Init(ls[..n + 1]) == ls[..n];
  }

  lemma NumberedItem(line: string, k: nat)
    ensures IsItem(Numbered(line, k)) <==> IsItem(line) && 1 <= k % 256 <= 9
  {
    DigitRange(k);
  }

  lemma DigitRange(k: nat)
    ensures '1' <= Digit(k) <= '9' <==> 1 <= k % 256 <= 9
    ensures Digit(k) == '\n' <==> k % 256 == 218
    ensures Digit(k) == '\0' <==> k % 256 == 208
  {
    DigitCode(k);
    assert Digit(k) as int == if k % 256 < 208 then k % 256 + 48 else k % 256 - 208;
  }

  lemma DigitCode(k: nat)
    ensures (k + 48) % 256 == if k % 256 < 208 then k % 256 + 48 else k % 256 - 208
  {
    var q, r := k / 256, k % 256;
    assert k + 48 == 256 * q + (r + 48);
    assert k + 48 == 256 * (q + 1) + (r - 208);
  }

  lemma ModNext(k: nat)
    ensures (k + 1) % 256 == if k % 256 == 255 then 0 else k % 256 + 1
  {
  }

  lemma {:induction false} SplitChars(gs: seq<Glyph>, s: string)
    ensures Split(gs + Chars(s)) == Init(Split(gs)) + [Last(Split(gs)) + s]
  {
    if s == "" {
      assert gs + Chars(s) == gs;
      assert Last(Split(gs)) + s == Last(Split(gs));
    } else {
      var t := Init(s);
      assert Init(gs + Chars(s)) == gs + Chars(t);
      SplitChars(gs, t);
      assert Last(Split(gs)) + t + [Last(s)] == Last(Split(gs)) + s;
    }
  }

  lemma SplitBreak(gs: seq<Glyph>)
    ensures Split(gs + [Brk]) == Split(gs) + [""]
  {
    assert Init(gs + [Brk]) == gs;
  }

  lemma {:induction false} SplitConcat(a: seq<Glyph>, b: seq<Glyph>)
    ensures Split(a + b) == Glue(Split(a), Split(b))
  {
    hide Extend, Glue;
    if b == [] {
      assert a + b == a;
      GlueNil(Split(a));
    } else {
      assert Init(a + b) == a + Init(b);
      SplitConcat(a, Init(b));
      GlueExtend(Split(a), Split(Init(b)), Last(b));
    }
  }

  lemma GlueNil(ls: seq<string>)
    requires ls != []
    ensures Glue(ls, [""]) == ls
  {
    assert Last(ls) + "" == Last(ls);
  }

  lemma GlueExtend(ls: seq<string>, ms: seq<string>, g: Glyph)
    requires ls != [] && ms != []
    ensures Extend(Glue(ls, ms), g) == Glue(ls, Extend(ms, g))
  {
    if g.Ch? {
      if |ms| == 1 {
        assert Last(ls) + ms[0] + [g.c] == Last(ls) + (ms[0] + [g.c]);
      } else {
        assert Init(Glue(ls, ms)) == Init(ls) + [Last(ls) + ms[0]] + Init(ms)[1..];
      }
    }
  }

  lemma {:induction false} SplitUnlines(ls: seq<string>)
    requires ls != []
    ensures Split(Unlines(ls)) == ls
  {
    hide Split;
    var l := Last(ls);
    assert "" + l == l;
    if |ls| == 1 {
      SplitEmpty();
      SplitChars([], l);
      assert [l] == ls;
    } else {
      var a := Init(ls);
      SplitUnlines(a);
      SplitBreak(Unlines(a));
      SplitChars(Unlines(a) + [Brk], l);
      assert Init(a + [""]) == a;
      assert a + [l] == ls;
    }
  }

  lemma SplitEmpty()
    ensures Split([]) == [""]
  {
  }

  lemma {:induction false} UnlinesSplit(gs: seq<Glyph>)
    ensures Unlines(Split(gs)) == gs
  {
    hide Unlines, Extend;
    if gs == [] {
      assert Unlines([""]) == [] by { UnlinesEmpty(); }
    } else {
      UnlinesSplit(Init(gs));
      UnlinesExtend(Split(Init(gs)), Last(gs));
      assert gs == Init(gs) + [Last(gs)];
    }
  }

  lemma UnlinesEmpty()
    ensures Unlines([""]) == []
  {
  }

  lemma UnlinesExtend(ls: seq<string>, g: Glyph)
    requires ls != []
    ensures Unlines(Extend(ls, g)) == Unlines(ls) + [g]
  {
    assert Init(Extend(ls, g)) == if g.Brk? then ls else Init(ls);
    assert Chars("") == [];
    if g.Ch? {
      assert Chars(Last(ls) + [g.c]) == Chars(Last(ls)) + [g];
    }
  }

  lemma LayoutBreak(ls: seq<string>)
    requires ls != []
    ensures Layout(ls + [""]) == Layout(ls) + [NEWLINE]
  {
    assert Init(ls + [""]) == ls;
  }

  /** Filling in the last, still empty line. */
  lemma LayoutFill(ls: seq<string>, line: string)
    requires ls != [] && Last(ls) == "" && line != ""
    ensures Layout(Init(ls) + [line]) == Layout(ls) + [Settled(line)]
  {
    assert Init(Init(ls) + [line]) == Init(ls);
  }

  /** Lengthening the last line. */
  lemma LayoutGrow(ls: seq<string>, line: string)
    requires ls != [] && Last(ls) != "" && line != ""
    ensures Layout(ls) != []
    ensures Layout(Init(ls) + [line]) == Init(Layout(ls)) + [Settled(line)]
    ensures Last(Layout(ls)) == Settled(Last(ls))
  {
    assert Init(Init(ls) + [line]) == Init(ls);
  }
}
