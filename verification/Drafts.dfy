/** The reference a document is refined against: the committed text, which of its characters are deleted,
    and, for every gap before, between and after them, the pending text, newest first. */
module Drafts {
  import opened Seqs
  import opened Pieces

  /** A committed character, whether it is deleted, and the pending text in the gap behind it. */
  datatype Cell = Cell(glyph: Glyph, dead: bool, after: seq<Glyph>)

  /** `front` is the pending text before the first committed character. */
  datatype Draft = Draft(front: seq<Glyph>, cells: seq<Cell>) {

    function Gap(pos: nat): seq<Glyph>
      requires pos <= |cells|
    {
      if pos == 0 then front else cells[pos - 1].after
    }

    function Insert(pos: nat, gs: seq<Glyph>): Draft
      requires pos <= |cells|
    {
      if pos == 0 then this.(front := gs + front)
      else this.(cells := cells[pos - 1 := cells[pos - 1].(after := gs + cells[pos - 1].after)])
    }

    function Delete(from: nat, to: nat): Draft {
      this.(cells := seq(|cells|, i requires 0 <= i < |cells| =>
        if from <= i < to then cells[i].(dead := true) else cells[i]))
    }

    /** The committed text, pending edits ignored. */
    function Base(): seq<Glyph> {
      seq(|cells|, i requires 0 <= i < |cells| => cells[i].glyph)
    }

    /** The text with every pending edit carried out. */
    function Merge(): seq<Glyph> {
      front + Woven(cells)
    }

    function Append(gs: seq<Glyph>): Draft {
      if cells == [] then this.(front := front + gs)
      else this.(cells := cells[|cells| - 1 := cells[|cells| - 1].(after := cells[|cells| - 1].after + gs)])
    }

    function Join(e: Draft): Draft {
      Draft(Append(e.front).front, Append(e.front).cells + e.cells)
    }
  }

  function Kept(c: Cell): seq<Glyph> {
    (if c.dead then [] else [c.glyph]) + c.after
  }

  function Woven(cs: seq<Cell>): seq<Glyph> {
    if cs == [] then [] else Woven(Init(cs)) + Kept(Last(cs))
  }

  /** A document without pending edits. */
  function Clean(gs: seq<Glyph>): Draft {
    Draft([], Cells(gs, false))
  }

  function Cells(gs: seq<Glyph>, dead: bool): (cs: seq<Cell>)
    ensures |cs| == |gs|
  {
    seq(|gs|, i requires 0 <= i < |gs| => Cell(gs[i], dead, []))
  }

  function One(p: Piece): Draft {
    if p.tbi then Draft(Glyphs(p), []) else Draft([], Cells(Glyphs(p), p.tbd))
  }

  /** The reference document that a chunk list stands for. */
  function Abs(ps: seq<Piece>): Draft {
    if ps == [] then Draft([], []) else Abs(Init(ps)).Join(One(Last(ps)))
  }

  lemma JoinAssoc(a: Draft, b: Draft, c: Draft)
    ensures a.Join(b).Join(c) == a.Join(b.Join(c))
  {
    if b.cells == [] {
      assert (a.front + b.front) + c.front == a.front + (b.front + c.front);
      if a.cells != [] {
        var l := a.cells[|a.cells| - 1].after;
        assert (l + b.front) + c.front == l + (b.front + c.front);
      }
    }
    assert a.Join(b).Join(c).cells == a.Join(b.Join(c)).cells;
  }

  lemma {:induction false} AbsConcat(a: seq<Piece>, b: seq<Piece>)
    ensures Abs(a + b) == Abs(a).Join(Abs(b))
  {
    if b == [] {
      ConcatNil(a);
      JoinNil(Abs(a));
    } else {
      InitConcat(a, b);
      AbsConcat(a, Init(b));
      JoinAssoc(Abs(a), Abs(Init(b)), One(Last(b)));
    }
  }

  lemma JoinNil(d: Draft)
    ensures d.Join(Draft([], [])) == d
  {
    if d.cells == [] {
      assert d.front + [] == d.front;
    } else {
      var l := d.cells[|d.cells| - 1];
      assert l.after + [] == l.after;
    }
    assert d.Join(Draft([], [])).cells == d.cells;
  }

  lemma NilJoin(d: Draft)
    ensures Draft([], []).Join(d) == d
  {
    assert [] + d.front == d.front;
    assert [] + d.cells == d.cells;
  }

  lemma AbsOne(p: Piece)
    ensures Abs([p]) == One(p)
  {
    assert [p][..0] == [];
    NilJoin(One(p));
  }

  lemma AbsThree(a: seq<Piece>, b: seq<Piece>, c: seq<Piece>)
    ensures Abs(a + b + c) == Abs(a).Join(Abs(b)).Join(Abs(c))
    ensures Abs(a + b + c) == Abs(a).Join(Abs(b).Join(Abs(c)))
  {
    AbsConcat(a, b);
    AbsConcat(a + b, c);
    JoinAssoc(Abs(a), Abs(b), Abs(c));
  }

  lemma {:induction false} AbsSize(ps: seq<Piece>)
    ensures |Abs(ps).cells| == Size(ps)
  {
    if ps != [] {
      AbsSize(Init(ps));
    }
  }

  /** Splitting a chunk changes nothing, as long as a newline chunk is not cut before its newline. */
  lemma CutKeeps(ps: seq<Piece>, i: nat, off: nat)
    requires i < |ps| && off <= |ps[i].text| && !ps[i].tbi
    requires ps[i].newline ==> off == |ps[i].text|
    ensures Abs(Cut(ps, i, off)) == Abs(ps)
  {
    var l, r := Left(ps[i], off), Right(ps[i], off);
    assert ps == ps[..i] + [ps[i]] + ps[i + 1..];
    AbsThree(ps[..i], [ps[i]], ps[i + 1..]);
    AbsThree(ps[..i], [l, r], ps[i + 1..]);
    assert Abs([l, r]) == Abs([ps[i]]) by {
      assert [l, r] == [l] + [r];
      AbsConcat([l], [r]);
      AbsOne(l);
      AbsOne(r);
      AbsOne(ps[i]);
      OneSplits(ps[i], off);
    }
  }

  lemma OneSplits(p: Piece, off: nat)
    requires off <= |p.text| && !p.tbi
    requires p.newline ==> off == |p.text|
    ensures One(Left(p, off)).Join(One(Right(p, off))) == One(p)
  {
    hide Glyphs, Cells, Draft.Join;
    JoinFlat(One(Left(p, off)), One(Right(p, off)));
    GlyphsSplit(p, off);
    CellsConcat(Glyphs(Left(p, off)), Glyphs(Right(p, off)), p.tbd);
  }

  lemma GlyphsSplit(p: Piece, off: nat)
    requires off <= |p.text|
    requires p.newline ==> off == |p.text|
    ensures Glyphs(Left(p, off)) + Glyphs(Right(p, off)) == Glyphs(p)
  {
  }

  lemma CellsConcat(a: seq<Glyph>, b: seq<Glyph>, dead: bool)
    ensures Cells(a, dead) + Cells(b, dead) == Cells(a + b, dead)
  {
  }

  lemma JoinFlat(d: Draft, e: Draft)
    requires e.front == []
    ensures d.Join(e) == Draft(d.front, d.cells + e.cells)
  {
    if d.cells == [] {
      assert d.front + [] == d.front;
    } else {
      var n := |d.cells| - 1;
      assert d.cells[n].after + [] == d.cells[n].after;
      assert d.Append([]).cells == d.cells;
    }
  }

  /** A pending chunk linked in right behind a committed character, or at the very front, is the newest
      insertion of that gap. */
  lemma SpliceInserts(ps: seq<Piece>, k: nat, p: Piece)
    requires 0 < k <= |ps| && p.tbi && !ps[k - 1].tbi
    requires ps[k - 1].text == "" ==> k == 1
    ensures Size(ps[..k]) <= |Abs(ps).cells|
    ensures Abs(Spliced(ps, k, p)) == Abs(ps).Insert(Size(ps[..k]), Glyphs(p))
  {
    hide Abs, Size, Draft.Join, Draft.Insert, Draft.Gap;
    var a, b := ps[..k], ps[k..];
    assert ps == a + b;
    AbsConcat(a, b);
    AbsThree(a, [p], b);
    AbsOne(p);
    AbsSize(a);
    CommittedEnd(a);
    JoinInsert(Abs(a), Abs(b), Glyphs(p));
  }

  lemma CommittedEnd(ps: seq<Piece>)
    requires ps != [] && !Last(ps).tbi
    requires Last(ps).text == "" ==> |ps| == 1
    ensures Abs(ps).Gap(|Abs(ps).cells|) == []
  {
    var n := |ps| - 1;
    if n == 0 {
      assert ps == [ps[0]];
      AbsOne(ps[0]);
    } else {
      JoinFlat(Abs(ps[..n]), One(ps[n]));
    }
  }

  lemma JoinInsert(d: Draft, e: Draft, gs: seq<Glyph>)
    requires d.Gap(|d.cells|) == []
    ensures |d.cells| <= |d.Join(e).cells|
    ensures d.Join(Draft(gs, []).Join(e)) == d.Join(e).Insert(|d.cells|, gs)
  {
    hide Draft.Join;
    PendingJoin(gs, e);
    JoinPending(d, e);
    JoinPending(d, Draft(gs + e.front, e.cells));
    if d.cells == [] {
      assert d.Join(Draft(gs + e.front, e.cells)) == d.Join(e).Insert(0, gs);
    } else {
      assert d.Join(Draft(gs + e.front, e.cells)).cells == d.Join(e).Insert(|d.cells|, gs).cells;
    }
  }

  lemma PendingJoin(gs: seq<Glyph>, e: Draft)
    ensures Draft(gs, []).Join(e) == Draft(gs + e.front, e.cells)
  {
    assert [] + e.cells == e.cells;
  }

  /** Joining to a document whose last gap is empty moves the front into that gap. */
  lemma JoinPending(d: Draft, e: Draft)
    requires d.Gap(|d.cells|) == []
    ensures d.cells == [] ==> d.Join(e) == e
    ensures d.cells != [] ==>
      d.Join(e) == Draft(d.front, Init(d.cells) + [Last(d.cells).(after := e.front)] + e.cells)
  {
    assert [] + e.front == e.front;
    if d.cells == [] {
      assert [] + e.cells == e.cells;
    } else {
      assert d.Append(e.front).cells == Init(d.cells) + [Last(d.cells).(after := e.front)];
    }
  }

  /** Marking the committed chunks lo..hi deletes exactly their characters and no pending text. */
  lemma MarkDeletes(ps: seq<Piece>, lo: nat, hi: nat)
    requires lo <= hi <= |ps|
    ensures Abs(Marked(ps, lo, hi)) == Abs(ps).Delete(Size(ps[..lo]), Size(ps[..hi]))
  {
    hide *;
    var a, b, c := ps[..lo], ps[lo..hi], ps[hi..];
    Slices(ps, lo, hi);
    MarkedSlices(ps, lo, hi);
    MarkMiddle(a, b, c);
    SizeConcat(a, b);
  }

  lemma MarkedSlices(ps: seq<Piece>, lo: nat, hi: nat)
    requires lo <= hi <= |ps|
    ensures Marked(ps, lo, hi) == ps[..lo] + Marked(ps[lo..hi], 0, |ps[lo..hi]|) + ps[hi..]
  {
  }

  lemma MarkMiddle(a: seq<Piece>, b: seq<Piece>, c: seq<Piece>)
    ensures Abs(a + Marked(b, 0, |b|) + c) == Abs(a + b + c).Delete(Size(a), Size(a) + Size(b))
  {
    hide *;
    AbsThree(a, b, c);
    AbsThree(a, Marked(b, 0, |b|), c);
    AllMarked(b);
    AbsSize(a);
    AbsSize(b);
    JoinDelete(Abs(a), Abs(b), Abs(c));
  }

  lemma JoinDelete(d: Draft, m: Draft, e: Draft)
    ensures d.Join(m.Delete(0, |m.cells|)).Join(e)
         == d.Join(m).Join(e).Delete(|d.cells|, |d.cells| + |m.cells|)
  {
    JoinDeleteRight(d, m);
    JoinDeleteLeft(d.Join(m), e, |d.cells|, |d.cells| + |m.cells|);
  }

  lemma JoinDeleteRight(d: Draft, m: Draft)
    ensures d.Join(m.Delete(0, |m.cells|)) == d.Join(m).Delete(|d.cells|, |d.cells| + |m.cells|)
  {
    assert d.Join(m.Delete(0, |m.cells|)).cells == d.Join(m).Delete(|d.cells|, |d.cells| + |m.cells|).cells;
  }

  lemma JoinDeleteLeft(d: Draft, e: Draft, from: nat, to: nat)
    requires to <= |d.cells|
    ensures d.Delete(from, to).Join(e) == d.Join(e).Delete(from, to)
  {
    assert d.Delete(from, to).Join(e).cells == d.Join(e).Delete(from, to).cells;
  }

  lemma {:induction false} AllMarked(ps: seq<Piece>)
    ensures Abs(Marked(ps, 0, |ps|)) == Abs(ps).Delete(0, |Abs(ps).cells|)
  {
    hide Draft.Join, Draft.Delete, One, Marked;
    if ps != [] {
      MarkedInit(ps);
      AllMarked(Init(ps));
      OneMarked(Last(ps));
      JoinDeleteAll(Abs(Init(ps)), One(Last(ps)));
    } else {
      DeleteNothing();
    }
  }

  lemma DeleteNothing()
    ensures Abs(Marked([], 0, 0)) == Abs([]) && Abs([]).Delete(0, 0) == Abs([])
  {
    assert Marked([], 0, 0) == [];
    assert Draft([], []).Delete(0, 0).cells == [];
  }

  lemma MarkedInit(ps: seq<Piece>)
    requires ps != []
    ensures var m := Marked(ps, 0, |ps|);
      && m != [] && Init(m) == Marked(Init(ps), 0, |Init(ps)|)
      && Last(m) == if Last(ps).tbi then Last(ps) else Last(ps).(tbd := true)
  {
  }

  lemma OneMarked(p: Piece)
    ensures One(if p.tbi then p else p.(tbd := true)) == One(p).Delete(0, |One(p).cells|)
  {
    if p.tbi {
      assert One(p).Delete(0, 0).cells == [];
    } else {
      assert Glyphs(p.(tbd := true)) == Glyphs(p);
      assert Cells(Glyphs(p), true) == One(p).Delete(0, |One(p).cells|).cells;
    }
  }

  lemma JoinDeleteAll(d: Draft, e: Draft)
    ensures |d.Join(e).cells| == |d.cells| + |e.cells|
    ensures d.Delete(0, |d.cells|).Join(e.Delete(0, |e.cells|)) == d.Join(e).Delete(0, |d.cells| + |e.cells|)
  {
    assert d.Delete(0, |d.cells|).Join(e.Delete(0, |e.cells|)).cells
        == d.Join(e).Delete(0, |d.cells| + |e.cells|).cells;
  }

  lemma {:induction false} WovenConcat(a: seq<Cell>, b: seq<Cell>)
    ensures Woven(a + b) == Woven(a) + Woven(b)
  {
    hide Kept;
    if b == [] {
      ConcatNil(a);
      ConcatNil(Woven(a));
    } else {
      InitConcat(a, b);
      WovenConcat(a, Init(b));
      ConcatAssoc(Woven(a), Woven(Init(b)), Kept(Last(b)));
    }
  }

  lemma MergeJoin(d: Draft, e: Draft)
    ensures d.Join(e).Merge() == d.Merge() + e.Merge()
  {
    var a := d.Append(e.front);
    calc {
      d.Join(e).Merge();
      a.front + Woven(a.cells + e.cells);
      { WovenConcat(a.cells, e.cells); }
      a.front + (Woven(a.cells) + Woven(e.cells));
      a.Merge() + Woven(e.cells);
      { MergeAppend(d, e.front); }
      d.Merge() + e.front + Woven(e.cells);
      d.Merge() + e.Merge();
    }
  }

  lemma MergeAppend(d: Draft, gs: seq<Glyph>)
    ensures d.Append(gs).Merge() == d.Merge() + gs
  {
    if d.cells != [] {
      var n := |d.cells| - 1;
      assert d.Append(gs).cells[..n] == d.cells[..n];
      assert Kept(d.Append(gs).cells[n]) == Kept(d.cells[n]) + gs;
    } else {
      assert d.front + gs + [] == d.front + [] + gs;
    }
  }
}
