/** What a new version makes of the chunk list (markdown_increment_version in source/markdown.c): the
    deleted chunks go, the rest is gathered into one chunk a line, and the lists are renumbered. */
module Commits {
  import opened Seqs
  import opened Pieces
  import opened Drafts
  import opened Lines

  function Surviving(p: Piece): seq<Glyph> {
    if p.tbd then [] else Glyphs(p)
  }

  function Merged(ps: seq<Piece>): seq<Glyph> {
    if ps == [] then [] else Merged(Init(ps)) + Surviving(Last(ps))
  }

  /** The lines of the next version before renumbering. */
  function Gathered(ps: seq<Piece>): (ls: seq<string>)
    ensures ls != []
  {
    Split(Merged(ps))
  }

  function Commit(ps: seq<Piece>): (qs: seq<Piece>)
    ensures WellFormed(qs)
  {
    Canon(Renumber(Gathered(ps)))
  }

  /** Neither pending edits nor empty chunks nor two text chunks in a row. */
  ghost predicate Canonical(ps: seq<Piece>) {
    && WellFormed(ps)
    && (forall k :: 0 < k < |ps| - 1 ==> ps[k] == NEWLINE || (ps[k].text != "" && ps[k] == Settled(ps[k].text)))
    && (forall k :: 0 < k < |ps| - 2 ==> ps[k].newline || ps[k + 1].newline)
  }

  function Render(gs: seq<Glyph>): (s: string)
    ensures |s| == |gs|
  {
    seq(|gs|, i requires 0 <= i < |gs| => if gs[i].Brk? then '\n' else gs[i].c)
  }

  lemma {:induction false} MergedConcat(a: seq<Piece>, b: seq<Piece>)
    ensures Merged(a + b) == Merged(a) + Merged(b)
  {
    hide Surviving;
    if b == [] {
      ConcatNil(a);
      ConcatNil(Merged(a));
    } else {
      InitConcat(a, b);
      MergedConcat(a, Init(b));
      ConcatAssoc(Merged(a), Merged(Init(b)), Surviving(Last(b)));
    }
  }

  /** The sweep over the chunks gathers exactly what the reference interleaves. */
  lemma {:induction false} MergedIsMerge(ps: seq<Piece>)
    requires forall k :: 0 <= k < |ps| ==> ps[k].tbi ==> !ps[k].tbd
    ensures Merged(ps) == Abs(ps).Merge()
  {
    hide Draft.Merge, Draft.Join, One;
    if ps == [] {
      EmptyMerge();
    } else {
      MergedIsMerge(Init(ps));
      OneMerge(Last(ps));
      MergeJoin(Abs(Init(ps)), One(Last(ps)));
    }
  }

  lemma EmptyMerge()
    ensures Draft([], []).Merge() == []
  {
  }

  lemma OneMerge(p: Piece)
    requires p.tbi ==> !p.tbd
    ensures One(p).Merge() == Surviving(p)
  {
    if !p.tbi {
      assert One(p).cells == Cells(Glyphs(p), p.tbd);
      CellsWoven(Glyphs(p), p.tbd);
    }
  }

  lemma {:induction false} CellsWoven(gs: seq<Glyph>, dead: bool)
    ensures Woven(Cells(gs, dead)) == if dead then [] else gs
  {
    hide Cells, Woven;
    if gs == [] {
      NoCells(dead);
    } else {
      CellsWoven(Init(gs), dead);
      CellsInit(gs, dead);
      assert gs == Init(gs) + [Last(gs)];
    }
  }

  lemma NoCells(dead: bool)
    ensures Woven(Cells([], dead)) == []
  {
  }

  lemma CellsInit(gs: seq<Glyph>, dead: bool)
    requires gs != []
    ensures Cells(gs, dead) != []
    ensures Woven(Cells(gs, dead)) == Woven(Cells(Init(gs), dead)) + (if dead then [] else [Last(gs)])
  {
    assert Init(Cells(gs, dead)) == Cells(Init(gs), dead);
    ConcatNil(if dead then [] else [Last(gs)]);
  }

  lemma CleanMerge(gs: seq<Glyph>)
    ensures Clean(gs).Merge() == gs && Clean(gs).Base() == gs
  {
    assert Clean(gs).cells == Cells(gs, false);
    CellsWoven(gs, false);
  }

  lemma {:induction false} AbsLayout(ls: seq<string>)
    requires ls != []
    ensures Abs(Layout(ls)) == Clean(Unlines(ls))
  {
    hide Draft.Join;
    var l := Last(ls);
    var head := if |ls| == 1 then [] else Layout(Init(ls)) + [NEWLINE];
    var gs := if |ls| == 1 then [] else Unlines(Init(ls)) + [Brk];
    assert Abs(head) == Clean(gs) by {
      if |ls| > 1 {
        AbsLayout(Init(ls));
        AbsConcat(Layout(Init(ls)), [NEWLINE]);
        AbsOne(NEWLINE);
        assert Glyphs(NEWLINE) == [Brk];
        CleanConcat(Unlines(Init(ls)), [Brk]);
      }
    }
    AbsConcat(head, LinePiece(l));
    assert Abs(LinePiece(l)) == Clean(Chars(l)) by {
      if l != "" {
        AbsOne(Settled(l));
        assert Glyphs(Settled(l)) == Chars(l);
      }
    }
    CleanConcat(gs, Chars(l));
  }

  lemma CleanConcat(a: seq<Glyph>, b: seq<Glyph>)
    ensures Clean(a).Join(Clean(b)) == Clean(a + b)
  {
    JoinFlat(Clean(a), Clean(b));
    assert Clean(a).cells + Clean(b).cells == Clean(a + b).cells;
  }

  /** A canonical chunk list stands for its lines and nothing else. */
  lemma AbsCanon(ls: seq<string>)
    requires ls != []
    ensures Abs(Canon(ls)) == Clean(Unlines(ls))
  {
    AbsThree([SENTINEL], Layout(ls), [SENTINEL]);
    AbsOne(SENTINEL);
    AbsLayout(ls);
    NilJoin(Clean(Unlines(ls)));
    JoinNil(Clean(Unlines(ls)));
    assert One(SENTINEL) == Draft([], []);
  }

  lemma CanonCanonical(ls: seq<string>)
    requires ls != []
    ensures Canonical(Canon(ls))
  {
    hide Layout;
    LayoutShape(ls);
    var ps := Canon(ls);
    forall k | 0 < k < |ps| - 1
      ensures !ps[k].head && !ps[k].tbi && (ps[k].newline ==> ps[k].text == "\n")
      ensures ps[k] == NEWLINE || (ps[k].text != "" && ps[k] == Settled(ps[k].text))
      ensures k < |ps| - 2 ==> ps[k].newline || ps[k + 1].newline
    {
      assert ps[k] == Layout(ls)[k - 1];
      if k < |ps| - 2 {
        assert ps[k + 1] == Layout(ls)[k];
      }
    }
  }

  lemma GatheredCanon(ls: seq<string>)
    requires ls != []
    ensures Merged(Canon(ls)) == Unlines(ls)
    ensures Gathered(Canon(ls)) == ls
  {
    CanonCanonical(ls);
    MergedIsMerge(Canon(ls));
    AbsCanon(ls);
    CleanMerge(Unlines(ls));
    SplitUnlines(ls);
  }

  lemma CanonInjective(ls: seq<string>, ms: seq<string>)
    ensures ls != [] && ms != [] && Canon(ls) == Canon(ms) ==> ls == ms
  {
    if ls != [] && ms != [] {
      GatheredCanon(ls);
      GatheredCanon(ms);
    }
  }

  /** The canonical form is determined by the committed characters: it is the layout of their lines. */
  lemma CanonicalIsCanon(ps: seq<Piece>)
    requires Canonical(ps)
    ensures ps == Canon(Gathered(ps))
  {
    hide Layout, Split;
    var n := |ps| - 1;
    CanonicalPrefix(ps, n);
    assert ps[..n + 1] == ps;
    MergedSnoc(ps, n);
    assert ps == ps[..n] + [SENTINEL];
  }

  lemma {:induction false} CanonicalPrefix(ps: seq<Piece>, k: nat)
    requires Canonical(ps) && 1 <= k < |ps|
    ensures ps[..k] == [SENTINEL] + Layout(Split(Merged(ps[..k])))
    ensures k == 1 || ps[k - 1].newline <==> Last(Split(Merged(ps[..k]))) == ""
  {
    hide Layout, Split, Merged;
    if k == 1 {
      assert ps[..1] == [SENTINEL];
      CanonicalStart();
    } else {
      CanonicalPrefix(ps, k - 1);
      var p := ps[k - 1];
      assert p == NEWLINE || (p.text != "" && p == Settled(p.text));
      assert k == 2 || ps[k - 2].newline || p.newline;
      CanonicalStep(ps[..k - 1], p);
      assert ps[..k] == ps[..k - 1] + [p];
    }
  }

  lemma CanonicalStart()
    ensures Split(Merged([SENTINEL])) == [""]
    ensures Layout([""]) == []
  {
    assert Init([SENTINEL]) == [];
  }

  lemma CanonicalStep(a: seq<Piece>, p: Piece)
    requires a == [SENTINEL] + Layout(Split(Merged(a)))
    requires p == NEWLINE || (p.text != "" && p == Settled(p.text) && Last(Split(Merged(a))) == "")
    ensures a + [p] == [SENTINEL] + Layout(Split(Merged(a + [p])))
    ensures p.newline <==> Last(Split(Merged(a + [p]))) == ""
  {
    hide *;
    LayoutSnoc(Merged(a), p);
    MergedOne(a, p);
    var laid := Layout(Split(Merged(a)));
    assert [SENTINEL] + (laid + [p]) == [SENTINEL] + laid + [p];
  }

  lemma MergedOne(a: seq<Piece>, p: Piece)
    ensures Merged(a + [p]) == Merged(a) + Surviving(p)
  {
    assert Init(a + [p]) == a;
  }

  lemma LayoutSnoc(gs: seq<Glyph>, p: Piece)
    requires p == NEWLINE || (p.text != "" && p == Settled(p.text) && Last(Split(gs)) == "")
    ensures Layout(Split(gs + Surviving(p))) == Layout(Split(gs)) + [p]
    ensures p.newline <==> Last(Split(gs + Surviving(p))) == ""
  {
    hide Layout, Split;
    if p == NEWLINE {
      assert Glyphs(p) == [Brk];
      SplitBreak(gs);
      LayoutBreak(Split(gs));
    } else {
      SplitChars(gs, p.text);
      assert "" + p.text == p.text;
      LayoutFill(Split(gs), p.text);
    }
  }

  /** How one more chunk changes the lines gathered so far. */
  lemma MergedSnoc(ps: seq<Piece>, k: nat)
    requires k < |ps|
    ensures Merged(ps[..k + 1]) == Merged(ps[..k]) + Surviving(ps[k])
    ensures var ls := Split(Merged(ps[..k]));
      var ms := Split(Merged(ps[..k + 1]));
      if ps[k].tbd || ps[k].text == "" then ms == ls
      else if !ps[k].newline then ms == Init(ls) + [Last(ls) + ps[k].text]
      else ps[k].text == "\n" ==> ms == ls + [""]
  {
    hide Split;
    var gs := Merged(ps[..k]);
    assert Init(ps[..k + 1]) == ps[..k];
    if ps[k].tbd || ps[k].text == "" {
      assert gs + [] == gs;
    } else if !ps[k].newline {
      SplitChars(gs, ps[k].text);
    } else if ps[k].text == "\n" {
      assert Glyphs(ps[k]) == [Brk];
      SplitBreak(gs);
    }
  }

  /** Two canonical chunk lists with the same committed characters are the same list. */
  lemma CanonicalUnique(ps: seq<Piece>, qs: seq<Piece>)
    requires Canonical(ps) && Canonical(qs)
    requires Abs(ps).Base() == Abs(qs).Base()
    ensures ps == qs
  {
    CanonicalIsCanon(ps);
    CanonicalIsCanon(qs);
    AbsCanon(Gathered(ps));
    AbsCanon(Gathered(qs));
    CleanMerge(Unlines(Gathered(ps)));
    CleanMerge(Unlines(Gathered(qs)));
    SplitUnlines(Gathered(ps));
    SplitUnlines(Gathered(qs));
  }

  /** A new version depends only on the reference document, not on how the chunks were split. */
  lemma CommitMeaning(ps: seq<Piece>)
    requires WellFormed(ps)
    ensures Canonical(Commit(ps))
    ensures Commit(ps) == Canon(Renumber(Split(Abs(ps).Merge())))
    ensures Abs(Commit(ps)) == Clean(Unlines(Renumber(Split(Abs(ps).Merge()))))
  {
    MergedIsMerge(ps);
    CanonCanonical(Renumber(Gathered(ps)));
    AbsCanon(Renumber(Gathered(ps)));
  }

  /** Committing a document that was just committed changes nothing. */
  lemma CommitIdempotent(ps: seq<Piece>)
    ensures Commit(Commit(ps)) == Commit(ps)
  {
    GatheredCanon(Renumber(Gathered(ps)));
    RenumberIdempotent(Gathered(ps));
  }

  /** What a commit does to the lists, in the characters of the text before it, pending edits carried out, and after
      it: the line below exactly n lines of a list gets number n + 1; every other line stays as it is. */
  lemma CommittedLists(ps: seq<Piece>, i: nat, n: nat)
    requires WellFormed(ps) && n <= i < |Split(Abs(ps).Merge())|
    ensures var ls, rs := Split(Abs(ps).Merge()), Split(Abs(Commit(ps)).Base());
      && |rs| == |ls|
      && (!Listed(ls, i, i + 1) ==> rs[i] == ls[i])
      && (Listed(ls, i - n, i + 1) && !Listed(ls, i - n - 1, i + 1) ==>
            && |rs[i]| == |ls[i]| && rs[i][1..] == ls[i][1..]
            && rs[i][0] as int == ('0' as int + n + 1) % 256
            && (n < 9 ==> rs[i][0] == "123456789"[n]))
  {
    hide Abs, Draft.Merge, Draft.Base, Split, Renumber, Commit, WellFormed, Listed, Clean;
    var ls := Split(Abs(ps).Merge());
    CommitMeaning(ps);
    CleanMerge(Unlines(Renumber(ls)));
    SplitUnlines(Renumber(ls));
    if !Listed(ls, i, i + 1) {
      OthersStay(ls, i);
    }
    if Listed(ls, i - n, i + 1) && !Listed(ls, i - n - 1, i + 1) {
      ListNumbering(ls, i, n);
      RenumberKeeps(ls, i);
      ListedLine(ls, i - n, i);
    }
  }

  lemma ListedLine(ls: seq<string>, from: int, i: nat)
    requires Listed(ls, from, i + 1) && from <= i
    ensures i < |ls| && |ls[i]| >= 3
  {
  }

  predicate IsDigitGlyph(g: Glyph) {
    g.Ch? && '1' <= g.c <= '9'
  }

  /** Renumbering replaces digits by other characters; it neither moves nor removes anything. */
  lemma {:induction false} UnlinesRenumber(ls: seq<string>)
    requires ls != []
    ensures var gs, rs := Unlines(ls), Unlines(Renumber(ls));
      && |rs| == |gs|
      && forall i :: 0 <= i < |gs| ==> rs[i] == gs[i] || (IsDigitGlyph(gs[i]) && rs[i].Ch?)
  {
    hide Trail;
    var a, l := Init(ls), Last(ls);
    assert ls == a + [l];
    RenumberSnoc(a, l);
    assert Init(Renumber(ls)) == Renumber(a);
    if a != [] {
      UnlinesRenumber(a);
    }
  }

  // ---------- steps of the two sweeps ----------

  /** Renumbering as the lines are completed: a line break ends a line without an item... */
  lemma CleanupBreak(ls: seq<string>)
    requires ls != []
    ensures Layout(Renumber(ls + [""])) == Layout(Renumber(ls)) + [NEWLINE]
    ensures Trail(ls + [""]) == 0
  {
    hide Layout;
    RenumberSnoc(ls, "");
    LayoutBreak(Renumber(ls));
  }

  /** ... and a text chunk fills the empty last line. */
  lemma CleanupText(ls: seq<string>, t: string)
    requires ls != [] && Last(ls) == "" && t != ""
    ensures Layout(Renumber(Init(ls) + [t])) == Layout(Renumber(ls)) + [Settled(Numbered(t, 1 + Trail(Init(ls))))]
    ensures Trail(Init(ls) + [t]) == if IsItem(t) then 1 + Trail(Init(ls)) else 0
  {
    hide Layout;
    var a := Init(ls);
    assert ls == a + [""];
    assert Init(a + [t]) == a;
    RenumberSnoc(a, t);
    RenumberSnoc(a, "");
    LayoutFill(Renumber(ls), Numbered(t, 1 + Trail(a)));
  }

  /** Gathering text into the last line. */
  lemma GatheredText(ls: seq<string>, t: string)
    requires ls != [] && t != ""
    ensures var l := Last(ls) + t;
      && (Last(ls) == "" ==> l == t && Layout(Init(ls) + [l]) == Layout(ls) + [Settled(l)])
      && (Last(ls) != "" ==> Layout(ls) != [] && Last(Layout(ls)) == Settled(Last(ls)))
      && (Last(ls) != "" ==> Layout(Init(ls) + [l]) == Init(Layout(ls)) + [Settled(l)])
  {
    if Last(ls) == "" {
      LayoutFill(ls, t);
    } else {
      LayoutGrow(ls, Last(ls) + t);
    }
  }

  /** A chunk list whose chunks before k are gathered into lines, and the place of chunk k in it. */
  function Swept(ps: seq<Piece>, k: nat): seq<Piece>
    requires k <= |ps|
  {
    [SENTINEL] + Layout(Gathered(ps[..k])) + ps[k..]
  }

  function SweptTo(ps: seq<Piece>, k: nat): nat
    requires k <= |ps|
  {
    1 + |Layout(Gathered(ps[..k]))|
  }

  lemma SweptStart(ps: seq<Piece>)
    requires WellFormed(ps)
    ensures Gathered(ps[..1]) == [""] && Merged(ps[..1]) == []
    ensures Swept(ps, 1) == ps && SweptTo(ps, 1) == 1
  {
    assert ps[..1] == [SENTINEL];
    assert Merged([SENTINEL]) == [] by { assert Init([SENTINEL]) == []; }
  }

  lemma SweptAt(ps: seq<Piece>, k: nat)
    requires WellFormed(ps) && 1 <= k < |ps|
    ensures var p := SweptTo(ps, k);
      && p < |Swept(ps, k)| == p + |ps| - k
      && Swept(ps, k)[p] == ps[k]
      && (k < |ps| - 1 ==> Swept(ps, k)[p + 1] == ps[k + 1])
    ensures ps[k].head == (k == |ps| - 1)
    ensures ps[k].newline ==> ps[k].text == "\n"
    ensures ps[k].tbi ==> !ps[k].tbd
  {
    hide Layout, Gathered;
  }

  lemma GatheredStep(ps: seq<Piece>, k: nat)
    requires WellFormed(ps) && 1 <= k < |ps| - 1
    ensures var p, ls := ps[k], Gathered(ps[..k]);
      && (p.tbd || p.text == "" ==>
            Gathered(ps[..k + 1]) == ls && |Merged(ps[..k + 1])| == |Merged(ps[..k])|)
      && (!p.tbd && p.newline ==>
            Gathered(ps[..k + 1]) == ls + [""] && |Merged(ps[..k + 1])| == |Merged(ps[..k])| + 1)
      && (!p.tbd && p.text != "" && !p.newline ==>
            Gathered(ps[..k + 1]) == Init(ls) + [Last(ls) + p.text]
            && |Merged(ps[..k + 1])| == |Merged(ps[..k])| + |p.text|)
  {
    hide Split, Merged;
    MergedSnoc(ps, k);
  }

  lemma LastSize(ps: seq<Piece>, k: nat)
    requires WellFormed(ps) && 1 <= k < |ps| - 1
    ensures var p, l, m := ps[k], Last(Gathered(ps[..k])), Last(Gathered(ps[..k + 1]));
      && (p.tbd || p.text == "" ==> m == l)
      && (!p.tbd && p.newline ==> m == "")
      && (!p.tbd && p.text != "" && !p.newline ==> m != "" && |m| == |l| + |p.text|)
  {
    hide Gathered, Merged;
    GatheredStep(ps, k);
  }

  /** A deleted or empty chunk is left out. */
  lemma SweptDrop(ps: seq<Piece>, k: nat)
    requires WellFormed(ps) && 1 <= k < |ps| - 1 && (ps[k].tbd || ps[k].text == "")
    ensures var p := SweptTo(ps, k);
      && |Swept(ps, k)| == p + |ps| - k
      && Swept(ps, k + 1) == Swept(ps, k)[..p] + Swept(ps, k)[p + 1..]
      && SweptTo(ps, k + 1) == p
  {
    hide Layout, Gathered, WellFormed, Merged;
    GatheredStep(ps, k);
    var head := [SENTINEL] + Layout(Gathered(ps[..k]));
    assert Swept(ps, k) == head + ps[k..];
    assert Swept(ps, k)[..|head|] == head && Swept(ps, k)[|head| + 1..] == ps[k + 1..];
  }

  /** A newline chunk, or the first text of a line, stays where it is. */
  lemma SweptKeep(ps: seq<Piece>, k: nat)
    requires WellFormed(ps) && 1 <= k < |ps| - 1 && !ps[k].tbd && ps[k].text != ""
    requires ps[k].newline || Last(Gathered(ps[..k])) == ""
    ensures var p := SweptTo(ps, k);
      && |Swept(ps, k)| == p + |ps| - k
      && Swept(ps, k + 1) == Swept(ps, k)[p := ps[k].(tbi := false)]
      && SweptTo(ps, k + 1) == p + 1
  {
    hide Layout, Gathered, Merged;
    GatheredStep(ps, k);
    var ls := Gathered(ps[..k]);
    if ps[k].newline {
      LayoutBreak(ls);
    } else {
      GatheredText(ls, ps[k].text);
    }
    assert ps[k].(tbi := false) == if ps[k].newline then NEWLINE else Settled(ps[k].text);
    SweptReplace(Layout(ls), ps, k, ps[k].(tbi := false));
  }

  lemma SweptReplace(laid: seq<Piece>, ps: seq<Piece>, k: nat, x: Piece)
    requires k < |ps|
    ensures [SENTINEL] + (laid + [x]) + ps[k + 1..] == ([SENTINEL] + laid + ps[k..])[1 + |laid| := x]
  {
  }

  /** More text of a line goes into the chunk before. */
  lemma SweptFill(ps: seq<Piece>, k: nat)
    requires WellFormed(ps) && 1 <= k < |ps| - 1 && !ps[k].tbd && ps[k].text != "" && !ps[k].newline
    requires Last(Gathered(ps[..k])) != ""
    ensures var p, l := SweptTo(ps, k), Last(Gathered(ps[..k]));
      && |Swept(ps, k)| == p + |ps| - k && p >= 2
      && Swept(ps, k)[p - 1] == Settled(l)
      && (var qs := Swept(ps, k)[p - 1 := Settled(l).(text := l + ps[k].text)];
            Swept(ps, k + 1) == qs[..p] + qs[p + 1..])
      && SweptTo(ps, k + 1) == p
  {
    hide Layout, Gathered, Merged;
    GatheredStep(ps, k);
    var ls := Gathered(ps[..k]);
    GatheredText(ls, ps[k].text);
    SweptJoin(Layout(ls), ps, k, Settled(Last(ls) + ps[k].text));
  }

  lemma SweptJoin(laid: seq<Piece>, ps: seq<Piece>, k: nat, x: Piece)
    requires k < |ps| && laid != []
    ensures var qs, p := [SENTINEL] + laid + ps[k..], 1 + |laid|;
      && qs[p - 1] == Last(laid)
      && [SENTINEL] + (Init(laid) + [x]) + ps[k + 1..] == qs[p - 1 := x][..p] + qs[p - 1 := x][p + 1..]
  {
  }

  lemma SweptEnd(ps: seq<Piece>)
    requires WellFormed(ps)
    ensures Swept(ps, |ps| - 1) == Canon(Gathered(ps)) && |Merged(ps[..|ps| - 1])| == |Merged(ps)|
  {
    hide Layout, Split, Merged;
    var n := |ps| - 1;
    assert ps[..n + 1] == ps;
    MergedSnoc(ps, n);
  }

  /** A canonical chunk list whose chunks before k are renumbered. */
  function Cleaned(qs: seq<Piece>, k: nat): seq<Piece>
    requires k <= |qs|
  {
    [SENTINEL] + Layout(Renumber(Gathered(qs[..k]))) + qs[k..]
  }

  lemma CleanedStart(qs: seq<Piece>)
    requires Canonical(qs)
    ensures Gathered(qs[..1]) == [""] && Trail([""]) == 0 && Trail([]) == 0
    ensures ListEnds(qs, 1)
    ensures qs == Cleaned(qs, 1)
  {
    assert qs[..1] == [SENTINEL];
    assert Merged([SENTINEL]) == [] by { assert Init([SENTINEL]) == []; }
    assert Renumber([""]) == [""];
  }

  lemma CleanedStep(qs: seq<Piece>, k: nat)
    requires Canonical(qs) && 1 <= k < |qs| - 1 && |Cleaned(qs, k)| == |qs|
    ensures Cleaned(qs, k)[k..] == qs[k..]
    ensures qs[k].newline ==> Cleaned(qs, k + 1) == Cleaned(qs, k)
    ensures var ls, t := Gathered(qs[..k]), qs[k].text;
      !qs[k].newline && Last(ls) == "" ==>
        Cleaned(qs, k + 1) == Cleaned(qs, k)[k := Settled(Numbered(t, 1 + Trail(Init(ls))))]
  {
    hide *;
    var ls := Gathered(qs[..k]);
    CanonicalAt(qs, k);
    CleanedLines(qs, k);
    CleanedSplit(qs, k);
    CleanedSplit(qs, k + 1);
    var laid := Layout(Renumber(ls));
    assert qs[k..] == [qs[k]] + qs[k + 1..];
    if qs[k].newline {
      CleanupBreak(ls);
      assert [SENTINEL] + (laid + [NEWLINE]) + qs[k + 1..] == [SENTINEL] + laid + ([NEWLINE] + qs[k + 1..]);
    } else if Last(ls) == "" {
      CleanupText(ls, qs[k].text);
      var x := Settled(Numbered(qs[k].text, 1 + Trail(Init(ls))));
      assert [SENTINEL] + (laid + [x]) + qs[k + 1..] == ([SENTINEL] + laid + ([qs[k]] + qs[k + 1..]))[k := x];
    }
  }

  lemma CleanedSplit(qs: seq<Piece>, k: nat)
    requires k <= |qs|
    ensures Cleaned(qs, k) == [SENTINEL] + Layout(Renumber(Gathered(qs[..k]))) + qs[k..]
  {
  }

  lemma CanonicalAt(qs: seq<Piece>, k: nat)
    requires Canonical(qs) && 1 <= k < |qs| - 1
    ensures qs[k] == NEWLINE || (qs[k].text != "" && qs[k] == Settled(qs[k].text))
    ensures !NEWLINE.tbi && !NEWLINE.head && !Settled(qs[k].text).newline
    ensures qs[k].newline <==> qs[k] == NEWLINE
    ensures !qs[k].head && !qs[k].tbd
    ensures k < |qs| - 2 ==> qs[k].newline || qs[k + 1].newline
  {
  }

  lemma CleanedAt(qs: seq<Piece>, k: nat)
    requires Canonical(qs) && 1 <= k < |qs| && |Cleaned(qs, k)| == |qs|
    ensures Cleaned(qs, k)[k] == qs[k]
    ensures qs[k].head == (k == |qs| - 1)
    ensures k < |qs| - 1 ==> Cleaned(qs, k)[k + 1] == qs[k + 1]
  {
    hide Layout, Renumber, Gathered;
  }

  /** The lines up to the next chunk of a canonical list. */
  lemma CleanedLines(qs: seq<Piece>, k: nat)
    requires Canonical(qs) && 1 <= k < |qs| - 1
    ensures var ls, t := Gathered(qs[..k]), qs[k].text;
      && (qs[k].newline ==> Gathered(qs[..k + 1]) == ls + [""] && Trail(ls + [""]) == 0)
      && (!qs[k].newline && Last(ls) == "" ==>
            && Gathered(qs[..k + 1]) == Init(ls) + [t]
            && Trail(Init(ls) + [t]) == if IsItem(t) then 1 + Trail(Init(ls)) else 0)
  {
    hide Split, Merged, Renumber, Layout, Trail;
    var ls := Gathered(qs[..k]);
    CanonicalAt(qs, k);
    MergedSnoc(qs, k);
    CleanupBreak(ls);
    if !qs[k].newline && Last(ls) == "" {
      assert "" + qs[k].text == qs[k].text;
      CleanupText(ls, qs[k].text);
    }
  }

  /** No list goes on before chunk k. */
  ghost predicate ListEnds(qs: seq<Piece>, k: nat)
    requires k <= |qs|
  {
    Trail(Gathered(qs[..k])) == 0
  }

  /** The number that chunk k gets if it is an item, or that the next line's item gets if it is a newline. */
  ghost predicate Counts(qs: seq<Piece>, k: nat, num: nat)
    requires k < |qs|
  {
    var ls := Gathered(qs[..k]);
    && (qs[k].newline ==> num == 1 + Trail(ls))
    && (!qs[k].head && !qs[k].newline ==> Last(ls) == "" && num == 1 + Trail(Init(ls)))
  }

  lemma ListStarts(qs: seq<Piece>, k: nat)
    requires Canonical(qs) && 1 <= k < |qs| && ListEnds(qs, k) && (qs[k].newline || k == 1)
    ensures Counts(qs, k, 1)
  {
    CleanedStart(qs);
  }

  /** How the count goes on behind chunk k, and what the chunk becomes. */
  lemma CountStep(qs: seq<Piece>, k: nat, num: nat)
    requires Canonical(qs) && 1 <= k < |qs| - 1 && |Cleaned(qs, k)| == |qs| && Counts(qs, k, num)
    ensures qs[k] == NEWLINE || (qs[k].text != "" && qs[k] == Settled(qs[k].text))
    ensures Cleaned(qs, k)[k..] == qs[k..]
    ensures qs[k].newline ==> Cleaned(qs, k + 1) == Cleaned(qs, k) && ListEnds(qs, k + 1)
    ensures qs[k].newline && !qs[k + 1].newline ==> Counts(qs, k + 1, num)
    ensures !qs[k].newline && IsItem(qs[k].text) ==>
      Cleaned(qs, k + 1) == Cleaned(qs, k)[k := qs[k].(text := [Digit(num)] + qs[k].text[1..])]
    ensures !qs[k].newline && IsItem(qs[k].text) ==> Counts(qs, k + 1, num + 1)
    ensures !qs[k].newline && !IsItem(qs[k].text) ==> Cleaned(qs, k + 1) == Cleaned(qs, k) && ListEnds(qs, k + 1)
    ensures qs[k].newline || qs[k + 1].newline || qs[k + 1].head
  {
    hide Canonical, Gathered, Cleaned, Trail;
    CanonicalAt(qs, k);
    CleanedStep(qs, k);
    CleanedLines(qs, k);
    CleanedAt(qs, k);
    CanonicalHead(qs, k + 1);
  }

  lemma CanonicalHead(qs: seq<Piece>, k: nat)
    requires Canonical(qs) && k < |qs|
    ensures qs[k].head == (k == 0 || k == |qs| - 1)
    ensures qs[k].head ==> !qs[k].newline
  {
  }

  lemma CleanedEnd(qs: seq<Piece>)
    requires Canonical(qs)
    ensures Cleaned(qs, |qs| - 1) == Canon(Renumber(Gathered(qs)))
  {
    hide Layout, Renumber, Split;
    var n := |qs| - 1;
    assert qs[..n + 1] == qs;
    MergedSnoc(qs, n);
  }
}
