/** The values held by the chunks of a document (libs/document.h, source/document.c).

    A document is a list of chunks between two sentinel heads.  A chunk that is not marked `tbi`
    belongs to the committed text, whether or not it is marked `tbd`; a chunk marked `tbi` waits for
    the next version.  This module describes the list by the values of its chunks only. */
module Pieces {
  import opened Seqs

  /** One character of a document.  A line break is a newline chunk, never a character of a text chunk. */
  datatype Glyph = Ch(c: char) | Brk

  /** The value of one chunk; its `size` field is the length of `text`. */
  datatype Piece = Piece(text: string, tbd: bool, tbi: bool, newline: bool, head: bool)

  const SENTINEL := Piece("", false, false, false, true)
  const BREAK := Piece("\n", false, true, true, false)

  function Fresh(content: string): Piece {
    Piece(content, false, true, false, false)
  }

  function Chars(s: string): (gs: seq<Glyph>)
    ensures |gs| == |s|
  {
    seq(|s|, i requires 0 <= i < |s| => Ch(s[i]))
  }

  function Glyphs(p: Piece): (gs: seq<Glyph>)
    ensures |gs| == |p.text|
  {
    if p.newline then seq(|p.text|, _ => Brk) else Chars(p.text)
  }

  /** What holds of the chunk list between any two commands. */
  ghost predicate WellFormed(ps: seq<Piece>) {
    && |ps| >= 2
    && ps[0] == SENTINEL && Last(ps) == SENTINEL
    && (forall k :: 0 < k < |ps| - 1 ==> !ps[k].head)
    && (forall k :: 0 <= k < |ps| ==> ps[k].newline ==> ps[k].text == "\n")
    && (forall k :: 0 <= k < |ps| ==> ps[k].tbi ==> !ps[k].tbd)
  }

  /** Committed characters of a chunk. */
  function Weight(p: Piece): nat {
    if p.tbi then 0 else |p.text|
  }

  /** Number of committed characters. */
  function Size(ps: seq<Piece>): nat {
    if ps == [] then 0 else Size(Init(ps)) + Weight(Last(ps))
  }

  /** The committed text, as `markdown_flatten` renders it. */
  function Text(ps: seq<Piece>): string {
    if ps == [] then ""
    else Text(Init(ps)) + (if Last(ps).tbi then "" else Last(ps).text)
  }

  /** The first committed chunk, from index k on, that reaches position pos; |ps| if none does. */
  function Seek(ps: seq<Piece>, k: nat, pos: int): nat
    decreases |ps| - k
  {
    if k >= |ps| then |ps|
    else if !ps[k].tbi && pos <= Size(ps[..k + 1]) then k
    else Seek(ps, k + 1, pos)
  }

  /** Cursor soundness: within the document the cursor walk stops at a committed chunk, inside it or at
      its end and never at its start, except that position 0 (or below) is the front sentinel. */
  function Locate(ps: seq<Piece>, pos: int): (i: nat)
    requires WellFormed(ps) && pos <= Size(ps)
    ensures i < |ps| - 1 && !ps[i].tbi
    ensures pos <= 0 ==> i == 0
    ensures pos > 0 ==> 0 < i && Size(ps[..i]) < pos <= Size(ps[..i]) + |ps[i].text|
  {
    LocateSound(ps, pos);
    Seek(ps, 0, pos)
  }

  /** The cursor's place inside its chunk; a newline chunk is never entered before its newline. */
  function Offset(ps: seq<Piece>, pos: nat): (off: nat)
    requires WellFormed(ps) && pos <= Size(ps)
    ensures off <= |ps[Locate(ps, pos)].text|
    ensures ps[Locate(ps, pos)].newline ==> off == |ps[Locate(ps, pos)].text|
    ensures pos > 0 ==> off > 0
  {
    pos - Size(ps[..Locate(ps, pos)])
  }

  function Left(p: Piece, off: nat): Piece
    requires off <= |p.text|
  {
    p.(text := p.text[..off])
  }

  function Right(p: Piece, off: nat): Piece
    requires off <= |p.text|
  {
    Piece(p.text[off..], p.tbd, false, false, false)
  }

  /** Chunk i is shortened to its first off characters and the rest becomes a chunk of its own. */
  function Cut(ps: seq<Piece>, i: nat, off: nat): seq<Piece>
    requires i < |ps| && off <= |ps[i].text|
  {
    ps[..i] + [Left(ps[i], off), Right(ps[i], off)] + ps[i + 1..]
  }

  function Spliced(ps: seq<Piece>, k: nat, p: Piece): seq<Piece>
    requires k <= |ps|
  {
    ps[..k] + [p] + ps[k..]
  }

  function Marked(ps: seq<Piece>, lo: nat, hi: nat): seq<Piece> {
    seq(|ps|, k requires 0 <= k < |ps| => if lo <= k < hi && !ps[k].tbi then ps[k].(tbd := true) else ps[k])
  }

  lemma SizeSnoc(ps: seq<Piece>, k: nat)
    requires k < |ps|
    ensures Size(ps[..k + 1]) == Size(ps[..k]) + Weight(ps[k])
  {
    assert ps[..k + 1][..k] == ps[..k];
  }

  lemma {:induction false} SizeConcat(a: seq<Piece>, b: seq<Piece>)
    ensures Size(a + b) == Size(a) + Size(b)
  {
    if b == [] {
      ConcatNil(a);
    } else {
      InitConcat(a, b);
      SizeConcat(a, Init(b));
    }
  }

  lemma SizeMonotone(ps: seq<Piece>, i: nat, j: nat)
    requires i <= j <= |ps|
    ensures Size(ps[..i]) <= Size(ps[..j])
  {
    assert ps[..j] == ps[..i] + ps[i..j];
    SizeConcat(ps[..i], ps[i..j]);
  }

  lemma LocateSound(ps: seq<Piece>, pos: int)
    requires WellFormed(ps) && pos <= Size(ps)
    ensures var i := Seek(ps, 0, pos);
      && i < |ps| - 1
      && !ps[i].tbi
      && (if pos <= 0 then i == 0
          else 0 < i && Size(ps[..i]) < pos <= Size(ps[..i]) + |ps[i].text|)
  {
    assert ps[..1] == [ps[0]];
    if pos > 0 {
      SizeSnoc(ps, 0);
      assert Size(ps[..1]) == 0;
      SeekSound(ps, 1, pos);
      var i := Seek(ps, 0, pos);
      SizeSnoc(ps, i);
    }
  }

  lemma {:induction false} SeekSound(ps: seq<Piece>, k: nat, pos: int)
    requires k < |ps| && pos <= Size(ps) && Size(ps[..k]) < pos
    ensures var i := Seek(ps, k, pos);
      k <= i < |ps| && !ps[i].tbi && Size(ps[..i]) < pos <= Size(ps[..i + 1])
    decreases |ps| - k
  {
    if ps[k].tbi || Size(ps[..k + 1]) < pos {
      SizeSnoc(ps, k);
      assert ps[..|ps|] == ps;
      SeekSound(ps, k + 1, pos);
    }
  }

  /** The cursor is the only committed chunk in that place. */
  lemma LocateUnique(ps: seq<Piece>, pos: int, i: nat)
    requires WellFormed(ps) && 0 < pos <= Size(ps)
    requires i < |ps| && Size(ps[..i]) < pos <= Size(ps[..i + 1])
    ensures Locate(ps, pos) == i
  {
    var j := Locate(ps, pos);
    SizeSnoc(ps, j);
    if j < i {
      SizeMonotone(ps, j + 1, i);
    } else if i < j {
      SizeMonotone(ps, i + 1, j);
    }
  }

  lemma LocateMonotone(ps: seq<Piece>, p: nat, q: nat)
    requires WellFormed(ps) && p <= q <= Size(ps)
    ensures Locate(ps, p) <= Locate(ps, q)
  {
    var i, j := Locate(ps, p), Locate(ps, q);
    if j < i {
      SizeSnoc(ps, j);
      SizeMonotone(ps, j + 1, i);
    }
  }

  lemma {:induction false} TextSize(ps: seq<Piece>)
    ensures |Text(ps)| == Size(ps)
  {
    if ps != [] {
      TextSize(Init(ps));
    }
  }
}
