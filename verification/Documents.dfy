/** The document as the program keeps it: a doubly linked list of chunks between two sentinels, changed in
    place (source/document.c, source/markdown.c).  Every method is proved against the chunk values. */
module Documents {
  import opened Seqs
  import opened Pieces
  import opened Lines
  import opened Commits
  import opened Commands
  import opened Batches

  class Chunk {
    var next: Chunk?
    var prev: Chunk?
    var arr: string
    var tbd: bool
    var tbi: bool
    var newline: bool
    var head: bool

    constructor (p: Piece)
      ensures Value() == p && next == null && prev == null
    {
      next, prev := null, null;
      arr, tbd, tbi, newline, head := p.text, p.tbd, p.tbi, p.newline, p.head;
    }

    ghost function Value(): Piece
      reads this`arr, this`tbd, this`tbi, this`newline, this`head
    {
      Piece(arr, tbd, tbi, newline, head)
    }
  }

  method ConnectTwo(one: Chunk, two: Chunk)
    modifies one`next, two`prev
    ensures one.next == two && two.prev == one
  {
    one.next := two;
    two.prev := one;
  }

  method ConnectThree(one: Chunk, two: Chunk, three: Chunk)
    requires one != two && two != three
    modifies one`next, two`prev, two`next, three`prev
    ensures one.next == two && two.prev == one && two.next == three && three.prev == two
  {
    one.next := two;
    two.prev := one;
    two.next := three;
    three.prev := two;
  }

  /** Shortens the chunk to its first off characters; the rest becomes a chunk that is deleted if the
      chunk was. */
  method SplitChunk(c: Chunk, off: nat) returns (end: Chunk)
    requires off <= |c.arr|
    modifies c`arr
    ensures fresh(end)
    ensures c.Value() == Left(old(c.Value()), off)
    ensures end.Value() == Right(old(c.Value()), off)
  {
    end := new Chunk(Piece(c.arr[off..], c.tbd, false, false, false));
    c.arr := c.arr[..off];
  }

  ghost predicate Distinct<T>(s: seq<T>) {
    forall i, j :: 0 <= i < j < |s| ==> s[i] != s[j]
  }

  lemma DistinctInsert<T>(s: seq<T>, k: nat, x: T)
    requires Distinct(s) && x !in s && k <= |s|
    ensures Distinct(s[..k] + [x] + s[k..])
  {
  }

  lemma DistinctRemove<T>(s: seq<T>, k: nat)
    requires Distinct(s) && k < |s|
    ensures Distinct(s[..k] + s[k + 1..])
    ensures forall x :: x in s[..k] + s[k + 1..] ==> x in s
  {
  }

  /** Each chunk's `next` is the following one and each chunk's `prev` the preceding one. */
  ghost predicate Chained(s: seq<Chunk>)
    reads s`next, s`prev
  {
    && (s != [] ==> s[0].prev == null && s[|s| - 1].next == null)
    && (forall i {:trigger s[i].next} :: 0 <= i < |s| - 1 ==> s[i].next == s[i + 1])
    && (forall i {:trigger s[i].prev} :: 0 < i < |s| ==> s[i].prev == s[i - 1])
  }

  lemma ChainedNext(s: seq<Chunk>, i: nat)
    requires Chained(s) && i < |s| - 1
    ensures s[i].next == s[i + 1]
  {
  }

  /** Chained but for the link between chunks k and k + 1. */
  ghost predicate ChainedBut(s: seq<Chunk>, k: nat)
    reads s`next, s`prev
  {
    && (s != [] ==> s[0].prev == null && s[|s| - 1].next == null)
    && (forall i {:trigger s[i].next} :: 0 <= i < |s| - 1 && i != k ==> s[i].next == s[i + 1])
    && (forall i {:trigger s[i].prev} :: 0 < i < |s| && i != k + 1 ==> s[i].prev == s[i - 1])
  }

  lemma ChainedIsBut(s: seq<Chunk>, k: nat)
    requires Chained(s)
    ensures ChainedBut(s, k)
  {
  }

  lemma ChainedInsert(s: seq<Chunk>, k: nat, x: Chunk)
    requires k < |s| - 1 && ChainedBut(s, k)
    requires s[k].next == x && x.prev == s[k] && x.next == s[k + 1] && s[k + 1].prev == x
    ensures Chained(s[..k + 1] + [x] + s[k + 1..])
  {
    var t := s[..k + 1] + [x] + s[k + 1..];
    forall i {:trigger t[i].next} | 0 <= i < |t| - 1
      ensures t[i].next == t[i + 1]
    {
      if i < k {
        assert t[i] == s[i] && t[i + 1] == s[i + 1];
      } else if i > k + 1 {
        assert t[i] == s[i - 1] && t[i + 1] == s[i];
        assert s[i - 1].next == s[i - 1 + 1];
      }
    }
    forall i {:trigger t[i].prev} | 0 < i < |t|
      ensures t[i].prev == t[i - 1]
    {
      if i <= k {
        assert t[i] == s[i] && t[i - 1] == s[i - 1];
      } else if i > k + 2 {
        assert t[i] == s[i - 1] && t[i - 1] == s[i - 2];
      }
    }
    assert t[0] == s[0] && t[|t| - 1] == s[|s| - 1];
  }

  lemma ChainedRemove(s: seq<Chunk>, k: nat)
    requires 0 < k < |s| - 1
    requires s[0].prev == null && s[|s| - 1].next == null
    requires forall i {:trigger s[i].next} :: 0 <= i < |s| - 1 && i != k - 1 ==> s[i].next == s[i + 1]
    requires forall i {:trigger s[i].prev} :: 0 < i < |s| && i != k + 1 ==> s[i].prev == s[i - 1]
    requires s[k - 1].next == s[k + 1] && s[k + 1].prev == s[k - 1]
    ensures Chained(s[..k] + s[k + 1..])
  {
    var t := s[..k] + s[k + 1..];
    forall i {:trigger t[i].next} | 0 <= i < |t| - 1
      ensures t[i].next == t[i + 1]
    {
      if i < k - 1 {
        assert t[i] == s[i] && t[i + 1] == s[i + 1];
      } else if i > k - 1 {
        assert t[i] == s[i + 1] && t[i + 1] == s[i + 2];
        assert s[i + 1].next == s[i + 1 + 1];
      }
    }
    forall i {:trigger t[i].prev} | 0 < i < |t|
      ensures t[i].prev == t[i - 1]
    {
      if i < k {
        assert t[i] == s[i] && t[i - 1] == s[i - 1];
      } else if i > k {
        assert t[i] == s[i + 1] && t[i - 1] == s[i];
      }
    }
    assert t[0] == s[0] && t[|t| - 1] == s[|s| - 1];
  }

  ghost predicate Holds(s: seq<Chunk>, ps: seq<Piece>)
    reads s`arr, s`tbd, s`tbi, s`newline, s`head
  {
    |ps| == |s| && forall i :: 0 <= i < |s| ==> s[i].Value() == ps[i]
  }

  lemma HoldsInsert(s: seq<Chunk>, ps: seq<Piece>, k: nat, x: Chunk)
    requires Holds(s, ps) && k <= |s|
    ensures Holds(s[..k] + [x] + s[k..], Spliced(ps, k, x.Value()))
  {
  }

  lemma HoldsAt(s: seq<Chunk>, ps: seq<Piece>, i: nat)
    requires Holds(s, ps) && i < |s|
    ensures |ps| == |s| && s[i].Value() == ps[i]
  {
  }

  lemma ChainedPrev(s: seq<Chunk>, i: nat)
    requires Chained(s) && 0 < i < |s|
    ensures s[i].prev == s[i - 1]
  {
  }

  lemma CutIsSplice(ps: seq<Piece>, i: nat, off: nat)
    requires i < |ps| && off <= |ps[i].text|
    ensures Spliced(ps[i := Left(ps[i], off)], i + 1, Right(ps[i], off)) == Cut(ps, i, off)
  {
  }

  lemma PlaceIsSplice(ps: seq<Piece>, pos: nat, p: Piece)
    requires WellFormed(ps) && pos <= Size(ps) && Pending(p)
    ensures var i := Locate(ps, pos);
      Place(ps, pos, p) == Spliced(Cut(ps, i, Offset(ps, pos)), i + 1, p)
  {
  }

  lemma HoldsRemove(s: seq<Chunk>, ps: seq<Piece>, k: nat)
    requires Holds(s, ps) && k < |s|
    ensures Holds(s[..k] + s[k + 1..], ps[..k] + ps[k + 1..])
  {
  }

  lemma ChainedPair(front: Chunk, back: Chunk)
    requires front != back && front.prev == null && front.next == back && back.prev == front && back.next == null
    ensures Chained([front, back]) && Distinct([front, back])
    ensures Holds([front, back], [front.Value(), back.Value()])
  {
  }

  lemma EmptySize()
    ensures WellFormed([SENTINEL, SENTINEL])
    ensures Size([SENTINEL, SENTINEL]) == 0
    ensures Canon([""]) == [SENTINEL, SENTINEL]
  {
    assert Size([SENTINEL]) == 0 by {
      assert [SENTINEL][..0] == [];
    }
    assert [SENTINEL, SENTINEL][..1] == [SENTINEL];
  }

  lemma CommitSteps(ps: seq<Piece>)
    requires WellFormed(ps)
    ensures Canon(Renumber(Gathered(ps))) == Commit(ps)
    ensures Size(Commit(ps)) == |Merged(ps)|
  {
    hide Size;
    CommitSize(ps);
  }

  lemma SameIndexAs<T>(s: seq<T>, i: nat, j: nat)
    requires Distinct(s) && i < |s| && j < |s|
    ensures s[i] == s[j] <==> i == j
  {
  }

  lemma SameIndex<T>(s: seq<T>, i: nat, j: nat)
    requires Distinct(s) && i < |s| && j < |s| && s[i] == s[j]
    ensures i == j
  {
  }

  lemma MarkedStart(ps: seq<Piece>, lo: nat)
    requires lo < |ps| && !ps[lo].tbi
    ensures ps[lo := ps[lo].(tbd := true)] == Marked(ps, lo, lo + 1)
  {
  }

  lemma MarkedStep(ps: seq<Piece>, lo: nat, k: nat)
    requires lo <= k < |ps|
    ensures var qs := Marked(ps, lo, if k == lo then lo + 1 else k);
      && |qs| == |ps| && qs[k].tbi == ps[k].tbi && qs[k].head == ps[k].head
      && (if ps[k].tbi then qs else qs[k := qs[k].(tbd := true)]) == Marked(ps, lo, k + 1)
  {
  }

  lemma TextSnoc(ps: seq<Piece>, k: nat)
    requires k < |ps|
    ensures Text(ps[..k + 1]) == Text(ps[..k]) + (if ps[k].tbi then "" else ps[k].text)
    ensures Text(ps[..0]) == ""
  {
    assert ps[..k + 1][..k] == ps[..k];
  }

  lemma PendingFresh(content: string)
    ensures Pending(Fresh(content))
  {
  }

  lemma EraseIsMark(ps: seq<Piece>, from: nat, to: nat)
    requires WellFormed(ps) && from <= to <= Size(ps)
    ensures var i, j, a, b := Locate(ps, from), Locate(ps, to), Offset(ps, from), Offset(ps, to);
      && i <= j < |ps| - 1 && a <= |Cut(ps, j, b)[i].text|
      && (forall k :: i < k < j + 2 ==> !Cut(Cut(ps, j, b), i, a)[k].head)
      && !Cut(Cut(ps, j, b), i, a)[i + 1].tbi
      && Erase(ps, from, to) == Marked(Cut(Cut(ps, j, b), i, a), i + 1, j + 2)
  {
    EraseKeeps(ps, from, to);
  }

  class Document {
    var HEAD: Chunk
    var size: nat
    var version: nat
    ghost var spine: seq<Chunk>
    ghost var shape: seq<Piece>
    ghost var repr: set<Chunk>

    /** The chunks from HEAD to the back sentinel, linked both ways, and their values. */
    ghost predicate Linked()
      reads this`HEAD, this`spine, this`shape, this`repr, spine
    {
      && |spine| >= 2 && |shape| == |spine| && HEAD == spine[0]
      && Distinct(spine)
      && Chained(spine)
      && Holds(spine, shape)
      && forall c :: c in spine ==> c in repr
    }

    ghost predicate Valid()
      reads this`HEAD, this`size, this`spine, this`shape, this`repr, spine
    {
      Linked() && WellFormed(shape) && size == Size(shape)
    }

    constructor ()
      ensures Valid() && fresh(repr)
      ensures shape == Canon([""]) && size == 0 && version == 0
    {
      hide Size, Canon, Chained, Holds, Distinct, WellFormed;
      size := 0;
      version := 0;
      var front := new Chunk(SENTINEL);
      var back := new Chunk(SENTINEL);
      HEAD := front;
      new;
      ConnectTwo(front, back);
      spine, repr := [front, back], {front, back};
      shape := [SENTINEL, SENTINEL];
      EmptySize();
      ChainedPair(front, back);
    }

    /** The chunk under the cursor and the cursor's place in it. */
    method GetChunk(pos: int) returns (c: Chunk, off: int, ghost i: nat)
      requires Valid() && pos <= size
      ensures i == Locate(shape, pos) && i < |spine| - 1 && c == spine[i] && c.Value() == shape[i]
      ensures c.next == spine[i + 1]
      ensures pos >= 0 ==> off == Offset(shape, pos)
    {
      var curr := 0;
      var temp := HEAD;
      i := 0;
      while true
        invariant i < |spine| && temp == spine[i] && curr == Size(shape[..i])
        invariant Locate(shape, pos) == Seek(shape, i, pos)
        decreases |spine| - i
      {
        SizeSnoc(shape, i);
        assert temp.Value() == shape[i];
        if temp.tbi {
        } else if curr + |temp.arr| >= pos {
          break;
        } else {
          curr := curr + |temp.arr|;
        }
        temp := temp.next;
        i := i + 1;
      }
      c := temp;
      off := pos - curr;
    }

    /** A chunk is linked in between two neighbours. */
    method LinkIn(one: Chunk, two: Chunk, three: Chunk, ghost k: nat)
      requires Linked() && k < |spine| - 1 && spine[k] == one && spine[k + 1] == three && two !in spine
      modifies this`spine, this`shape, this`repr, one`next, two`prev, two`next, three`prev
      ensures Linked() && repr == old(repr) + {two}
      ensures spine == old(spine)[..k + 1] + [two] + old(spine)[k + 1..]
      ensures shape == Spliced(old(shape), k + 1, two.Value())
    {
      hide Chained, Holds, Spliced;
      ghost var was := spine;
      DistinctInsert(was, k + 1, two);
      ChainedIsBut(was, k);
      ConnectThree(one, two, three);
      assert ChainedBut(was, k);
      ChainedInsert(was, k, two);
      HoldsInsert(was, shape, k + 1, two);
      spine := spine[..k + 1] + [two] + spine[k + 1..];
      shape := Spliced(shape, k + 1, two.Value());
      repr := repr + {two};
    }

    /** The chunk is taken out of the list. */
    method Unlink(temp: Chunk, ghost k: nat)
      requires Linked() && 0 < k < |spine| - 1 && spine[k] == temp
      modifies this`spine, this`shape, temp.prev`next, temp.next`prev
      ensures Linked()
      ensures spine == old(spine)[..k] + old(spine)[k + 1..]
      ensures spine[k - 1] == old(spine)[k - 1] && spine[k] == old(spine)[k + 1]
      ensures shape == old(shape)[..k] + old(shape)[k + 1..]
    {
      hide Holds;
      ghost var was := spine;
      DistinctRemove(spine, k);
      HoldsRemove(spine, shape, k);
      ConnectTwo(temp.prev, temp.next);
      ChainedRemove(was, k);
      spine := spine[..k] + spine[k + 1..];
      shape := shape[..k] + shape[k + 1..];
    }

    /** The chunk under the cursor is split in two. */
    method CutChunk(c: Chunk, off: nat, ghost i: nat) returns (end: Chunk)
      requires Linked() && i < |spine| - 1 && spine[i] == c && off <= |shape[i].text|
      modifies this`spine, this`shape, this`repr, c`arr, c`next, c.next`prev
      ensures Linked() && fresh(end) && repr == old(repr) + {end}
      ensures spine == old(spine)[..i + 1] + [end] + old(spine)[i + 1..]
      ensures shape == Cut(old(shape), i, off)
    {
      hide Cut, Spliced;
      assert c.Value() == shape[i];
      CutIsSplice(shape, i, off);
      end := SplitChunk(c, off);
      shape := shape[i := Left(shape[i], off)];
      LinkIn(c, end, c.next, i);
    }

    /** A chunk's text is replaced. */
    method StoreText(c: Chunk, text: string, ghost k: nat)
      requires Linked() && k < |spine| && spine[k] == c
      modifies this`shape, c`arr
      ensures Linked() && shape == old(shape)[k := old(shape)[k].(text := text)]
    {
      hide Chained;
      c.arr := text;
      shape := shape[k := shape[k].(text := text)];
    }

    method ClearPending(c: Chunk, ghost k: nat)
      requires Linked() && k < |spine| && spine[k] == c
      modifies this`shape, c`tbi
      ensures Linked() && shape == old(shape)[k := old(shape)[k].(tbi := false)]
    {
      hide Chained;
      c.tbi := false;
      shape := shape[k := shape[k].(tbi := false)];
    }

    method SetDeleted(c: Chunk, ghost k: nat)
      requires Linked() && k < |spine| && spine[k] == c
      modifies this`shape, c`tbd
      ensures Linked() && shape == old(shape)[k := old(shape)[k].(tbd := true)]
    {
      hide Chained;
      c.tbd := true;
      shape := shape[k := shape[k].(tbd := true)];
    }

    /** Marks the committed chunks from one chunk up to another. */
    method MarkChunks(first: Chunk, last: Chunk, ghost lo: nat, ghost hi: nat)
      requires Linked() && 0 < lo < hi < |spine|
      requires spine[lo] == first && spine[hi] == last && !shape[lo].tbi
      requires forall k :: lo <= k < hi ==> !shape[k].head
      modifies this`shape, repr`tbd
      ensures Linked() && shape == Marked(old(shape), lo, hi)
    {
      hide Distinct, Marked, Chained, Holds;
      ghost var ps := shape;
      SetDeleted(first, lo);
      var curr := first;
      ghost var k := lo;
      MarkedStart(ps, lo);
      while curr != last
        invariant lo <= k <= hi && curr == spine[k]
        invariant Linked() && shape == Marked(ps, lo, if k == lo then lo + 1 else k)
        decreases hi - k
      {
        MarkedStep(ps, lo, k);
        HoldsAt(spine, shape, k);
        ChainedNext(spine, k);
        if curr.tbi {
        } else {
          SetDeleted(curr, k);
        }
        if curr.head {
          assert false;
          break;
        }
        curr := curr.next;
        k := k + 1;
      }
      SameIndex(spine, k, hi);
    }

    /** The steps that all inserting commands share: a new chunk is linked in between the two halves of the
        chunk under the cursor. */
    method PlaceChunk(pos: nat, p: Piece) returns (at: Chunk)
      requires Valid() && pos <= size && Pending(p)
      modifies this`spine, this`shape, this`repr, repr
      ensures Valid() && shape == Place(old(shape), pos, p)
      ensures fresh(repr - old(repr))
      ensures at.newline == old(shape)[Locate(old(shape), pos)].newline
      ensures at.head == old(shape)[Locate(old(shape), pos)].head
    {
      hide Locate, Seek, Size, WellFormed, Pending, Offset, Place, Cut, Spliced, Chained, Holds, Distinct;
      PlaceIsSplice(shape, pos, p);
      var insert := new Chunk(p);
      var off;
      ghost var i;
      at, off, i := GetChunk(pos);
      var end := CutChunk(at, off, i);
      assert insert !in spine;
      LinkIn(at, insert, end, i);
    }

    method Insert(version: int, pos: int, content: string) returns (r: int)
      requires Valid()
      modifies this`spine, this`shape, this`repr, repr
      ensures Valid() && fresh(repr - old(repr))
      ensures (shape, r) == Respond(old(shape), Command.Insert(pos, content), version == this.version)
      ensures r != SUCCESS ==> spine == old(spine)
    {
      hide Place, Size, WellFormed, Pending;
      if pos > size || pos < 0 {
        return INVALID_POSITION;
      } else if this.version != version {
        return OUTDATED_VERSION;
      }
      PendingFresh(content);
      var _ := PlaceChunk(pos, Fresh(content));
      return SUCCESS;
    }

    method Newline(version: int, pos: int) returns (r: int)
      requires Valid()
      modifies this`spine, this`shape, this`repr, repr
      ensures Valid() && fresh(repr - old(repr))
      ensures (shape, r) == Respond(old(shape), Command.Newline(pos), version == this.version)
      ensures r != SUCCESS ==> spine == old(spine)
    {
      hide Place, Size, WellFormed;
      if pos > size || pos < 0 {
        return INVALID_POSITION;
      } else if this.version != version {
        return OUTDATED_VERSION;
      }
      var _ := PlaceChunk(pos, BREAK);
      return SUCCESS;
    }

    /** Both cursors are taken first; when they fall into one chunk, the start cursor still refers to it
        after the end was split off. */
    method Delete(version: int, pos: int, len: int) returns (r: int)
      requires Valid()
      modifies this`spine, this`shape, this`repr, repr
      ensures Valid() && fresh(repr - old(repr))
      ensures (shape, r) == Respond(old(shape), Command.Del(pos, len), version == this.version)
      ensures r != SUCCESS ==> spine == old(spine)
    {
      hide Size, WellFormed, Erase;
      if pos > size || pos < 0 {
        return INVALID_POSITION;
      } else if this.version != version {
        return OUTDATED_VERSION;
      }
      var n := len;
      if len < 0 || len > size - pos {
        n := size - pos;
      }
      EraseChunks(pos, pos + n);
      return SUCCESS;
    }

    method EraseChunks(from: nat, to: nat)
      requires Valid() && from <= to <= size
      modifies this`spine, this`shape, this`repr, repr
      ensures Valid() && fresh(repr - old(repr))
      ensures shape == Erase(old(shape), from, to)
    {
      hide Size, WellFormed, Locate, Offset, Cut, Chained, Holds, Distinct, Marked, Erase;
      EraseIsMark(shape, from, to);
      var start, end;
      ghost var i, j;
      start, end, i, j := CutBoth(from, to);
      MarkChunks(start, end, i + 1, j + 2);
    }

    /** Takes both cursors, then splits off the end and then the start. */
    method CutBoth(from: nat, to: nat) returns (startChunk: Chunk, endChunk: Chunk, ghost i: nat, ghost j: nat)
      requires Valid() && from <= to <= size
      modifies this`spine, this`shape, this`repr, repr
      ensures Linked() && fresh(repr - old(repr))
      ensures i == Locate(old(shape), from) <= Locate(old(shape), to) == j < |old(shape)| - 1
      ensures var qs := Cut(old(shape), j, Offset(old(shape), to));
        Offset(old(shape), from) <= |qs[i].text| && shape == Cut(qs, i, Offset(old(shape), from))
      ensures |spine| > j + 2 && spine[i + 1] == startChunk && spine[j + 2] == endChunk
    {
      hide Size, WellFormed, Locate, Seek, Offset, Cut, Chained, Holds, Distinct;
      EraseIsMark(shape, from, to);
      var sta, offSta, end, offEnd;
      sta, offSta, i := GetChunk(from);
      end, offEnd, j := GetChunk(to);
      endChunk := CutChunk(end, offEnd, j);
      assert spine[i] == sta && spine[j + 1] == endChunk;
      ChainedNext(spine, i);
      startChunk := CutChunk(sta, offSta, i);
    }

    /** The steps that all block commands share. */
    method PlaceMarker(version: int, pos: nat, marker: string)
      requires Valid() && pos <= size && version == this.version
      modifies this`spine, this`shape, this`repr, repr
      ensures Valid() && fresh(repr - old(repr))
      ensures shape == Block(old(shape), pos, marker)
    {
      hide Place, Size, WellFormed, Locate, Pending;
      PendingFresh(marker);
      var at := PlaceChunk(pos, Fresh(marker));
      if at.newline || at.head {
      } else {
        var _ := Newline(version, pos);
      }
    }

    method Heading(version: int, level: int, pos: int) returns (r: int)
      requires Valid() && 1 <= level <= 3
      modifies this`spine, this`shape, this`repr, repr
      ensures Valid() && fresh(repr - old(repr))
      ensures (shape, r) == Respond(old(shape), Command.Heading(level, pos), version == this.version)
      ensures r != SUCCESS ==> spine == old(spine)
    {
      hide Size, WellFormed, Block;
      if pos > size || pos < 0 {
        return INVALID_POSITION;
      } else if this.version != version {
        return OUTDATED_VERSION;
      }
      PlaceMarker(version, pos, HeadingMarker(level));
      return SUCCESS;
    }

    method Blockquote(version: int, pos: int) returns (r: int)
      requires Valid()
      modifies this`spine, this`shape, this`repr, repr
      ensures Valid() && fresh(repr - old(repr))
      ensures (shape, r) == Respond(old(shape), Command.Blockquote(pos), version == this.version)
      ensures r != SUCCESS ==> spine == old(spine)
    {
      hide Size, WellFormed, Block;
      if pos > size || pos < 0 {
        return INVALID_POSITION;
      } else if this.version != version {
        return OUTDATED_VERSION;
      }
      PlaceMarker(version, pos, QUOTE_MARKER);
      return SUCCESS;
    }

    method UnorderedList(version: int, pos: int) returns (r: int)
      requires Valid()
      modifies this`spine, this`shape, this`repr, repr
      ensures Valid() && fresh(repr - old(repr))
      ensures (shape, r) == Respond(old(shape), Command.UnorderedList(pos), version == this.version)
      ensures r != SUCCESS ==> spine == old(spine)
    {
      hide Size, WellFormed, Block;
      if pos > size || pos < 0 {
        return INVALID_POSITION;
      } else if this.version != version {
        return OUTDATED_VERSION;
      }
      PlaceMarker(version, pos, BULLET_MARKER);
      return SUCCESS;
    }

    /** Looks back for the last committed newline chunk and forward from there for the first committed text. */
    method InListCheck(chunk: Chunk, ghost i: nat) returns (num: int)
      requires Valid() && i < |spine| - 1 && spine[i] == chunk
      ensures num == ListNumber(shape, i)
    {
      var curr := chunk;
      ghost var k: nat := i;
      while true
        invariant 0 <= k <= i && curr == spine[k] && NewlineBehind(shape, i) == NewlineBehind(shape, k)
        decreases k
      {
        assert curr.Value() == shape[k];
        if curr.head {
          return -1;
        } else if curr.newline && !curr.tbi {
          break;
        }
        curr := curr.prev;
        k := k - 1;
      }
      ghost var start := k + 1;
      while true
        invariant start - 1 <= k < |spine| - 1 && curr == spine[k]
        invariant CommittedFrom(shape, start) == CommittedFrom(shape, k + 1)
        decreases |spine| - k
      {
        curr := curr.next;
        k := k + 1;
        assert curr.Value() == shape[k];
        if !curr.tbi && |curr.arr| > 0 {
          break;
        }
        if curr.head {
          return -1;
        }
      }
      if |curr.arr| >= 3 && '1' <= curr.arr[0] <= '9' && curr.arr[1] == '.' && curr.arr[2] == ' ' {
        num := curr.arr[0] as int - '0' as int;
        return num + 1;
      }
      return 0;
    }

    method OrderedList(version: int, pos: int) returns (r: int)
      requires Valid()
      modifies this`spine, this`shape, this`repr, repr
      ensures Valid() && fresh(repr - old(repr))
      ensures (shape, r) == Respond(old(shape), Command.OrderedList(pos), version == this.version)
      ensures r != SUCCESS ==> spine == old(spine)
    {
      hide Size, WellFormed, Block, Locate, ListNumber;
      if pos > size || pos < 0 {
        return INVALID_POSITION;
      } else if this.version != version {
        return OUTDATED_VERSION;
      }
      var at, off;
      ghost var i;
      at, off, i := GetChunk(pos);
      var num := InListCheck(at, i);
      if num >= 2 && num <= 9 {
      } else {
        num := 1;
      }
      PlaceMarker(version, pos, ItemMarker(Digit(num)));
      return SUCCESS;
    }

    method HorizontalRule(version: int, pos: int) returns (r: int)
      requires Valid()
      modifies this`spine, this`shape, this`repr, repr
      ensures Valid() && fresh(repr - old(repr))
      ensures (shape, r) == Respond(old(shape), Command.HorizontalRule(pos), version == this.version)
      ensures r != SUCCESS ==> spine == old(spine)
    {
      hide Size, WellFormed, Block, Locate, Place;
      if pos > size || pos < 0 {
        return INVALID_POSITION;
      } else if this.version != version {
        return OUTDATED_VERSION;
      }
      if pos == size {
        var _ := Newline(version, pos);
      } else {
        var at, off;
        ghost var i;
        at, off, i := GetChunk(pos + 1);
        if at.newline {
        } else {
          var _ := Newline(version, pos);
        }
      }
      PlaceMarker(version, pos, RULE_MARKER);
      return SUCCESS;
    }

    /** The steps that all range commands share; what the insertions report is ignored. */
    method WrapRange(version: int, start: int, end: int, open: string, close: string) returns (r: int)
      requires Valid() && start <= size && end <= size
      modifies this`spine, this`shape, this`repr, repr
      ensures Valid() && fresh(repr - old(repr))
      ensures var w := Wrap(old(shape), start, end, open, close);
        (shape, r) == if version == this.version || w.1 != SUCCESS then w else (old(shape), SUCCESS)
      ensures r != SUCCESS ==> spine == old(spine)
    {
      hide Size, WellFormed, Locate, Place;
      var sta, end', off;
      ghost var i;
      sta, off, i := GetChunk(start);
      end', off, i := GetChunk(end);
      if sta.tbd && end'.tbd {
        return DELETED_POSITION;
      } else {
        var _ := Insert(version, start, open);
        var _ := Insert(version, end, close);
      }
      return SUCCESS;
    }

    method Bold(version: int, start: int, end: int) returns (r: int)
      requires Valid() && start <= size && end <= size
      modifies this`spine, this`shape, this`repr, repr
      ensures Valid() && fresh(repr - old(repr))
      ensures (shape, r) == Respond(old(shape), Command.Bold(start, end), version == this.version)
      ensures r != SUCCESS ==> spine == old(spine)
    {
      hide Wrap, Size, WellFormed;
      r := WrapRange(version, start, end, "**", "**");
    }

    method Italic(version: int, start: int, end: int) returns (r: int)
      requires Valid() && start <= size && end <= size
      modifies this`spine, this`shape, this`repr, repr
      ensures Valid() && fresh(repr - old(repr))
      ensures (shape, r) == Respond(old(shape), Command.Italic(start, end), version == this.version)
      ensures r != SUCCESS ==> spine == old(spine)
    {
      hide Wrap, Size, WellFormed;
      r := WrapRange(version, start, end, "*", "*");
    }

    method Code(version: int, start: int, end: int) returns (r: int)
      requires Valid() && start <= size && end <= size
      modifies this`spine, this`shape, this`repr, repr
      ensures Valid() && fresh(repr - old(repr))
      ensures (shape, r) == Respond(old(shape), Command.Code(start, end), version == this.version)
      ensures r != SUCCESS ==> spine == old(spine)
    {
      hide Wrap, Size, WellFormed;
      r := WrapRange(version, start, end, "`", "`");
    }

    method Link(version: int, start: int, end: int, url: string) returns (r: int)
      requires Valid() && start <= size && end <= size
      modifies this`spine, this`shape, this`repr, repr
      ensures Valid() && fresh(repr - old(repr))
      ensures (shape, r) == Respond(old(shape), Command.Link(start, end, url), version == this.version)
      ensures r != SUCCESS ==> spine == old(spine)
    {
      hide Wrap, Size, WellFormed;
      r := WrapRange(version, start, end, "[", "](" + url + ")");
    }

    /** The committed text; pending insertions are skipped, pending deletions are not. */
    method Flatten() returns (msg: string)
      requires Valid()
      ensures msg == Text(shape) && |msg| == size
    {
      hide Size, Distinct;
      TextSize(shape);
      msg := "";
      var curr := HEAD.next;
      ghost var k := 1;
      TextSnoc(shape, 0);
      while true
        invariant 1 <= k < |spine| && curr == spine[k] && msg == Text(shape[..k])
        decreases |spine| - k
      {
        TextSnoc(shape, k);
        assert curr.Value() == shape[k];
        if curr.head {
          break;
        } else if curr.tbi {
        } else {
          msg := msg + curr.arr;
        }
        curr := curr.next;
        k := k + 1;
      }
      assert shape[..k + 1] == shape;
    }

    /** Renumbers the list items of a document that holds one chunk a line: every newline chunk, and the first
        chunk of all, may start a list. */
    method ListCleanup(ghost ls: seq<string>)
      requires Linked() && ls != [] && shape == Canon(ls)
      modifies this`shape, repr`arr
      ensures Linked() && shape == Canon(Renumber(ls))
    {
      hide Chained, Holds, Distinct, Layout, Renumber, Gathered, Trail, Cleaned, Canonical, Numbered, WellFormed,
        ListEnds, Canon;
      CanonCanonical(ls);
      GatheredCanon(ls);
      ghost var qs := shape;
      CleanedStart(qs);
      ChainedNext(spine, 0);
      var curr := HEAD.next;
      ghost var k := 1;
      while true
        invariant 1 <= k < |spine| && curr == spine[k]
        invariant Linked() && spine == old(spine) && shape == Cleaned(qs, k)
        invariant qs[k].head || ListEnds(qs, k)
        invariant qs[k].head || qs[k].newline || k == 1
        decreases |spine| - k
      {
        CleanedAt(qs, k);
        HoldsAt(spine, shape, k);
        ChainedPrev(spine, k);
        SameIndexAs(spine, k - 1, 0);
        if curr.head {
          CleanedEnd(qs);
          break;
        } else if curr.newline || curr.prev == HEAD {
          curr, k := RenumberList(curr, qs, k);
          CleanedAt(qs, k);
          HoldsAt(spine, shape, k);
          if !curr.head {
            CanonicalAt(qs, k);
            ChainedNext(spine, k);
            curr := curr.next;
            k := k + 1;
          }
        } else {
          assert false;
        }
      }
    }

    /** Numbers the items of one list, and stops at a blank line, another text or the end. */
    method RenumberList(start: Chunk, ghost qs: seq<Piece>, ghost k0: nat) returns (curr: Chunk, ghost k: nat)
      requires Linked() && Canonical(qs) && 1 <= k0 < |spine| == |qs| && start == spine[k0]
      requires shape == Cleaned(qs, k0) && !qs[k0].head
      requires ListEnds(qs, k0) && (qs[k0].newline || k0 == 1)
      modifies this`shape, repr`arr
      ensures Linked() && k0 <= k < |spine| && curr == spine[k] && shape == Cleaned(qs, k)
      ensures qs[k].head || (k < |qs| - 1 && Cleaned(qs, k + 1) == Cleaned(qs, k) && ListEnds(qs, k + 1)
                             && (qs[k + 1].newline || qs[k + 1].head))
    {
      hide Chained, Holds, Distinct, Layout, Renumber, Gathered, Trail, Cleaned, Canonical, Numbered;
      curr, k := start, k0;
      var num: nat := 1;
      ListStarts(qs, k0);
      while true
        invariant k0 <= k < |spine| && curr == spine[k]
        invariant Linked() && spine == old(spine) && shape == Cleaned(qs, k)
        invariant Counts(qs, k, num)
        decreases |spine| - k
      {
        CleanedAt(qs, k);
        HoldsAt(spine, shape, k);
        if curr.head {
          break;
        }
        CountStep(qs, k, num);
        ChainedNext(spine, k);
        HoldsAt(spine, shape, k + 1);
        if curr.newline && !curr.next.newline {
        } else if |curr.arr| >= 3 && '1' <= curr.arr[0] <= '9' && curr.arr[1] == '.' && curr.arr[2] == ' ' {
          StoreText(curr, [Digit(num)] + curr.arr[1..], k);
          num := num + 1;
        } else {
          break;
        }
        curr := curr.next;
        k := k + 1;
      }
    }

    /** A chunk's text goes behind the text of the chunk before, and the chunk out of the list. */
    method MoveText(fill: Chunk, curr: Chunk, lenb: nat, ghost p: nat)
      requires Linked() && 2 <= p < |spine| - 1 && spine[p - 1] == fill && spine[p] == curr && lenb == |fill.arr|
      modifies this`spine, this`shape, repr`next, repr`prev, fill`arr
      ensures Linked() && curr.next == old(spine)[p + 1]
      ensures spine == old(spine)[..p] + old(spine)[p + 1..]
      ensures spine[p - 1] == fill && spine[p] == curr.next
      ensures var qs := old(shape)[p - 1 := old(shape)[p - 1].(text := old(fill.arr) + old(curr.arr))];
        shape == qs[..p] + qs[p + 1..]
    {
      hide Chained, Holds, Distinct;
      ChainedNext(spine, p);
      ChainedPrev(spine, p);
      SameIndexAs(spine, p, p - 1);
      assert fill.arr[..lenb] == fill.arr;
      StoreText(fill, fill.arr[..lenb] + curr.arr, p - 1);
      Unlink(curr, p);
    }

    /** The text of `curr` goes to the line that `fill` gathers. */
    method GatherText(fill: Chunk, curr: Chunk, lenb: nat, ghost ps: seq<Piece>, ghost k: nat, ghost p: nat)
      returns (next: Chunk, ghost p': nat)
      requires Linked() && WellFormed(ps) && 1 <= k < |ps| - 1 && 1 <= p == SweptTo(ps, k) < |spine| - 1
      requires shape == Swept(ps, k) && curr == spine[p] && |spine| == p + |ps| - k
      requires !ps[k].tbd && ps[k].text != "" && !ps[k].newline
      requires var line := Last(Gathered(ps[..k]));
        lenb == |line| && fill == if line == "" then curr else spine[p - 1]
      modifies this`spine, this`shape, repr`next, repr`prev, repr`arr, repr`tbi
      ensures Linked() && shape == Swept(ps, k + 1) && 1 < p' == SweptTo(ps, k + 1) < |spine|
      ensures |spine| == p' + |ps| - (k + 1)
      ensures next == spine[p'] && fill == spine[p' - 1]
    {
      hide Chained, Holds, Distinct, Gathered, Swept, SweptTo, WellFormed, Last, Init;
      SweptAt(ps, k);
      HoldsAt(spine, shape, p);
      SameIndexAs(spine, p, p - 1);
      ChainedNext(spine, p);
      if fill != curr {
        SweptFill(ps, k);
        HoldsAt(spine, shape, p - 1);
        MoveText(fill, curr, lenb, p);
        next, p' := curr.next, p;
      } else {
        SweptKeep(ps, k);
        assert fill.arr[..lenb] + curr.arr == curr.arr;
        StoreText(fill, fill.arr[..lenb] + curr.arr, p);
        next, p' := curr.next, p + 1;
        ClearPending(fill, p);
      }
    }

    /** The sweep: `curr` visits every chunk once, and `fill` is the chunk that gathers the current line,
        `curr` itself while the line is empty. */
    method GatherLines() returns (sizeOfDoc: nat)
      requires Linked() && WellFormed(shape)
      modifies this`spine, this`shape, repr
      ensures Linked() && shape == Canon(Gathered(old(shape)))
      ensures sizeOfDoc == |Merged(old(shape))|
    {
      hide Chained, Holds, Distinct, Gathered, Merged, Swept, SweptTo, Layout, WellFormed, Size, Canon, Renumber;
      ghost var ps := shape;
      SweptStart(ps);
      ChainedNext(spine, 0);
      var curr := HEAD.next;
      var fill := curr;
      var len, lenb := 0, 0;
      sizeOfDoc := 0;
      ghost var k, p := 1, 1;
      while true
        invariant 1 <= k < |ps| && 1 <= p < |spine| && curr == spine[p] && p == SweptTo(ps, k)
        invariant Linked() && shape == Swept(ps, k) && repr == old(repr)
        invariant Last(Gathered(ps[..k])) == "" ==> fill == curr
        invariant Last(Gathered(ps[..k])) != "" ==> fill == spine[p - 1]
        invariant len == lenb == |Last(Gathered(ps[..k]))| && sizeOfDoc + len == |Merged(ps[..k])|
        decreases |ps| - k
      {
        SweptAt(ps, k);
        HoldsAt(spine, shape, p);
        SameIndexAs(spine, p, p - 1);
        if curr.head {
          sizeOfDoc := sizeOfDoc + len;
          break;
        }
        GatheredStep(ps, k);
        LastSize(ps, k);
        ChainedNext(spine, p);
        ChainedPrev(spine, p);
        if curr.tbd || |curr.arr| == 0 {
          SweptDrop(ps, k);
          if fill == curr {
            fill := fill.next;
          }
          var temp := curr;
          Unlink(temp, p);
          curr := curr.next;
          k := k + 1;
          continue;
        } else if curr.newline {
          SweptKeep(ps, k);
          ClearPending(curr, p);
          fill := curr.next;
          sizeOfDoc := sizeOfDoc + len + 1;
          len := 0;
          lenb := 0;
          p := p + 1;
        } else {
          var added := |curr.arr|;
          len := len + added;
          curr, p := GatherText(fill, curr, lenb, ps, k, p);
          lenb := lenb + added;
          k := k + 1;
          continue;
        }
        curr := curr.next;
        k := k + 1;
      }
      SweptEnd(ps);
    }

    /** The next version: deleted and empty chunks go, the others are gathered into one chunk a line, and the
        lists are renumbered. */
    method IncrementVersion()
      requires Valid()
      modifies this`size, this`version, this`spine, this`shape, repr
      ensures Valid()
      ensures shape == Commit(old(shape))
      ensures version == old(version) + 1
    {
      hide Chained, Holds, Distinct, Gathered, Merged, Layout, WellFormed, Size, Canon, Renumber, Commit;
      CommitSteps(shape);
      ghost var ps := shape;
      var sizeOfDoc := GatherLines();
      ListCleanup(Gathered(ps));
      size := sizeOfDoc;
      version := version + 1;
    }
  }
}
