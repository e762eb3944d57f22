/** The edit commands on the chunk values, and their meaning on the reference document
    (source/markdown.c). */
module Commands {
  import opened Seqs
  import opened Pieces
  import opened Drafts
  import opened Lines

  const SUCCESS := 0
  const INVALID_POSITION := -1
  const DELETED_POSITION := -2
  const OUTDATED_VERSION := -3

  datatype Command =
    | Insert(pos: int, content: string)
    | Del(pos: int, len: int)
    | Newline(pos: int)
    | Heading(level: int, pos: int)
    | Bold(start: int, end: int)
    | Italic(start: int, end: int)
    | Blockquote(pos: int)
    | OrderedList(pos: int)
    | UnorderedList(pos: int)
    | Code(start: int, end: int)
    | HorizontalRule(pos: int)
    | Link(start: int, end: int, url: string)

  /** What C leaves defined: a range command walks off the list when a position is beyond the document,
      and heading levels other than 1 to 3 leave the marker uninitialised. */
  predicate Defined(cmd: Command, size: nat) {
    match cmd
    case Heading(level, _) => 1 <= level <= 3
    case Bold(s, e) => s <= size && e <= size
    case Italic(s, e) => s <= size && e <= size
    case Code(s, e) => s <= size && e <= size
    case Link(s, e, _) => s <= size && e <= size
    case _ => true
  }

  /** The commands that only insert or only delete. */
  predicate Simple(cmd: Command) {
    cmd.Insert? || cmd.Newline? || cmd.Del?
  }

  predicate InRange(pos: int, size: nat) {
    0 <= pos <= size
  }

  /** Where a deletion ends: a length beyond the end of the document, or below 0 (a huge `size_t`), is
      cut off at the end. */
  function DelEnd(pos: nat, len: int, size: nat): (to: nat)
    requires pos <= size
    ensures pos <= to <= size
  {
    if len < 0 || len > size - pos then size else pos + len
  }

  function HeadingMarker(level: int): string {
    if level == 1 then "# " else if level == 2 then "## " else "### "
  }

  const QUOTE_MARKER := "> "
  const BULLET_MARKER := "- "
  const RULE_MARKER := "---"

  function ItemMarker(digit: char): string {
    [digit, '.', ' ']
  }

  // ---------- chunk values ----------

  ghost predicate Pending(p: Piece) {
    p.tbi && !p.tbd && !p.head && (p.newline ==> p.text == "\n")
  }

  /** A pending chunk is linked in at the cursor. */
  function Place(ps: seq<Piece>, pos: nat, p: Piece): (qs: seq<Piece>)
    requires WellFormed(ps) && pos <= Size(ps) && Pending(p)
    ensures WellFormed(qs) && Size(qs) == Size(ps)
  {
    PlaceKeeps(ps, pos, p);
    Spliced(Cut(ps, Locate(ps, pos), Offset(ps, pos)), Locate(ps, pos) + 1, p)
  }

  /** The committed chunks between two cursors are marked.  The end is split off first, so the start may
      find its chunk shortened. */
  function Erase(ps: seq<Piece>, from: nat, to: nat): (qs: seq<Piece>)
    requires WellFormed(ps) && from <= to <= Size(ps)
    ensures WellFormed(qs) && Size(qs) == Size(ps)
  {
    hide Locate, Offset, Cut, Abs;
    EraseKeeps(ps, from, to);
    var i, j := Locate(ps, from), Locate(ps, to);
    Marked(Cut(Cut(ps, j, Offset(ps, to)), i, Offset(ps, from)), i + 1, j + 2)
  }

  lemma CutShape(ps: seq<Piece>, i: nat, off: nat)
    requires WellFormed(ps) && i < |ps| - 1 && off <= |ps[i].text| && !ps[i].tbi
    requires ps[i].newline ==> off == |ps[i].text|
    ensures WellFormed(Cut(ps, i, off)) && Size(Cut(ps, i, off)) == Size(ps)
    ensures Abs(Cut(ps, i, off)) == Abs(ps)
    ensures Size(Cut(ps, i, off)[..i + 1]) == Size(ps[..i]) + off
  {
    hide Size, Abs;
    var qs := Cut(ps, i, off);
    assert forall k :: 0 <= k < |qs| ==>
      qs[k] == if k < i then ps[k] else if k == i then Left(ps[i], off)
               else if k == i + 1 then Right(ps[i], off) else ps[k - 1];
    CutKeeps(ps, i, off);
    AbsSize(ps);
    AbsSize(qs);
    SizeSnoc(qs, i);
    assert qs[..i] == ps[..i];
  }

  lemma SpliceShape(ps: seq<Piece>, k: nat, p: Piece)
    requires WellFormed(ps) && 0 < k < |ps| && Pending(p)
    ensures WellFormed(Spliced(ps, k, p)) && Size(Spliced(ps, k, p)) == Size(ps)
  {
    hide Size, WellFormed;
    SizeSpliced(ps, k, p);
    SpliceWellFormed(ps, k, p);
  }

  lemma SpliceWellFormed(ps: seq<Piece>, k: nat, p: Piece)
    requires WellFormed(ps) && 0 < k < |ps| && Pending(p)
    ensures WellFormed(Spliced(ps, k, p))
  {
    var qs := Spliced(ps, k, p);
    assert forall m :: 0 <= m < k ==> qs[m] == ps[m];
    assert forall m :: k < m < |qs| ==> qs[m] == ps[m - 1];
  }

  lemma SizeSpliced(ps: seq<Piece>, k: nat, p: Piece)
    requires k <= |ps| && p.tbi
    ensures Size(Spliced(ps, k, p)) == Size(ps)
  {
    hide Size;
    SizeConcat(ps[..k] + [p], ps[k..]);
    SizeConcat(ps[..k], [p]);
    SizeConcat(ps[..k], ps[k..]);
    assert ps == ps[..k] + ps[k..];
    SizeOne(p);
  }

  lemma SizeOne(p: Piece)
    ensures Size([p]) == Weight(p)
  {
    assert Init([p]) == [];
  }

  lemma MarkShape(ps: seq<Piece>, lo: nat, hi: nat)
    requires WellFormed(ps) && 0 < lo <= hi < |ps|
    ensures WellFormed(Marked(ps, lo, hi)) && Size(Marked(ps, lo, hi)) == Size(ps)
  {
    hide Size, Abs;
    MarkDeletes(ps, lo, hi);
    AbsSize(ps);
    AbsSize(Marked(ps, lo, hi));
    assert Marked(ps, lo, hi)[0] == ps[0];
  }

  lemma PlaceKeeps(ps: seq<Piece>, pos: nat, p: Piece)
    requires WellFormed(ps) && pos <= Size(ps) && Pending(p)
    ensures var qs := Spliced(Cut(ps, Locate(ps, pos), Offset(ps, pos)), Locate(ps, pos) + 1, p);
      WellFormed(qs) && Size(qs) == Size(ps)
  {
    hide Size, Abs;
    var i, off := Locate(ps, pos), Offset(ps, pos);
    CutShape(ps, i, off);
    SpliceShape(Cut(ps, i, off), i + 1, p);
  }

  lemma EraseKeeps(ps: seq<Piece>, from: nat, to: nat)
    requires WellFormed(ps) && from <= to <= Size(ps)
    ensures var i, j, a, b := Locate(ps, from), Locate(ps, to), Offset(ps, from), Offset(ps, to);
      && i <= j < |ps| - 1
      && var qs := Cut(ps, j, b);
      && i < |qs| && a <= |qs[i].text|
      && var rs := Cut(qs, i, a);
      && WellFormed(rs) && Abs(rs) == Abs(ps)
      && Size(rs[..i + 1]) == from && Size(rs[..j + 2]) == to
      && WellFormed(Marked(rs, i + 1, j + 2)) && Size(Marked(rs, i + 1, j + 2)) == Size(ps)
  {
    hide Size, Abs, Seek, Cut, Marked;
    var i, j, a, b := Locate(ps, from), Locate(ps, to), Offset(ps, from), Offset(ps, to);
    LocateMonotone(ps, from, to);
    CutShape(ps, j, b);
    SecondCut(ps, i, a, j, b);
    hide WellFormed;
    CutShape(Cut(ps, j, b), i, a);
    CutLength(ps, j, b);
    SizeBehind(Cut(ps, j, b), i, a, j + 1);
    CutLength(Cut(ps, j, b), i, a);
    MarkShape(Cut(Cut(ps, j, b), i, a), i + 1, j + 2);
  }

  lemma CutLength(ps: seq<Piece>, i: nat, off: nat)
    requires i < |ps| && off <= |ps[i].text|
    ensures |Cut(ps, i, off)| == |ps| + 1
  {
  }

  /** The start cursor still fits after the end was split off, even from the same chunk. */
  lemma SecondCut(ps: seq<Piece>, i: nat, a: nat, j: nat, b: nat)
    requires i <= j < |ps| && b <= |ps[j].text| && !ps[i].tbi && !ps[j].tbi
    requires if i == j then a <= b else a <= |ps[i].text|
    requires ps[i].newline ==> a == if i == j then b else |ps[i].text|
    ensures var qs := Cut(ps, j, b);
      && i < |qs| && !qs[i].tbi && a <= |qs[i].text| && (qs[i].newline ==> a == |qs[i].text|)
      && qs[..i] == ps[..i]
  {
    assert Cut(ps, j, b)[i] == if i < j then ps[i] else Left(ps[j], b);
  }

  lemma SizeBehind(ps: seq<Piece>, i: nat, off: nat, k: nat)
    requires WellFormed(ps) && i < |ps| - 1 && off <= |ps[i].text| && !ps[i].tbi
    requires i < k <= |ps|
    ensures Size(Cut(ps, i, off)[..k + 1]) == Size(ps[..k])
  {
    var l, r := Left(ps[i], off), Right(ps[i], off);
    assert Cut(ps, i, off)[..k + 1] == ps[..i] + [l, r] + ps[i + 1..k];
    assert ps[..k] == ps[..i] + [ps[i]] + ps[i + 1..k];
    SizeConcat(ps[..i] + [l, r], ps[i + 1..k]);
    SizeConcat(ps[..i], [l, r]);
    SizeConcat(ps[..i] + [ps[i]], ps[i + 1..k]);
    SizeConcat(ps[..i], [ps[i]]);
    assert [l, r][..1] == [l] && [l][..0] == [] && [ps[i]][..0] == [];
    assert Size([l, r]) == Size([ps[i]]);
  }

  /** Inserting at a position makes the content the newest text of that gap, however the committed text
      is split into chunks. */
  lemma PlaceMeaning(ps: seq<Piece>, pos: nat, p: Piece)
    requires WellFormed(ps) && pos <= Size(ps) && Pending(p)
    ensures pos <= |Abs(ps).cells|
    ensures Abs(Place(ps, pos, p)) == Abs(ps).Insert(pos, Glyphs(p))
  {
    hide Size, Abs, Seek, Glyphs, Draft.Insert, WellFormed;
    var i, off := Locate(ps, pos), Offset(ps, pos);
    CutShape(ps, i, off);
    var qs := Cut(ps, i, off);
    assert qs[i] == Left(ps[i], off);
    AbsSize(ps);
    SpliceInserts(qs, i + 1, p);
    assert Size(ps[..i]) + off == pos by { OffsetSum(ps, pos); }
  }

  lemma OffsetSum(ps: seq<Piece>, pos: nat)
    requires WellFormed(ps) && pos <= Size(ps)
    ensures Size(ps[..Locate(ps, pos)]) + Offset(ps, pos) == pos
  {
  }

  /** A deletion marks exactly the committed characters between its two positions, and no pending text. */
  lemma EraseMeaning(ps: seq<Piece>, from: nat, to: nat)
    requires WellFormed(ps) && from <= to <= Size(ps)
    ensures Abs(Erase(ps, from, to)) == Abs(ps).Delete(from, to)
  {
    hide Size, Abs, Marked, Draft.Delete, WellFormed, Locate, Offset, Left, Right;
    EraseKeeps(ps, from, to);
    var i, j := Locate(ps, from), Locate(ps, to);
    MarkDeletes(Cut(Cut(ps, j, Offset(ps, to)), i, Offset(ps, from)), i + 1, j + 2);
  }

  /** The chunk under the cursor holds the character before the position, with its deletion mark. */
  lemma CursorCell(ps: seq<Piece>, pos: nat)
    requires WellFormed(ps) && 0 < pos <= Size(ps)
    ensures pos <= |Abs(ps).cells|
    ensures var p := ps[Locate(ps, pos)];
      && Abs(ps).cells[pos - 1].glyph == Glyphs(p)[Offset(ps, pos) - 1]
      && Abs(ps).cells[pos - 1].dead == p.tbd
      && p.newline == Abs(ps).cells[pos - 1].glyph.Brk?
  {
    hide Size, Abs;
    var i, off := Locate(ps, pos), Offset(ps, pos);
    var a, p, b := ps[..i], ps[i], ps[i + 1..];
    assert ps == a + [p] + b;
    AbsThree(a, [p], b);
    AbsOne(p);
    AbsSize(a);
    AbsSize(ps);
    JoinCell(Abs(a), One(p), Abs(b), off - 1);
  }

  lemma JoinCell(a: Draft, p: Draft, b: Draft, k: nat)
    requires k < |p.cells|
    ensures var d := a.Join(p).Join(b);
      && |a.cells| + k < |d.cells|
      && d.cells[|a.cells| + k].glyph == p.cells[k].glyph
      && d.cells[|a.cells| + k].dead == p.cells[k].dead
  {
  }

  // ---------- the commands ----------

  function TryPlace(ps: seq<Piece>, pos: int, content: string): (qs: seq<Piece>)
    requires WellFormed(ps)
    ensures WellFormed(qs) && Size(qs) == Size(ps)
  {
    if InRange(pos, Size(ps)) then Place(ps, pos, Fresh(content)) else ps
  }

  /** A marker at the cursor and, unless the cursor follows a newline or starts the document, a line
      break before it. */
  function Block(ps: seq<Piece>, pos: nat, marker: string): (qs: seq<Piece>)
    requires WellFormed(ps) && pos <= Size(ps)
    ensures WellFormed(qs) && Size(qs) == Size(ps)
  {
    var qs := Place(ps, pos, Fresh(marker));
    if ps[Locate(ps, pos)].newline || ps[Locate(ps, pos)].head then qs else Place(qs, pos, BREAK)
  }

  /** A horizontal rule wants a line break behind it, too. */
  function Rule(ps: seq<Piece>, pos: nat): (qs: seq<Piece>)
    requires WellFormed(ps) && pos <= Size(ps)
    ensures WellFormed(qs) && Size(qs) == Size(ps)
  {
    if pos == Size(ps) || !ps[Locate(ps, pos + 1)].newline then Block(Place(ps, pos, BREAK), pos, RULE_MARKER)
    else Block(ps, pos, RULE_MARKER)
  }

  function Wrap(ps: seq<Piece>, start: int, end: int, open: string, close: string): (r: (seq<Piece>, int))
    requires WellFormed(ps) && start <= Size(ps) && end <= Size(ps)
    ensures WellFormed(r.0) && Size(r.0) == Size(ps)
    ensures r.1 != SUCCESS ==> r.0 == ps
  {
    if ps[Locate(ps, start)].tbd && ps[Locate(ps, end)].tbd then (ps, DELETED_POSITION)
    else (TryPlace(TryPlace(ps, start, open), end, close), SUCCESS)
  }

  /** The last committed newline chunk at or before chunk i, or the front sentinel. */
  function NewlineBehind(ps: seq<Piece>, i: nat): (k: nat)
    requires i < |ps|
    ensures k <= i
  {
    if i == 0 || (ps[i].newline && !ps[i].tbi) then i else NewlineBehind(ps, i - 1)
  }

  /** The first committed chunk with any text from chunk k on, or the back sentinel. */
  function CommittedFrom(ps: seq<Piece>, k: nat): (m: nat)
    requires k < |ps|
    ensures k <= m < |ps|
    decreases |ps| - k
  {
    if k == |ps| - 1 || (!ps[k].tbi && ps[k].text != "") then k else CommittedFrom(ps, k + 1)
  }

  /** The scan backwards ends at the nearest newline chunk that is not pending. */
  lemma {:induction false} NearestBehind(ps: seq<Piece>, i: nat)
    requires i < |ps|
    ensures var k := NewlineBehind(ps, i);
      && (k > 0 ==> ps[k].newline && !ps[k].tbi)
      && forall j :: k < j <= i ==> !ps[j].newline || ps[j].tbi
  {
    if i > 0 && (!ps[i].newline || ps[i].tbi) {
      NearestBehind(ps, i - 1);
    }
  }

  /** The scan forwards ends at the nearest chunk with text that is not pending. */
  lemma {:induction false} NearestFrom(ps: seq<Piece>, k: nat)
    requires k < |ps|
    ensures var m := CommittedFrom(ps, k);
      && (m < |ps| - 1 ==> !ps[m].tbi && ps[m].text != "")
      && forall j :: k <= j < m ==> ps[j].tbi || ps[j].text == ""
    decreases |ps| - k
  {
    if k < |ps| - 1 && (ps[k].tbi || ps[k].text == "") {
      NearestFrom(ps, k + 1);
    }
  }

  /** The number after the one the current line starts with, as in_list_check finds it among chunks that
      pending edits may have split already; -1 or 0 if there is none. */
  function ListNumber(ps: seq<Piece>, i: nat): int
    requires WellFormed(ps) && i < |ps| - 1
  {
    var k := NewlineBehind(ps, i);
    if k == 0 then -1
    else
      var m := CommittedFrom(ps, k + 1);
      if m == |ps| - 1 then -1
      else if IsItem(ps[m].text) then (ps[m].text[0] as int - '0' as int) + 1
      else 0
  }

  /** The provisional digit of a new list item. */
  function ItemDigit(ps: seq<Piece>, pos: nat): (c: char)
    requires WellFormed(ps) && pos <= Size(ps)
    ensures '1' <= c <= '9'
  {
    var num := ListNumber(ps, Locate(ps, pos));
    if 2 <= num <= 9 then Digit(num) else '1'
  }

  /** One edit command, given the current version: the new chunk values and the result code. */
  function Exec(ps: seq<Piece>, cmd: Command): (r: (seq<Piece>, int))
    requires WellFormed(ps) && Defined(cmd, Size(ps))
    ensures WellFormed(r.0) && Size(r.0) == Size(ps)
    ensures r.1 != SUCCESS ==> r.0 == ps
  {
    var refused := (ps, INVALID_POSITION);
    match cmd
    case Insert(pos, content) =>
      if !InRange(pos, Size(ps)) then refused else (Place(ps, pos, Fresh(content)), SUCCESS)
    case Del(pos, len) =>
      if !InRange(pos, Size(ps)) then refused else (Erase(ps, pos, DelEnd(pos, len, Size(ps))), SUCCESS)
    case Newline(pos) =>
      if !InRange(pos, Size(ps)) then refused else (Place(ps, pos, BREAK), SUCCESS)
    case Heading(level, pos) =>
      if !InRange(pos, Size(ps)) then refused else (Block(ps, pos, HeadingMarker(level)), SUCCESS)
    case Blockquote(pos) =>
      if !InRange(pos, Size(ps)) then refused else (Block(ps, pos, QUOTE_MARKER), SUCCESS)
    case OrderedList(pos) =>
      if !InRange(pos, Size(ps)) then refused else (Block(ps, pos, ItemMarker(ItemDigit(ps, pos))), SUCCESS)
    case UnorderedList(pos) =>
      if !InRange(pos, Size(ps)) then refused else (Block(ps, pos, BULLET_MARKER), SUCCESS)
    case HorizontalRule(pos) =>
      if !InRange(pos, Size(ps)) then refused else (Rule(ps, pos), SUCCESS)
    case Bold(start, end) => Wrap(ps, start, end, "**", "**")
    case Italic(start, end) => Wrap(ps, start, end, "*", "*")
    case Code(start, end) => Wrap(ps, start, end, "`", "`")
    case Link(start, end, url) => Wrap(ps, start, end, "[", "](" + url + ")")
  }

  predicate IsRange(cmd: Command) {
    cmd.Bold? || cmd.Italic? || cmd.Code? || cmd.Link?
  }

  /** One edit command that names a version.  An outdated version is refused after the position was found
      valid, except that the range commands ignore what their two insertions report. */
  function Respond(ps: seq<Piece>, cmd: Command, current: bool): (r: (seq<Piece>, int))
    requires WellFormed(ps) && Defined(cmd, Size(ps))
    ensures WellFormed(r.0) && Size(r.0) == Size(ps)
    ensures r.1 != SUCCESS ==> r.0 == ps
  {
    if current || Exec(ps, cmd).1 != SUCCESS then Exec(ps, cmd)
    else if IsRange(cmd) then (ps, SUCCESS)
    else (ps, OUTDATED_VERSION)
  }

  // ---------- the commands on the reference document ----------

  function TryInsert(d: Draft, pos: int, content: string): (e: Draft)
    ensures |e.cells| == |d.cells|
  {
    if InRange(pos, |d.cells|) then d.Insert(pos, Chars(content)) else d
  }

  predicate AfterText(d: Draft, pos: nat)
    requires pos <= |d.cells|
  {
    pos > 0 && d.cells[pos - 1].glyph.Ch?
  }

  /** The line break that comes with a marker placed behind text. */
  function Opening(d: Draft, pos: nat): seq<Glyph>
    requires pos <= |d.cells|
  {
    if AfterText(d, pos) then [Brk] else []
  }

  /** The rule's own line break, if no newline follows. */
  function Closing(d: Draft, pos: nat): seq<Glyph> {
    if pos < |d.cells| && d.cells[pos].glyph.Brk? then [] else [Brk]
  }

  function DraftBlock(d: Draft, pos: nat, marker: string): (e: Draft)
    requires pos <= |d.cells|
    ensures |e.cells| == |d.cells|
  {
    d.Insert(pos, Opening(d, pos) + Chars(marker))
  }

  function DraftRule(d: Draft, pos: nat): (e: Draft)
    requires pos <= |d.cells|
    ensures |e.cells| == |d.cells|
  {
    d.Insert(pos, Opening(d, pos) + Chars(RULE_MARKER) + Closing(d, pos))
  }

  predicate Deleted(d: Draft, pos: int)
    requires pos <= |d.cells|
  {
    pos > 0 && d.cells[pos - 1].dead
  }

  function DraftWrap(d: Draft, start: int, end: int, open: string, close: string): (r: (Draft, int))
    requires start <= |d.cells| && end <= |d.cells|
    ensures |r.0.cells| == |d.cells|
  {
    if Deleted(d, start) && Deleted(d, end) then (d, DELETED_POSITION)
    else (TryInsert(TryInsert(d, start, open), end, close), SUCCESS)
  }

  /** One edit command on the reference document; a new list item carries the given provisional digit. */
  function Apply(d: Draft, cmd: Command, digit: char): (r: (Draft, int))
    requires Defined(cmd, |d.cells|)
    ensures |r.0.cells| == |d.cells|
  {
    var n := |d.cells|;
    var refused := (d, INVALID_POSITION);
    match cmd
    case Insert(pos, content) => if !InRange(pos, n) then refused else (d.Insert(pos, Chars(content)), SUCCESS)
    case Del(pos, len) => if !InRange(pos, n) then refused else (d.Delete(pos, DelEnd(pos, len, n)), SUCCESS)
    case Newline(pos) => if !InRange(pos, n) then refused else (d.Insert(pos, [Brk]), SUCCESS)
    case Heading(level, pos) =>
      if !InRange(pos, n) then refused else (DraftBlock(d, pos, HeadingMarker(level)), SUCCESS)
    case Blockquote(pos) => if !InRange(pos, n) then refused else (DraftBlock(d, pos, QUOTE_MARKER), SUCCESS)
    case OrderedList(pos) => if !InRange(pos, n) then refused else (DraftBlock(d, pos, ItemMarker(digit)), SUCCESS)
    case UnorderedList(pos) => if !InRange(pos, n) then refused else (DraftBlock(d, pos, BULLET_MARKER), SUCCESS)
    case HorizontalRule(pos) => if !InRange(pos, n) then refused else (DraftRule(d, pos), SUCCESS)
    case Bold(start, end) => DraftWrap(d, start, end, "**", "**")
    case Italic(start, end) => DraftWrap(d, start, end, "*", "*")
    case Code(start, end) => DraftWrap(d, start, end, "`", "`")
    case Link(start, end, url) => DraftWrap(d, start, end, "[", "](" + url + ")")
  }

  function Hint(ps: seq<Piece>, cmd: Command): (c: char)
    requires WellFormed(ps)
    ensures '1' <= c <= '9'
  {
    if cmd.OrderedList? && InRange(cmd.pos, Size(ps)) then ItemDigit(ps, cmd.pos) else '1'
  }

  /** Every command does to the chunks what its reference does to the document. */
  lemma ExecMeaning(ps: seq<Piece>, cmd: Command)
    requires WellFormed(ps) && Defined(cmd, Size(ps))
    ensures |Abs(ps).cells| == Size(ps)
    ensures Abs(Exec(ps, cmd).0) == Apply(Abs(ps), cmd, Hint(ps, cmd)).0
    ensures Exec(ps, cmd).1 == Apply(Abs(ps), cmd, Hint(ps, cmd)).1
  {
    hide Abs, Size, Locate, Place, Erase, Draft.Insert, Draft.Delete, Block, Rule, Wrap,
      DraftBlock, DraftRule, DraftWrap, ItemDigit, WellFormed;
    AbsSize(ps);
    match cmd
    case Insert(pos, content) =>
      if InRange(pos, Size(ps)) { PlaceMeaning(ps, pos, Fresh(content)); }
    case Del(pos, len) =>
      if InRange(pos, Size(ps)) { EraseMeaning(ps, pos, DelEnd(pos, len, Size(ps))); }
    case Newline(pos) =>
      if InRange(pos, Size(ps)) { PlaceMeaning(ps, pos, BREAK); assert Glyphs(BREAK) == [Brk]; }
    case Heading(level, pos) => if InRange(pos, Size(ps)) { BlockMeaning(ps, pos, HeadingMarker(level)); }
    case Blockquote(pos) => if InRange(pos, Size(ps)) { BlockMeaning(ps, pos, QUOTE_MARKER); }
    case OrderedList(pos) =>
      if InRange(pos, Size(ps)) { BlockMeaning(ps, pos, ItemMarker(ItemDigit(ps, pos))); }
    case UnorderedList(pos) => if InRange(pos, Size(ps)) { BlockMeaning(ps, pos, BULLET_MARKER); }
    case HorizontalRule(pos) => if InRange(pos, Size(ps)) { RuleMeaning(ps, pos); }
    case Bold(start, end) => WrapMeaning(ps, start, end, "**", "**");
    case Italic(start, end) => WrapMeaning(ps, start, end, "*", "*");
    case Code(start, end) => WrapMeaning(ps, start, end, "`", "`");
    case Link(start, end, url) => WrapMeaning(ps, start, end, "[", "](" + url + ")");
  }

  /** Exactly when a command is refused, and with what: an invalid position is reported by the commands with one
      position, a deleted one by the range commands, if the characters before both positions are deleted, and an
      outdated version by the commands with one position, if that is valid.  For an outdated version nothing is
      done, whatever is reported. */
  lemma ResultCodes(ps: seq<Piece>, cmd: Command, current: bool)
    requires WellFormed(ps) && Defined(cmd, Size(ps))
    ensures |Abs(ps).cells| == Size(ps)
    ensures var (qs, code) := Respond(ps, cmd, current);
      && (code == INVALID_POSITION == -1 <==> !IsRange(cmd) && !InRange(cmd.pos, Size(ps)))
      && (code == DELETED_POSITION == -2 <==> IsRange(cmd) && Deleted(Abs(ps), cmd.start) && Deleted(Abs(ps), cmd.end))
      && (code == OUTDATED_VERSION == -3 <==> !current && !IsRange(cmd) && InRange(cmd.pos, Size(ps)))
      && (code == SUCCESS == 0 || code in [INVALID_POSITION, DELETED_POSITION, OUTDATED_VERSION])
      && (code == SUCCESS && current ==> Abs(qs) == Apply(Abs(ps), cmd, Hint(ps, cmd)).0)
      && (code != SUCCESS || !current ==> qs == ps)
  {
    hide Abs, Size, Exec, Draft.Insert, Draft.Delete, DraftBlock, DraftRule, TryInsert, WellFormed, Hint;
    ExecMeaning(ps, cmd);
  }

  /** The documented reason for INVALID_POSITION: a position outside the document, or a range whose end does not
      follow its start. */
  predicate Misplaced(cmd: Command, size: nat) {
    if IsRange(cmd) then !InRange(cmd.start, size) || !InRange(cmd.end, size) || cmd.end <= cmd.start
    else !InRange(cmd.pos, size)
  }

  /** The documented reason for DELETED_POSITION: a position that points to deleted text. */
  predicate PointsToDeleted(cmd: Command, d: Draft)
    requires Defined(cmd, |d.cells|)
  {
    if IsRange(cmd) then Deleted(d, cmd.start) || Deleted(d, cmd.end)
    else InRange(cmd.pos, |d.cells|) && Deleted(d, cmd.pos)
  }

  /** Where the code keeps to the documentation: INVALID_POSITION is reported as announced exactly for commands
      with one position and for well placed ranges, DELETED_POSITION exactly for ranges of which both ends or
      neither point to deleted text and for single positions that do not, and OUTDATED_VERSION exactly for current
      versions and for commands with one position that is valid: range commands never report it. */
  lemma CodesAsDocumented(ps: seq<Piece>, cmd: Command, current: bool)
    requires WellFormed(ps) && Defined(cmd, Size(ps))
    ensures |Abs(ps).cells| == Size(ps)
    ensures var code := Respond(ps, cmd, current).1;
      && ((code == INVALID_POSITION <==> Misplaced(cmd, Size(ps))) <==> !IsRange(cmd) || !Misplaced(cmd, Size(ps)))
      && ((code == DELETED_POSITION <==> PointsToDeleted(cmd, Abs(ps)))
            <==> if IsRange(cmd) then Deleted(Abs(ps), cmd.start) == Deleted(Abs(ps), cmd.end)
                 else !PointsToDeleted(cmd, Abs(ps)))
      && ((code == OUTDATED_VERSION <==> !current) <==> current || (!IsRange(cmd) && !Misplaced(cmd, Size(ps))))
  {
    hide Abs, Size, Exec, Respond, WellFormed;
    ResultCodes(ps, cmd, current);
  }

  lemma CursorBreak(ps: seq<Piece>, pos: nat)
    requires WellFormed(ps) && pos <= Size(ps)
    ensures pos <= |Abs(ps).cells|
    ensures ps[Locate(ps, pos)].head == (pos == 0)
    ensures ps[Locate(ps, pos)].newline == (pos > 0 && Abs(ps).cells[pos - 1].glyph.Brk?)
    ensures ps[Locate(ps, pos)].tbd == (pos > 0 && Abs(ps).cells[pos - 1].dead)
  {
    hide Abs;
    if pos > 0 {
      CursorCell(ps, pos);
    }
  }

  lemma InsertTwice(d: Draft, pos: nat, a: seq<Glyph>, b: seq<Glyph>)
    requires pos <= |d.cells|
    ensures d.Insert(pos, a).Insert(pos, b) == d.Insert(pos, b + a)
  {
    assert b + (a + d.Gap(pos)) == b + a + d.Gap(pos);
  }

  lemma BlockMeaning(ps: seq<Piece>, pos: nat, marker: string)
    requires WellFormed(ps) && pos <= Size(ps)
    ensures pos <= |Abs(ps).cells|
    ensures Abs(Block(ps, pos, marker)) == DraftBlock(Abs(ps), pos, marker)
  {
    hide Abs, Size, Locate, Place, Draft.Insert, WellFormed;
    CursorBreak(ps, pos);
    PlaceMeaning(ps, pos, Fresh(marker));
    if AfterText(Abs(ps), pos) {
      PlaceMeaning(Place(ps, pos, Fresh(marker)), pos, BREAK);
      assert Glyphs(BREAK) == [Brk];
      InsertTwice(Abs(ps), pos, Chars(marker), [Brk]);
    } else {
      assert [] + Chars(marker) == Chars(marker);
    }
  }

  lemma RuleMeaning(ps: seq<Piece>, pos: nat)
    requires WellFormed(ps) && pos <= Size(ps)
    ensures pos <= |Abs(ps).cells|
    ensures Abs(Rule(ps, pos)) == DraftRule(Abs(ps), pos)
  {
    hide Abs, Size, Locate, Place, Draft.Insert, WellFormed, Block;
    AbsSize(ps);
    var front := Opening(Abs(ps), pos) + Chars(RULE_MARKER);
    if pos < Size(ps) { CursorBreak(ps, pos + 1); }
    if pos < Size(ps) && Abs(ps).cells[pos].glyph.Brk? {
      BlockMeaning(ps, pos, RULE_MARKER);
      assert front + [] == front;
    } else {
      var qs := Place(ps, pos, BREAK);
      PlaceMeaning(ps, pos, BREAK);
      assert Glyphs(BREAK) == [Brk];
      BlockMeaning(qs, pos, RULE_MARKER);
      InsertBase(Abs(ps), pos, [Brk]);
      InsertTwice(Abs(ps), pos, [Brk], front);
    }
  }

  lemma InsertBase(d: Draft, pos: nat, gs: seq<Glyph>)
    requires pos <= |d.cells|
    ensures |d.Insert(pos, gs).cells| == |d.cells|
    ensures forall k :: 0 <= k < |d.cells| ==>
      d.Insert(pos, gs).cells[k].glyph == d.cells[k].glyph && d.Insert(pos, gs).cells[k].dead == d.cells[k].dead
  {
  }

  lemma TryPlaceMeaning(ps: seq<Piece>, pos: int, content: string)
    requires WellFormed(ps)
    ensures Abs(TryPlace(ps, pos, content)) == TryInsert(Abs(ps), pos, content)
  {
    hide Abs, Size, Locate, Place, Draft.Insert, WellFormed;
    AbsSize(ps);
    if InRange(pos, Size(ps)) {
      PlaceMeaning(ps, pos, Fresh(content));
    }
  }

  lemma CursorDeleted(ps: seq<Piece>, pos: int)
    requires WellFormed(ps) && pos <= Size(ps)
    ensures pos <= |Abs(ps).cells|
    ensures ps[Locate(ps, pos)].tbd == Deleted(Abs(ps), pos)
  {
    hide Abs, Size, Seek;
    AbsSize(ps);
    if pos > 0 {
      CursorBreak(ps, pos);
    }
  }

  lemma WrapMeaning(ps: seq<Piece>, start: int, end: int, open: string, close: string)
    requires WellFormed(ps) && start <= Size(ps) && end <= Size(ps)
    ensures |Abs(ps).cells| == Size(ps)
    ensures Abs(Wrap(ps, start, end, open, close).0) == DraftWrap(Abs(ps), start, end, open, close).0
    ensures Wrap(ps, start, end, open, close).1 == DraftWrap(Abs(ps), start, end, open, close).1
  {
    hide Abs, Size, TryPlace, TryInsert, Draft.Insert, Locate, Deleted;
    AbsSize(ps);
    CursorDeleted(ps, start);
    CursorDeleted(ps, end);
    TryPlaceMeaning(ps, start, open);
    TryPlaceMeaning(TryPlace(ps, start, open), end, close);
  }
}
