/** Messages, commands and log lines as text (source/server_misc.c, source/client.c). */
module Wire {
  import opened Pieces
  import opened Drafts
  import opened Commands

  datatype Option<T> = None | Some(value: T)

  // ---------- searching strings ----------

  /** strchr: the first place of a character. */
  function StrChr(s: string, c: char): (r: Option<nat>)
    ensures r.None? ==> c !in s
    ensures r.Some? ==> r.value < |s| && s[r.value] == c && c !in s[..r.value]
  {
    if s == "" then None
    else if s[0] == c then Some(0)
    else
      match StrChr(s[1..], c)
      case None => None
      case Some(i) => assert s[..i + 1] == [s[0]] + s[1..][..i]; Some(i + 1)
  }

  predicate OccursAt(s: string, pat: string, i: nat) {
    i + |pat| <= |s| && s[i..i + |pat|] == pat
  }

  predicate Contains(s: string, pat: string) {
    exists i: nat :: i <= |s| && OccursAt(s, pat, i)
  }

  /** strstr: the first place of a substring. */
  function StrStr(s: string, pat: string): (r: Option<nat>)
    ensures r.None? ==> !Contains(s, pat)
    ensures r.Some? ==> OccursAt(s, pat, r.value) && forall i: nat :: i < r.value ==> !OccursAt(s, pat, i)
  {
    StrStrFrom(s, pat, 0)
  }

  function StrStrFrom(s: string, pat: string, k: nat): (r: Option<nat>)
    requires k <= |s| + 1
    ensures r.None? ==> forall i: nat :: k <= i ==> !OccursAt(s, pat, i)
    ensures r.Some? ==> k <= r.value && OccursAt(s, pat, r.value)
    ensures r.Some? ==> forall i: nat :: k <= i < r.value ==> !OccursAt(s, pat, i)
    decreases |s| + 1 - k
  {
    if k > |s| then None
    else if OccursAt(s, pat, k) then Some(k)
    else StrStrFrom(s, pat, k + 1)
  }

  lemma StrChrAt(a: string, c: char, b: string)
    requires c !in a
    ensures StrChr(a + [c] + b, c) == Some(|a|)
  {
    var s := a + [c] + b;
    assert s[|a|] == c;
    assert forall k :: 0 <= k < |a| ==> s[k] == a[k];
    var i := StrChr(s, c).value;
    assert forall k :: 0 <= k < i ==> s[..i][k] == s[k];
  }

  lemma OccursChar(s: string, pat: string, i: nat, k: nat)
    requires OccursAt(s, pat, i) && k < |pat|
    ensures s[i + k] == pat[k]
  {
    assert s[i..i + |pat|][k] == s[i + k];
  }

  // ---------- commands as text ----------

  predicate IsSpace(c: char) {
    c == ' ' || 9 as char <= c <= 13 as char
  }

  function Digits(s: string, n: nat): nat {
    if s != "" && '0' <= s[0] <= '9' then Digits(s[1..], 10 * n + (s[0] as int - '0' as int)) else n
  }

  function Atoi(s: string): int {
    if s == "" then 0
    else if IsSpace(s[0]) then Atoi(s[1..])
    else if s[0] == '-' then 0 - Digits(s[1..], 0)
    else if s[0] == '+' then Digits(s[1..], 0)
    else Digits(s, 0)
  }

  /** A number as printf prints it. */
  function Decimal(n: nat): (s: string)
    ensures forall c :: c in s ==> '0' <= c <= '9'
  {
    if n < 10 then [(48 + n) as char] else Decimal(n / 10) + [(48 + n % 10) as char]
  }

  function Signed(n: int): string {
    if n < 0 then "-" + Decimal(0 - n) else Decimal(n)
  }

  predicate AllDigits(s: string) {
    forall c :: c in s ==> '0' <= c <= '9'
  }

  /** atoi reads decimal digits from the left... */
  lemma {:induction false} DigitsSnoc(s: string, c: char, n: nat)
    requires AllDigits(s) && '0' <= c <= '9'
    ensures Digits(s + [c], n) == 10 * Digits(s, n) + (c as int - '0' as int)
  {
    if s == "" {
      assert [c][1..] == "";
      assert "" + [c] == [c];
    } else {
      assert s[0] in s && forall x :: x in s[1..] ==> x in s;
      assert (s + [c])[1..] == s[1..] + [c];
      DigitsSnoc(s[1..], c, 10 * n + (s[0] as int - '0' as int));
    }
  }

  lemma {:induction false} DigitsDecimal(n: nat)
    ensures AllDigits(Decimal(n)) && Digits(Decimal(n), 0) == n
  {
    if n >= 10 {
      DigitsDecimal(n / 10);
      DigitsSnoc(Decimal(n / 10), (48 + n % 10) as char, 0);
    } else {
      DigitsSnoc("", (48 + n) as char, 0);
      assert "" + [(48 + n) as char] == [(48 + n) as char];
    }
  }

  /** ... so it takes the digits d of a longer and longer number to 10 times the number before + d... */
  lemma AtoiDigits(s: string, c: char)
    requires AllDigits(s) && '0' <= c <= '9'
    ensures Atoi([c]) == c as int - '0' as int
    ensures Atoi(s + [c]) == 10 * Atoi(s) + (c as int - '0' as int)
  {
    hide Digits;
    DigitsSnoc(s, c, 0);
    DigitsSnoc("", c, 0);
    assert "" + [c] == [c];
    assert s != "" ==> s[0] in s;
    assert Digits("", 0) == 0 by { NoDigits(); }
  }

  lemma NoDigits()
    ensures Digits("", 0) == 0
  {
  }

  /** ... and reads back what was printed. */
  lemma AtoiSigned(n: int)
    ensures Atoi(Signed(n)) == n && ' ' !in Signed(n)
  {
    hide Digits;
    DigitsDecimal(if n < 0 then 0 - n else n);
    var s := Decimal(if n < 0 then 0 - n else n);
    assert s[0] in s;
    assert ("-" + s)[1..] == s;
  }

  predicate IsBlank(c: char) {
    c in " \t\n\r" || c == 11 as char || c == 12 as char
  }

  /** White space and whatever follows the digits do not matter, and a text without a number is 0. */
  lemma AtoiIgnores(space: string, digits: string, rest: string)
    requires (forall c :: c in space ==> IsBlank(c)) && AllDigits(digits)
    requires rest == "" || !('0' <= rest[0] <= '9')
    requires digits == "" ==> rest == "" || (!IsBlank(rest[0]) && rest[0] !in "+-")
    ensures Atoi(space + digits + rest) == Atoi(digits)
    ensures Atoi("") == 0
  {
    hide Digits;
    SkipSpace(space, digits + rest);
    assert space + digits + rest == space + (digits + rest);
    StopAtRest(digits, rest, 0);
    NoDigits();
    if digits != "" {
      assert digits[0] in digits;
      StartsWithDigit(digits + rest);
      StartsWithDigit(digits);
    } else {
      assert digits + rest == rest;
      BlankIsSpace(if rest == "" then ' ' else rest[0]);
    }
  }

  lemma BlankIsSpace(c: char)
    ensures IsBlank(c) <==> IsSpace(c)
  {
    assert " \t\n\r" == [' ', '\t', '\n', '\r'];
    assert '\t' as int == 9 && '\n' as int == 10 && '\r' as int == 13;
  }

  lemma StartsWithDigit(s: string)
    requires s != "" && '0' <= s[0] <= '9'
    ensures Atoi(s) == Digits(s, 0)
  {
    hide Digits;
  }

  /** One sign in front of the digits. */
  lemma AtoiSign(space: string, digits: string, rest: string)
    requires (forall c :: c in space ==> IsBlank(c)) && AllDigits(digits) && digits != ""
    requires rest == "" || !('0' <= rest[0] <= '9')
    ensures Atoi(space + "+" + digits + rest) == Atoi(digits)
    ensures Atoi(space + "-" + digits + rest) == 0 - Atoi(digits)
  {
    hide Digits, Atoi;
    SkipSpace(space, "+" + (digits + rest));
    SkipSpace(space, "-" + (digits + rest));
    assert space + "+" + digits + rest == space + ("+" + (digits + rest));
    assert space + "-" + digits + rest == space + ("-" + (digits + rest));
    SignFirst(digits + rest);
    StopAtRest(digits, rest, 0);
    assert digits[0] in digits;
    StartsWithDigit(digits);
  }

  lemma SignFirst(s: string)
    ensures Atoi("+" + s) == Digits(s, 0) && Atoi("-" + s) == 0 - Digits(s, 0)
  {
    hide Digits;
    assert ("+" + s)[1..] == s && ("-" + s)[1..] == s;
  }

  lemma {:induction false} SkipSpace(space: string, rest: string)
    requires forall c :: c in space ==> IsBlank(c)
    ensures Atoi(space + rest) == Atoi(rest)
  {
    hide Digits, IsBlank, IsSpace;
    if space == "" {
      assert space + rest == rest;
    } else {
      assert (space + rest)[1..] == space[1..] + rest;
      assert space[0] in space && forall c :: c in space[1..] ==> c in space;
      BlankIsSpace(space[0]);
      SkipSpace(space[1..], rest);
    }
  }

  lemma {:induction false} StopAtRest(digits: string, rest: string, n: nat)
    requires AllDigits(digits) && (rest == "" || !('0' <= rest[0] <= '9'))
    ensures Digits(digits + rest, n) == Digits(digits, n)
  {
    if digits == "" {
      assert digits + rest == rest;
    } else {
      assert (digits + rest)[1..] == digits[1..] + rest;
      assert digits[0] in digits && forall c :: c in digits[1..] ==> c in digits;
      StopAtRest(digits[1..], rest, 10 * n + (digits[0] as int - '0' as int));
    }
  }

  /** The command a text spells, or nothing if its name is unknown or an argument is missing. */
  function Tokenise(text: string): Option<Command> {
    match StrChr(text, ' ')
    case None => None
    case Some(s1) =>
      var name, args := text[..s1], text[s1 + 1..];
      if name == "NEWLINE" then Some(Newline(Atoi(args)))
      else if name == "BLOCKQUOTE" then Some(Blockquote(Atoi(args)))
      else if name == "ORDERED_LIST" then Some(OrderedList(Atoi(args)))
      else if name == "UNORDERED_LIST" then Some(UnorderedList(Atoi(args)))
      else if name == "HORIZONTAL_RULE" then Some(HorizontalRule(Atoi(args)))
      else
        match StrChr(args, ' ')
        case None => None
        case Some(s2) =>
          var first, rest := Atoi(args[..s2]), args[s2 + 1..];
          if name == "INSERT" then Some(Insert(first, rest))
          else if name == "DEL" then Some(Del(first, Atoi(rest)))
          else if name == "HEADING" then Some(Heading(first, Atoi(rest)))
          else if name == "BOLD" then Some(Bold(first, Atoi(rest)))
          else if name == "ITALIC" then Some(Italic(first, Atoi(rest)))
          else if name == "CODE" then Some(Code(first, Atoi(rest)))
          else if name == "LINK" then
            match StrChr(rest, ' ')
            case None => None
            case Some(s3) => Some(Link(first, Atoi(rest[..s3]), rest[s3 + 1..]))
          else None
  }

  lemma OneField(name: string, rest: string)
    requires ' ' !in name
    ensures var text := name + " " + rest;
      StrChr(text, ' ') == Some(|name|) && text[..|name|] == name && text[|name| + 1..] == rest
  {
    assert name + " " + rest == name + [' '] + rest;
    StrChrAt(name, ' ', rest);
  }

  /** The commands that name one position, as they are written. */
  lemma PositionCommands(pos: int)
    ensures Tokenise("NEWLINE " + Signed(pos)) == Some(Newline(pos))
    ensures Tokenise("BLOCKQUOTE " + Signed(pos)) == Some(Blockquote(pos))
    ensures Tokenise("ORDERED_LIST " + Signed(pos)) == Some(OrderedList(pos))
    ensures Tokenise("UNORDERED_LIST " + Signed(pos)) == Some(UnorderedList(pos))
    ensures Tokenise("HORIZONTAL_RULE " + Signed(pos)) == Some(HorizontalRule(pos))
  {
    hide Tokenise, Signed, StrChr, Atoi;
    AtoiSigned(pos);
    NamedPosition("NEWLINE", Signed(pos));
    NamedPosition("BLOCKQUOTE", Signed(pos));
    NamedPosition("ORDERED_LIST", Signed(pos));
    NamedPosition("UNORDERED_LIST", Signed(pos));
    NamedPosition("HORIZONTAL_RULE", Signed(pos));
    assert "NEWLINE " + Signed(pos) == "NEWLINE" + " " + Signed(pos);
    assert "BLOCKQUOTE " + Signed(pos) == "BLOCKQUOTE" + " " + Signed(pos);
    assert "ORDERED_LIST " + Signed(pos) == "ORDERED_LIST" + " " + Signed(pos);
    assert "UNORDERED_LIST " + Signed(pos) == "UNORDERED_LIST" + " " + Signed(pos);
    assert "HORIZONTAL_RULE " + Signed(pos) == "HORIZONTAL_RULE" + " " + Signed(pos);
  }

  lemma NamedPosition(name: string, arg: string)
    requires name in ["NEWLINE", "BLOCKQUOTE", "ORDERED_LIST", "UNORDERED_LIST", "HORIZONTAL_RULE"]
    ensures Tokenise(name + " " + arg)
         == Some(if name == "NEWLINE" then Newline(Atoi(arg))
                 else if name == "BLOCKQUOTE" then Blockquote(Atoi(arg))
                 else if name == "ORDERED_LIST" then OrderedList(Atoi(arg))
                 else if name == "UNORDERED_LIST" then UnorderedList(Atoi(arg))
                 else HorizontalRule(Atoi(arg)))
  {
    hide StrChr, Atoi;
    OneField(name, arg);
  }

  /** The commands with two numbers. */
  lemma PairCommands(a: int, b: int)
    ensures Tokenise("DEL " + Signed(a) + " " + Signed(b)) == Some(Command.Del(a, b))
    ensures Tokenise("HEADING " + Signed(a) + " " + Signed(b)) == Some(Heading(a, b))
    ensures Tokenise("BOLD " + Signed(a) + " " + Signed(b)) == Some(Bold(a, b))
    ensures Tokenise("ITALIC " + Signed(a) + " " + Signed(b)) == Some(Italic(a, b))
    ensures Tokenise("CODE " + Signed(a) + " " + Signed(b)) == Some(Code(a, b))
  {
    hide Tokenise, Signed, StrChr, Atoi;
    AtoiSigned(a);
    AtoiSigned(b);
    NamedPair("DEL", Signed(a), Signed(b));
    NamedPair("HEADING", Signed(a), Signed(b));
    NamedPair("BOLD", Signed(a), Signed(b));
    NamedPair("ITALIC", Signed(a), Signed(b));
    NamedPair("CODE", Signed(a), Signed(b));
    assert "DEL " + Signed(a) == "DEL" + " " + Signed(a);
    assert "HEADING " + Signed(a) == "HEADING" + " " + Signed(a);
    assert "BOLD " + Signed(a) == "BOLD" + " " + Signed(a);
    assert "ITALIC " + Signed(a) == "ITALIC" + " " + Signed(a);
    assert "CODE " + Signed(a) == "CODE" + " " + Signed(a);
  }

  lemma NamedPair(name: string, x: string, y: string)
    requires name in ["DEL", "HEADING", "BOLD", "ITALIC", "CODE"] && ' ' !in x
    ensures Tokenise(name + " " + x + " " + y)
         == Some(if name == "DEL" then Command.Del(Atoi(x), Atoi(y))
                 else if name == "HEADING" then Heading(Atoi(x), Atoi(y))
                 else if name == "BOLD" then Bold(Atoi(x), Atoi(y))
                 else if name == "ITALIC" then Italic(Atoi(x), Atoi(y))
                 else Code(Atoi(x), Atoi(y)))
  {
    hide StrChr, Atoi;
    OneField(name, x + " " + y);
    OneField(x, y);
    assert name + " " + (x + " " + y) == name + " " + x + " " + y;
  }

  /** The commands that end with a text. */
  lemma TextCommands(a: int, b: int, s: string)
    ensures Tokenise("INSERT " + Signed(a) + " " + s) == Some(Command.Insert(a, s))
    ensures Tokenise("LINK " + Signed(a) + " " + Signed(b) + " " + s) == Some(Link(a, b, s))
  {
    hide Tokenise, Signed, Atoi;
    AtoiSigned(a);
    AtoiSigned(b);
    NamedInsert(Signed(a), s);
    NamedLink(Signed(a), Signed(b), s);
    assert "INSERT " + Signed(a) == "INSERT" + " " + Signed(a);
    assert "LINK " + Signed(a) == "LINK" + " " + Signed(a);
  }

  lemma NamedInsert(x: string, s: string)
    requires ' ' !in x
    ensures Tokenise("INSERT" + " " + x + " " + s) == Some(Command.Insert(Atoi(x), s))
  {
    hide StrChr, Atoi;
    OneField("INSERT", x + " " + s);
    OneField(x, s);
    assert "INSERT" + " " + (x + " " + s) == "INSERT" + " " + x + " " + s;
  }

  lemma NamedLink(x: string, y: string, s: string)
    requires ' ' !in x && ' ' !in y
    ensures Tokenise("LINK" + " " + x + " " + y + " " + s) == Some(Link(Atoi(x), Atoi(y), s))
  {
    hide StrChr, Atoi, Tokenise;
    var rest := y + " " + s;
    var args := x + " " + rest;
    OneField("LINK", args);
    OneField(x, rest);
    OneField(y, s);
    FourFields("LINK", x, y, s);
    LinkFields("LINK" + " " + args, args, rest, |x|, |y|);
  }

  lemma FourFields(a: string, x: string, y: string, s: string)
    ensures a + " " + (x + " " + (y + " " + s)) == a + " " + x + " " + y + " " + s
  {
  }

  lemma LinkFields(text: string, args: string, rest: string, j: nat, k: nat)
    requires StrChr(text, ' ') == Some(4) && text[..4] == "LINK" && text[5..] == args
    requires StrChr(args, ' ') == Some(j) && args[j + 1..] == rest
    requires StrChr(rest, ' ') == Some(k)
    ensures Tokenise(text) == Some(Link(Atoi(args[..j]), Atoi(rest[..k]), rest[k + 1..]))
  {
    hide StrChr, Atoi;
  }

  /** The names that one number follows. */
  predicate NamesPosition(name: string) {
    name in ["NEWLINE", "BLOCKQUOTE", "ORDERED_LIST", "UNORDERED_LIST", "HORIZONTAL_RULE"]
  }

  /** The names that two arguments follow. */
  predicate NamesPair(name: string) {
    name in ["INSERT", "DEL", "HEADING", "BOLD", "ITALIC", "CODE"]
  }

  /** The name that three arguments follow. */
  predicate NamesLink(name: string) {
    name == "LINK"
  }

  /** The text is a name and the rest, and the name is one of the twelve and the rest has the spaces it needs. */
  ghost predicate Spells(text: string, name: string, rest: string) {
    && text == name + " " + rest && ' ' !in name
    && (|| NamesPosition(name)
        || (NamesPair(name) && ' ' in rest)
        || (NamesLink(name) && exists x, y :: rest == x + " " + y && ' ' !in x && ' ' in y))
  }

  /** No other text is a command. */
  lemma NoOtherCommands(text: string)
    ensures Tokenise(text).Some? <==> exists name, rest :: Spells(text, name, rest)
  {
    hide Atoi, StrChr, Tokenise, NamesPosition, NamesPair, NamesLink, Spells;
    if name, rest :| Spells(text, name, rest) {
      SpelledOut(text, name, rest);
    }
    if Tokenise(text).Some? {
      CommandSpelled(text);
    }
  }

  lemma SpelledOut(text: string, name: string, rest: string)
    requires Spells(text, name, rest)
    ensures Tokenise(text).Some?
  {
    hide Atoi, StrChr, Tokenise, NamesPosition, NamesPair, NamesLink;
    OneField(name, rest);
    if NamesPosition(name) {
      PositionFields(text, name);
    } else if NamesPair(name) {
      PairFields(text, name, rest);
    } else {
      var x, y :| rest == x + " " + y && ' ' !in x && ' ' in y;
      OneField(x, y);
      LinkSpaces(text, name, rest, y);
    }
  }

  lemma PositionFields(text: string, name: string)
    requires StrChr(text, ' ') == Some(|name|) && text[..|name|] == name && NamesPosition(name)
    ensures Tokenise(text).Some?
  {
    hide Atoi, StrChr;
  }

  lemma PairFields(text: string, name: string, rest: string)
    requires StrChr(text, ' ') == Some(|name|) && text[..|name|] == name && text[|name| + 1..] == rest
    requires NamesPair(name) && StrChr(rest, ' ').Some?
    ensures Tokenise(text).Some?
  {
    hide Atoi, StrChr;
  }

  lemma LinkSpaces(text: string, name: string, rest: string, y: string)
    requires StrChr(text, ' ') == Some(|name|) && text[..|name|] == name && text[|name| + 1..] == rest
    requires NamesLink(name) && StrChr(rest, ' ').Some? && rest[StrChr(rest, ' ').value + 1..] == y
    requires StrChr(y, ' ').Some?
    ensures Tokenise(text).Some?
  {
    hide Atoi, StrChr;
  }

  lemma CommandSpelled(text: string)
    requires Tokenise(text).Some?
    ensures exists name, rest :: Spells(text, name, rest)
  {
    hide *;
    FirstWord(text);
    var k := StrChr(text, ' ').value;
    var name, rest := text[..k], text[k + 1..];
    AtSpace(text, k);
    SpellsSo(text, name, rest);
  }

  lemma SpellsSo(text: string, name: string, rest: string)
    requires text == name + " " + rest && ' ' !in name
    requires
      || NamesPosition(name)
      || (NamesPair(name) && StrChr(rest, ' ').Some?)
      || (NamesLink(name) && StrChr(rest, ' ').Some? && StrChr(rest[StrChr(rest, ' ').value + 1..], ' ').Some?)
    ensures Spells(text, name, rest)
  {
    hide StrChr, NamesPosition, NamesPair, NamesLink;
    if StrChr(rest, ' ').Some? {
      var j := StrChr(rest, ' ').value;
      AtSpace(rest, j);
      if StrChr(rest[j + 1..], ' ').Some? {
        assert rest == rest[..j] + " " + rest[j + 1..] && ' ' !in rest[..j] && ' ' in rest[j + 1..];
      }
    }
  }

  lemma AtSpace(s: string, k: nat)
    requires k < |s| && s[k] == ' '
    ensures s == s[..k] + " " + s[k + 1..]
  {
  }

  lemma FirstWord(text: string)
    requires Tokenise(text).Some?
    ensures StrChr(text, ' ').Some?
    ensures var k := StrChr(text, ' ').value;
      var name, rest := text[..k], text[k + 1..];
      || NamesPosition(name)
      || (NamesPair(name) && StrChr(rest, ' ').Some?)
      || (NamesLink(name) && StrChr(rest, ' ').Some? && StrChr(rest[StrChr(rest, ' ').value + 1..], ' ').Some?)
  {
    hide Atoi, StrChr;
  }

  // ---------- messages and their answers ----------

  /** A message as a worker thread queues it; the last character of `raw` is the line end. */
  datatype Message = Message(time: int, raw: string, user: string, perm: char)

  datatype Answer = Done | BadPosition | AlreadyDeleted | Unauthorised | BadContent | Refused

  function Word(o: Answer): string {
    match o
    case Done => "SUCCESS"
    case BadPosition => "Reject INVALID_POSITION"
    case AlreadyDeleted => "Reject DELETED_POSITION"
    case Unauthorised => "Reject UNAUTHORISED"
    case BadContent => "Reject"
    case Refused => "REJECT"
  }

  function AnswerOf(code: int): Answer {
    if code == SUCCESS then Done
    else if code == INVALID_POSITION then BadPosition
    else if code == DELETED_POSITION then AlreadyDeleted
    else Refused
  }

  function Stripped(raw: string): string
    requires raw != ""
  {
    raw[..|raw| - 1]
  }

  /** What the message asks the document to execute, or why nothing is executed. */
  function Request(raw: string, perm: char): (r: (Option<Command>, Answer))
    requires raw != ""
  {
    if perm == 'r' then (None, Unauthorised)
    else if |raw| > 256 then (None, Refused)
    else
      match Tokenise(Stripped(raw))
      case None => (None, Refused)
      case Some(cmd) => if cmd.Insert? && '\n' in cmd.content then (None, BadContent) else (Some(cmd), Done)
  }

  /** Everything the message makes the document execute is defined in C. */
  predicate Executable(raw: string, perm: char, size: nat) {
    raw != "" && (Request(raw, perm).0.Some? ==> Defined(Request(raw, perm).0.value, size))
  }

  /** run_on_doc on the chunk values. */
  function RunOnDoc(ps: seq<Piece>, raw: string, perm: char): (r: (seq<Piece>, Answer))
    requires WellFormed(ps) && Executable(raw, perm, Size(ps))
    ensures WellFormed(r.0) && Size(r.0) == Size(ps)
    ensures !r.1.Done? ==> r.0 == ps
  {
    match Request(raw, perm)
    case (None, o) => (ps, if o.Done? then Refused else o)
    case (Some(cmd), _) => (Exec(ps, cmd).0, AnswerOf(Exec(ps, cmd).1))
  }

  /** The message may be executed at all: the user may write, and its text is a command that is short enough and,
      for an insertion, of one line. */
  predicate Heard(raw: string, perm: char)
    requires raw != ""
  {
    && perm != 'r' && |raw| <= 256
    && match Tokenise(Stripped(raw))
       case None => false
       case Some(cmd) => cmd.Insert? ==> '\n' !in cmd.content
  }

  /** What a message does and how it is answered: one that is heard executes its command and is refused only for
      its positions; any other, or a refused one, leaves the chunks alone. */
  lemma MessageMeaning(ps: seq<Piece>, raw: string, perm: char)
    requires WellFormed(ps) && Executable(raw, perm, Size(ps))
    ensures |Abs(ps).cells| == Size(ps)
    ensures var (qs, o) := RunOnDoc(ps, raw, perm);
      && (!o.Done? ==> qs == ps)
      && (o.Unauthorised? <==> perm == 'r')
      && (Heard(raw, perm) <==> o.Done? || o.BadPosition? || o.AlreadyDeleted?)
      && (Heard(raw, perm) ==>
            var cmd := Tokenise(Stripped(raw)).value;
            && Defined(cmd, Size(ps))
            && Abs(qs) == Apply(Abs(ps), cmd, Hint(ps, cmd)).0
            && (o.BadPosition? <==> !IsRange(cmd) && !InRange(cmd.pos, Size(ps)))
            && (o.AlreadyDeleted? <==> IsRange(cmd) && Deleted(Abs(ps), cmd.start) && Deleted(Abs(ps), cmd.end)))
  {
    hide Abs, Size, Exec, Apply, Tokenise, Hint, Deleted, WellFormed;
    AbsSize(ps);
    if Heard(raw, perm) {
      var cmd := Tokenise(Stripped(raw)).value;
      ExecMeaning(ps, cmd);
      ResultCodes(ps, cmd, true);
    }
  }

  /** A message of a user who may write, of this text, executes the command. */
  ghost predicate Performs(ps: seq<Piece>, text: string, perm: char, cmd: Command)
    requires WellFormed(ps)
  {
    |text| <= 255 && perm != 'r' && Defined(cmd, Size(ps)) ==>
      && Executable(text + "\n", perm, Size(ps))
      && var (qs, o) := RunOnDoc(ps, text + "\n", perm);
      && qs == Exec(ps, cmd).0
      && (o == Done <==> Exec(ps, cmd).1 == SUCCESS)
      && (o == BadPosition <==> Exec(ps, cmd).1 == INVALID_POSITION)
      && (o == AlreadyDeleted <==> Exec(ps, cmd).1 == DELETED_POSITION)
  }

  lemma PerformsIt(ps: seq<Piece>, text: string, perm: char, cmd: Command)
    requires WellFormed(ps) && Tokenise(text) == Some(cmd) && (cmd.Insert? ==> '\n' !in cmd.content)
    ensures Performs(ps, text, perm, cmd)
  {
    hide Size, Exec, Tokenise, WellFormed;
    assert Stripped(text + "\n") == text;
    if Defined(cmd, Size(ps)) {
      ResultCodes(ps, cmd, true);
    }
  }

  /** What messages with the twelve commands do, each as it is written. */
  lemma CommandMessages(ps: seq<Piece>, perm: char, a: int, b: int, s: string)
    requires WellFormed(ps)
    ensures '\n' !in s ==> Performs(ps, "INSERT " + Signed(a) + " " + s, perm, Command.Insert(a, s))
    ensures Performs(ps, "DEL " + Signed(a) + " " + Signed(b), perm, Command.Del(a, b))
    ensures Performs(ps, "NEWLINE " + Signed(a), perm, Newline(a))
    ensures Performs(ps, "HEADING " + Signed(a) + " " + Signed(b), perm, Heading(a, b))
    ensures Performs(ps, "BOLD " + Signed(a) + " " + Signed(b), perm, Bold(a, b))
    ensures Performs(ps, "ITALIC " + Signed(a) + " " + Signed(b), perm, Italic(a, b))
    ensures Performs(ps, "BLOCKQUOTE " + Signed(a), perm, Blockquote(a))
    ensures Performs(ps, "ORDERED_LIST " + Signed(a), perm, OrderedList(a))
    ensures Performs(ps, "UNORDERED_LIST " + Signed(a), perm, UnorderedList(a))
    ensures Performs(ps, "CODE " + Signed(a) + " " + Signed(b), perm, Code(a, b))
    ensures Performs(ps, "HORIZONTAL_RULE " + Signed(a), perm, HorizontalRule(a))
    ensures Performs(ps, "LINK " + Signed(a) + " " + Signed(b) + " " + s, perm, Link(a, b, s))
  {
    hide *;
    PositionCommands(a);
    PairCommands(a, b);
    TextCommands(a, b, s);
    if '\n' !in s {
      PerformsIt(ps, "INSERT " + Signed(a) + " " + s, perm, Command.Insert(a, s));
    }
    PerformsIt(ps, "DEL " + Signed(a) + " " + Signed(b), perm, Command.Del(a, b));
    PerformsIt(ps, "NEWLINE " + Signed(a), perm, Newline(a));
    PerformsIt(ps, "HEADING " + Signed(a) + " " + Signed(b), perm, Heading(a, b));
    PerformsIt(ps, "BOLD " + Signed(a) + " " + Signed(b), perm, Bold(a, b));
    PerformsIt(ps, "ITALIC " + Signed(a) + " " + Signed(b), perm, Italic(a, b));
    PerformsIt(ps, "BLOCKQUOTE " + Signed(a), perm, Blockquote(a));
    PerformsIt(ps, "ORDERED_LIST " + Signed(a), perm, OrderedList(a));
    PerformsIt(ps, "UNORDERED_LIST " + Signed(a), perm, UnorderedList(a));
    PerformsIt(ps, "CODE " + Signed(a) + " " + Signed(b), perm, Code(a, b));
    PerformsIt(ps, "HORIZONTAL_RULE " + Signed(a), perm, HorizontalRule(a));
    PerformsIt(ps, "LINK " + Signed(a) + " " + Signed(b) + " " + s, perm, Link(a, b, s));
  }

  // ---------- log lines ----------

  function LogLine(user: string, text: string, o: Answer): string {
    "EDIT " + user + " " + text + " " + Word(o) + "\n"
  }

  function VersionLine(version: nat): string {
    "VERSION " + Decimal(version) + "\n"
  }

  const END_LINE := "END\n"

  /** The answers to a message, as they are written. */
  lemma AnswersAsWritten(user: string, text: string)
    ensures var head := "EDIT " + user + " " + text + " ";
      && LogLine(user, text, Done) == head + "SUCCESS\n"
      && LogLine(user, text, BadPosition) == head + "Reject INVALID_POSITION\n"
      && LogLine(user, text, AlreadyDeleted) == head + "Reject DELETED_POSITION\n"
      && LogLine(user, text, Unauthorised) == head + "Reject UNAUTHORISED\n"
      && LogLine(user, text, BadContent) == head + "Reject\n"
      && LogLine(user, text, Refused) == head + "REJECT\n"
  {
    hide LogLine;
    AnswerWritten(user, text, Done, "SUCCESS\n");
    AnswerWritten(user, text, BadPosition, "Reject INVALID_POSITION\n");
    AnswerWritten(user, text, AlreadyDeleted, "Reject DELETED_POSITION\n");
    AnswerWritten(user, text, Unauthorised, "Reject UNAUTHORISED\n");
    AnswerWritten(user, text, BadContent, "Reject\n");
    AnswerWritten(user, text, Refused, "REJECT\n");
  }

  /** The version line tells the version. */
  lemma VersionAsWritten(version: nat)
    ensures exists number ::
      AllDigits(number) && Atoi(number) == version && VersionLine(version) == "VERSION " + number + "\n"
  {
    hide Decimal, Atoi;
    AtoiSigned(version);
    DigitsDecimal(version);
    assert Signed(version) == Decimal(version);
  }

  lemma AnswerWritten(user: string, text: string, o: Answer, end: string)
    requires Word(o) + "\n" == end
    ensures LogLine(user, text, o) == "EDIT " + user + " " + text + " " + end
  {
    hide Word;
  }

  /** What a client does about a line of a broadcast; `raw` is the text it hands to run_on_doc. */
  datatype Action = Skip | NextVersion | Run(raw: string)

  function ReadLine(line: string): Action {
    if line == END_LINE then NextVersion
    else
      match StrChr(line, ' ')
      case None => Skip
      case Some(s1) =>
        var rest := line[s1 + 1..];
        match StrChr(rest, ' ')
        case None => Skip
        case Some(s2) =>
          var tail := rest[s2 + 1..];
          match StrStr(tail, "SUCCESS")
          case None => Skip
          case Some(s3) => Run(tail[..s3])
  }

  /** A client gets back from a log line exactly the command of an executed message, followed by the one character
      that run_on_doc strips, and nothing of a rejected one, exactly if the command does not itself contain the
      word that marks success. */
  lemma LineRoundTrip(user: string, text: string, o: Answer)
    requires ' ' !in user
    ensures ReadLine(LogLine(user, text, o)) == (if o.Done? then Run(text + " ") else Skip)
       <==> !Contains(text, "SUCCESS")
  {
    hide ReadLine, LogLine, Word, StrStr;
    var tail := text + " " + Word(o) + "\n";
    LogLineTail(user, text, o);
    if Contains(text, "SUCCESS") {
      var i: nat :| i <= |text| && OccursAt(text, "SUCCESS", i);
      assert tail[i..i + 7] == text[i..i + 7];
      assert OccursAt(tail, "SUCCESS", i);
      var k := StrStr(tail, "SUCCESS").value;
      assert k <= i;
      assert |tail[..k]| < |text + " "|;
    } else {
      NoEarlySuccess(text, o);
      if o.Done? {
        SuccessWord(text);
        assert tail[..|text| + 1] == text + " ";
      }
    }
  }

  lemma OccursBehind(a: string, b: string, pat: string, i: nat)
    ensures OccursAt(a + b, pat, |a| + i) <==> OccursAt(b, pat, i)
  {
    if i + |pat| <= |b| {
      assert (a + b)[|a| + i..|a| + i + |pat|] == b[i..i + |pat|];
    }
  }

  lemma OccursAhead(a: string, b: string, pat: string, i: nat)
    requires i + |pat| <= |a|
    ensures OccursAt(a + b, pat, i) <==> OccursAt(a, pat, i)
  {
    assert (a + b)[i..i + |pat|] == a[i..i + |pat|];
  }

  /** A word does not reach across a character that it does not contain. */
  lemma ContainsAround(a: string, c: char, b: string, pat: string)
    requires c !in pat && pat != ""
    ensures Contains(a + [c] + b, pat) <==> Contains(a, pat) || Contains(b, pat)
  {
    hide OccursAt;
    var s := a + [c] + b;
    assert s == a + ([c] + b);
    if i: nat :| i <= |a| && OccursAt(a, pat, i) {
      OccursFits(a, pat, i);
      OccursAhead(a, [c] + b, pat, i);
    }
    if i: nat :| i <= |b| && OccursAt(b, pat, i) {
      OccursBehind(a + [c], b, pat, i);
      assert OccursAt(s, pat, |a| + 1 + i);
    }
    if i: nat :| i <= |s| && OccursAt(s, pat, i) {
      OccursFits(s, pat, i);
      if i + |pat| <= |a| {
        OccursAhead(a, [c] + b, pat, i);
      } else if i > |a| {
        OccursBehind(a + [c], b, pat, i - |a| - 1);
      } else {
        assert s[|a|] == c;
        OccursChar(s, pat, i, |a| - i);
      }
    }
  }

  lemma OccursFits(s: string, pat: string, i: nat)
    requires OccursAt(s, pat, i)
    ensures i + |pat| <= |s|
  {
  }

  /** A log line mentions a success if it reports one, or if the user's name or the command does. */
  lemma LogLineMentions(user: string, text: string, o: Answer)
    ensures Contains(LogLine(user, text, o), "SUCCESS")
       <==> o.Done? || Contains(user, "SUCCESS") || Contains(text, "SUCCESS")
  {
    hide Contains, Word;
    var word := Word(o) + ['\n'] + "";
    ContainsAround(Word(o), '\n', "", "SUCCESS");
    ContainsAround(text, ' ', word, "SUCCESS");
    ContainsAround(user, ' ', text + [' '] + word, "SUCCESS");
    ContainsAround("EDIT", ' ', user + [' '] + (text + [' '] + word), "SUCCESS");
    assert LogLine(user, text, o) == "EDIT" + [' '] + (user + [' '] + (text + [' '] + word));
    WordMentions(o);
  }

  lemma WordMentions(o: Answer)
    ensures Contains(Word(o), "SUCCESS") <==> o.Done?
    ensures !Contains("EDIT", "SUCCESS") && !Contains("", "SUCCESS")
  {
    if o.Done? {
      assert OccursAt(Word(o), "SUCCESS", 0);
    } else {
      forall i: nat | i <= |Word(o)|
        ensures !OccursAt(Word(o), "SUCCESS", i)
      {
        if OccursAt(Word(o), "SUCCESS", i) {
          OccursChar(Word(o), "SUCCESS", i, 0);
          OccursChar(Word(o), "SUCCESS", i, 1);
          RejectWords(o, i);
        }
      }
    }
  }

  lemma SuccessWord(text: string)
    ensures OccursAt(text + " " + Word(Done) + "\n", "SUCCESS", |text| + 1)
  {
    var tail := text + " " + Word(Done) + "\n";
    assert tail[|text| + 1..|text| + 8] == "SUCCESS";
  }

  function Replayed(tail: string): Action {
    match StrStr(tail, "SUCCESS")
    case None => Skip
    case Some(s3) => Run(tail[..s3])
  }

  lemma LogLineTail(user: string, text: string, o: Answer)
    requires ' ' !in user
    ensures ReadLine(LogLine(user, text, o)) == Replayed(text + " " + Word(o) + "\n")
  {
    hide ReadLine, Replayed, Word;
    var tail := text + " " + Word(o) + "\n";
    assert LogLine(user, text, o) == "EDIT" + " " + user + " " + tail;
    assert LogLine(user, text, o)[1] == 'D' && END_LINE[1] == 'N';
    ThreeFields("EDIT", user, tail);
  }

  lemma ThreeFields(a: string, b: string, tail: string)
    requires ' ' !in a && ' ' !in b && a + " " + b + " " + tail != END_LINE
    ensures ReadLine(a + " " + b + " " + tail) == Replayed(tail)
  {
    hide StrStr;
    var line, rest := a + " " + b + " " + tail, b + " " + tail;
    assert line == a + [' '] + rest;
    StrChrAt(a, ' ', rest);
    assert line[|a| + 1..] == rest;
    StrChrAt(b, ' ', tail);
    assert rest[|b| + 1..] == tail;
  }

  lemma OccursInside(text: string, rest: string, pat: string, i: nat)
    requires OccursAt(text + rest, pat, i) && i + |pat| <= |text|
    ensures Contains(text, pat)
  {
    assert text[i..i + |pat|] == (text + rest)[i..i + |pat|];
    assert OccursAt(text, pat, i);
  }

  lemma NoEarlySuccess(text: string, o: Answer)
    requires !Contains(text, "SUCCESS")
    ensures var tail := text + " " + Word(o) + "\n";
      forall i: nat :: OccursAt(tail, "SUCCESS", i) ==> o.Done? && i >= |text| + 1
  {
    hide Word;
    var tail := text + " " + Word(o) + "\n";
    assert tail == text + (" " + Word(o) + "\n");
    forall i: nat | OccursAt(tail, "SUCCESS", i)
      ensures o.Done? && i >= |text| + 1
    {
      if i + 7 <= |text| {
        OccursInside(text, " " + Word(o) + "\n", "SUCCESS", i);
      } else if i <= |text| {
        OccursChar(tail, "SUCCESS", i, |text| - i);
      } else {
        var j := i - |text| - 1;
        assert tail == text + " " + (Word(o) + "\n");
        OccursChar(tail, "SUCCESS", i, 0);
        OccursChar(tail, "SUCCESS", i, 1);
        RejectWords(o, j);
      }
    }
  }

  lemma RejectWords(o: Answer, j: nat)
    requires j + 1 < |Word(o) + "\n"|
    requires (Word(o) + "\n")[j] == 'S' && (Word(o) + "\n")[j + 1] == 'U'
    ensures o.Done?
  {
  }

  /** No version line is replayed. */
  lemma VersionLineSkipped(version: nat)
    ensures ReadLine(VersionLine(version)) == Skip
    ensures '\n' !in "VERSION " + Decimal(version)
  {
    var rest := Decimal(version) + "\n";
    assert VersionLine(version) == "VERSION" + [' '] + rest;
    StrChrAt("VERSION", ' ', rest);
    assert VersionLine(version)[8..] == rest;
    assert ' ' !in rest;
    assert VersionLine(version)[0] == 'V';
  }

  // ---------- lines of a byte stream ----------

  predicate IsLine(line: string) {
    line != "" && line[|line| - 1] == '\n' && '\n' !in line[..|line| - 1]
  }

  function Concat(lines: seq<string>): string {
    if lines == [] then "" else lines[0] + Concat(lines[1..])
  }

  /** Reading up to the first newline takes exactly the first line off the stream. */
  lemma FirstLine(line: string, rest: string)
    requires IsLine(line)
    ensures StrChr(line + rest, '\n') == Some(|line| - 1)
    ensures (line + rest)[..|line|] == line && (line + rest)[|line|..] == rest
  {
    StrChrAt(line[..|line| - 1], '\n', rest);
    assert line + rest == line[..|line| - 1] + ['\n'] + rest;
  }

  lemma {:induction false} ConcatConcat(a: seq<string>, b: seq<string>)
    ensures Concat(a + b) == Concat(a) + Concat(b)
  {
    if a == [] {
      assert a + b == b;
    } else {
      assert (a + b)[1..] == a[1..] + b;
      ConcatConcat(a[1..], b);
    }
  }

  lemma LogLineIsLine(user: string, text: string, o: Answer)
    requires '\n' !in user && '\n' !in text
    ensures IsLine(LogLine(user, text, o)) && LogLine(user, text, o) != END_LINE
  {
    var line := LogLine(user, text, o);
    assert line[..|line| - 1] == "EDIT " + user + " " + text + " " + Word(o);
    assert line[1] == 'D';
  }

  /** The longest line, its newline included, that the client's buffer of 256 bytes holds with the NUL behind it. */
  const LINE_MAX := 255

  datatype Event = Act(action: Action) | Overflow

  /** What happens as a client reads the bytes of its pipe: it acts on one line after the other, until one
      overflows its buffer. */
  function Events(stream: string): seq<Event>
    decreases |stream|
  {
    match StrChr(stream, '\n')
    case None => []
    case Some(k) =>
      if k + 1 > LINE_MAX then [Overflow] else [Act(ReadLine(stream[..k + 1]))] + Events(stream[k + 1..])
  }

  lemma EventsOfFirst(line: string, rest: string)
    requires IsLine(line)
    ensures Events(line + rest)
         == if |line| > LINE_MAX then [Overflow] else [Act(ReadLine(line))] + Events(rest)
  {
    hide ReadLine;
    FirstLine(line, rest);
  }

  lemma EventsOfLine(line: string)
    requires IsLine(line)
    ensures Events(line) == [if |line| > LINE_MAX then Overflow else Act(ReadLine(line))]
  {
    hide ReadLine;
    EventsOfFirst(line, "");
    assert line + "" == line;
    assert Events("") == [];
  }

  lemma EventsOfMore(a: string, b: string)
    requires b != "" && b[|b| - 1] == '\n'
    ensures |Events(a + ['\n'] + b)| >= 2 || Events(a + ['\n'] + b) == [Overflow]
  {
    hide ReadLine;
    var s := a + ['\n'] + b;
    assert s[|a|] == '\n';
    var k := StrChr(s, '\n').value;
    assert forall j :: 0 <= j < k ==> s[j] == s[..k][j];
    assert k <= |a|;
    var rest := s[k + 1..];
    assert rest[|rest| - 1] == '\n';
    assert StrChr(rest, '\n').Some?;
  }

  /** The log-line round trip: from the bytes of a log line a client gets back exactly the command of an executed
      message, followed by the one character that run_on_doc strips, and nothing of a rejected one, exactly if
      the command is a single line that does not itself contain the word that marks success and the log line
      fits the client's buffer. */
  lemma LogLineRoundTrip(user: string, text: string, o: Answer)
    requires ' ' !in user && '\n' !in user
    ensures Events(LogLine(user, text, o)) == [Act(if o.Done? then Run(text + " ") else Skip)]
       <==> !Contains(text, "SUCCESS") && '\n' !in text && |LogLine(user, text, o)| <= 255
  {
    hide ReadLine, LogLine, Word, Events;
    if '\n' !in text {
      LogLineIsLine(user, text, o);
      EventsOfLine(LogLine(user, text, o));
      LineRoundTrip(user, text, o);
    } else {
      var k := StrChr(text, '\n').value;
      LogLineBroken(user, text, o, k);
      EventsOfMore("EDIT " + user + " " + text[..k], text[k + 1..] + " " + Word(o) + "\n");
    }
  }

  /** How long a log line is: at most 31 characters more than the user's name and the command. */
  lemma LogLineSize(user: string, text: string, o: Answer)
    ensures |LogLine(user, text, o)| == |user| + |text| + |Word(o)| + 8
    ensures 6 <= |Word(o)| <= 23
  {
  }

  lemma LogLineBroken(user: string, text: string, o: Answer, k: nat)
    requires k < |text| && text[k] == '\n'
    ensures LogLine(user, text, o)
         == "EDIT " + user + " " + text[..k] + ['\n'] + (text[k + 1..] + " " + Word(o) + "\n")
  {
    hide Word;
    assert text == text[..k] + ['\n'] + text[k + 1..];
  }

  /** Two commands that one read returned together are executed as one; the clients see two lines, skip the first
      and replay an empty text from the second, which run_on_doc cannot strip. */
  lemma TwoCommandsInOne(ps: seq<Piece>)
    requires WellFormed(ps)
    ensures var text := "NEWLINE 0\nNEWLINE 0";
      && !Contains(text, "SUCCESS")
      && Tokenise(text) == Some(Command.Newline(0))
      && Executable(text + "\n", 'w', Size(ps))
      && RunOnDoc(ps, text + "\n", 'w') == (Exec(ps, Command.Newline(0)).0, Done)
      && Events(LogLine("ann", text, Done)) == [Act(Skip), Act(Run(""))]
      && !Executable("", 'w', Size(ps))
  {
    hide *;
    NoSuccessWord();
    TwoNewlines();
    TwoExecuted(ps);
    FirstHalf();
    SecondHalf();
    TwoLines();
    EmptyText(Size(ps));
  }

  lemma EmptyText(size: nat)
    ensures !Executable("", 'w', size)
  {
  }

  lemma TwoExecuted(ps: seq<Piece>)
    requires WellFormed(ps)
    ensures var raw := "NEWLINE 0\nNEWLINE 0" + "\n";
      && Executable(raw, 'w', Size(ps))
      && RunOnDoc(ps, raw, 'w') == (Exec(ps, Command.Newline(0)).0, Done)
  {
    hide Tokenise, Size, WellFormed, Place;
    TwoNewlines();
    assert Stripped("NEWLINE 0\nNEWLINE 0" + "\n") == "NEWLINE 0\nNEWLINE 0";
  }

  lemma NoSuccessWord()
    ensures !Contains("NEWLINE 0\nNEWLINE 0", "SUCCESS")
  {
    hide OccursAt;
    var text := "NEWLINE 0\nNEWLINE 0";
    forall i: nat | i <= |text|
      ensures !OccursAt(text, "SUCCESS", i)
    {
      NoS(text, i);
    }
  }

  lemma NoS(text: string, i: nat)
    requires 'S' !in text
    ensures !OccursAt(text, "SUCCESS", i)
  {
    if OccursAt(text, "SUCCESS", i) {
      OccursChar(text, "SUCCESS", i, 0);
    }
  }

  lemma TwoNewlines()
    ensures Tokenise("NEWLINE 0\nNEWLINE 0") == Some(Command.Newline(0))
  {
    hide StrChr, Atoi;
    var text, args := "NEWLINE 0\nNEWLINE 0", "0\nNEWLINE 0";
    assert text == "NEWLINE" + [' '] + args;
    StrChrAt("NEWLINE", ' ', args);
    assert text[..7] == "NEWLINE" && text[8..] == args;
    ZeroBeforeBreak(args);
  }

  lemma ZeroBeforeBreak(s: string)
    requires |s| >= 2 && s[0] == '0' && s[1] == '\n'
    ensures Atoi(s) == 0
  {
    assert s[1..][0] == '\n';
    assert Digits(s[1..], 0) == 0;
    assert Digits(s, 0) == Digits(s[1..], 10 * 0 + ('0' as int - '0' as int));
  }

  lemma FirstHalf()
    ensures ReadLine("EDIT ann NEWLINE 0\n") == Skip
  {
    hide ReadLine, StrStr;
    var tail := "NEWLINE 0\n";
    assert "EDIT" + " " + "ann" + " " + tail == "EDIT ann NEWLINE 0\n";
    assert "EDIT ann NEWLINE 0\n"[1] == 'D' && END_LINE[1] == 'N';
    ThreeFields("EDIT", "ann", tail);
    if StrStr(tail, "SUCCESS").Some? {
      OccursChar(tail, "SUCCESS", StrStr(tail, "SUCCESS").value, 0);
    }
  }

  lemma SecondHalf()
    ensures ReadLine("NEWLINE 0 SUCCESS\n") == Run("")
  {
    hide ReadLine, StrStr;
    var tail := "SUCCESS\n";
    assert "NEWLINE" + " " + "0" + " " + tail == "NEWLINE 0 SUCCESS\n";
    assert "NEWLINE 0 SUCCESS\n"[0] == 'N' && END_LINE[0] == 'E';
    ThreeFields("NEWLINE", "0", tail);
    assert tail[0..7] == "SUCCESS";
    assert OccursAt(tail, "SUCCESS", 0);
    assert StrStr(tail, "SUCCESS").value == 0;
  }

  lemma TwoLines()
    ensures Events(LogLine("ann", "NEWLINE 0\nNEWLINE 0", Done))
         == [Act(ReadLine("EDIT ann NEWLINE 0\n")), Act(ReadLine("NEWLINE 0 SUCCESS\n"))]
  {
    hide ReadLine, StrChr, Events;
    var a, b := "EDIT ann NEWLINE 0\n", "NEWLINE 0 SUCCESS\n";
    assert LogLine("ann", "NEWLINE 0\nNEWLINE 0", Done) == a + b;
    assert a[..|a| - 1] == "EDIT ann NEWLINE 0" && b[..|b| - 1] == "NEWLINE 0 SUCCESS";
    EventsOfFirst(a, b);
    EventsOfLine(b);
  }

  /** An insertion of 240 letters is short enough for the server, but its log line of 267 characters is not for
      the clients. */
  lemma LongInsertOverflows(ps: seq<Piece>) returns (text: string)
    requires WellFormed(ps)
    ensures |text + "\n"| == 250 && '\n' !in text && '\0' !in text && !Contains(text, "SUCCESS")
    ensures Executable(text + "\n", 'w', Size(ps)) && RunOnDoc(ps, text + "\n", 'w').1 == Done
    ensures |LogLine("ann", text, Done)| == 267 && Events(LogLine("ann", text, Done)) == [Overflow]
  {
    hide LogLine, Tokenise, Size, WellFormed, Place, Contains, Events, Word;
    var letters := seq(240, _ => 'a');
    text := "INSERT 0 " + letters;
    assert Stripped(text + "\n") == text;
    InsertAtStart(letters);
    assert forall c :: c in text ==> c in "INSERT 0 " || c == 'a';
    NoU(text);
    LogLineSize("ann", text, Done);
    assert Word(Done) == "SUCCESS" by { DoneWord(); }
    LogLineIsLine("ann", text, Done);
    EventsOfLine(LogLine("ann", text, Done));
  }

  lemma DoneWord()
    ensures Word(Done) == "SUCCESS"
  {
  }

  lemma NoU(text: string)
    requires 'U' !in text
    ensures !Contains(text, "SUCCESS")
  {
    if i: nat :| i <= |text| && OccursAt(text, "SUCCESS", i) {
      OccursChar(text, "SUCCESS", i, 1);
    }
  }

  lemma InsertAtStart(content: string)
    ensures Tokenise("INSERT 0 " + content) == Some(Command.Insert(0, content))
  {
    hide StrChr, Atoi;
    var text, args := "INSERT 0 " + content, "0" + [' '] + content;
    assert text == "INSERT" + [' '] + args;
    StrChrAt("INSERT", ' ', args);
    assert text[..6] == "INSERT" && text[7..] == args;
    StrChrAt("0", ' ', content);
    assert args[..1] == "0" && args[2..] == content;
    AtoiZero();
    assert "INSERT"[0] == 'I' && |"INSERT"| == 6;
  }

  lemma AtoiZero()
    ensures Atoi("0") == 0
  {
    assert "0"[1..] == "";
  }
}
