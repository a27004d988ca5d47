/** Counting the statements of a SQL text: the loop over six mode flags against a reader that
    first erases comments and quoted regions and then counts the segments that hold anything. */
module SqlStatements {
  datatype Mode = Normal | Single | Double | Backtick | Bracket | LineComment | BlockComment

  predicate At(s: string, a: char, b: char) {
    |s| >= 2 && s[0] == a && s[1] == b
  }

  /** Where reading goes on after the first character or two of the text, and in which mode. */
  function Advance(s: string, mode: Mode): (r: (nat, Mode))
    requires s != ""
    ensures 0 < r.0 <= |s|
  {
    match mode
    case LineComment => (1, if s[0] == '\n' then Normal else LineComment)
    case BlockComment => if At(s, '*', '/') then (2, Normal) else (1, BlockComment)
    case Single => if At(s, '\'', '\'') then (2, Single) else (1, if s[0] == '\'' then Normal else Single)
    case Double => if At(s, '"', '"') then (2, Double) else (1, if s[0] == '"' then Normal else Double)
    case Backtick => (1, if s[0] == '`' then Normal else Backtick)
    case Bracket => (1, if s[0] == ']' then Normal else Bracket)
    case Normal =>
      if At(s, '-', '-') then (2, LineComment)
      else if At(s, '/', '*') then (2, BlockComment)
      else (1, match s[0]
               case '\'' => Single
               case '"' => Double
               case '`' => Backtick
               case '[' => Bracket
               case _ => Normal)
  }

  /** A character that stays: outside comments and quotes, and neither opening nor closing one. */
  predicate Stays(s: string, mode: Mode)
    requires s != ""
  {
    mode == Normal && Advance(s, mode) == (1, Normal) && s[0] != ']'
  }

  /** The text without its comments, its quoted regions and their delimiters. */
  function Erase(s: string, mode: Mode): string
    decreases |s|
  {
    if s == "" then ""
    else
      var (n, next) := Advance(s, mode);
      (if Stays(s, mode) then [s[0]] else "") + Erase(s[n..], next)
  }

  function EndMode(s: string, mode: Mode): Mode
    decreases |s|
  {
    if s == "" then mode
    else
      var (n, next) := Advance(s, mode);
      EndMode(s[n..], next)
  }

  predicate IsSpace(c: char) {
    c == ' ' || c == '\t' || c == '\r' || c == '\n'
  }

  /** The segments that the semicolons separate. */
  function Segments(s: string): (parts: seq<string>)
    ensures parts != []
  {
    if s == "" then [""]
    else
      var rest := Segments(s[1..]);
      if s[0] == ';' then [""] + rest else [[s[0]] + rest[0]] + rest[1..]
  }

  predicate HasContent(segment: string) {
    exists c :: c in segment && !IsSpace(c)
  }

  function Count(segments: seq<string>): nat {
    if segments == [] then 0 else (if HasContent(segments[0]) then 1 else 0) + Count(segments[1..])
  }

  /** How many segments hold anything once comments and quoted regions are erased. */
  function Statements(sql: string): nat {
    Count(Segments(Erase(sql, Normal)))
  }

  // ----- the loop

  /** What is left to count: of the current segment it is known whether something was seen. */
  function Left(s: string, content: bool): nat {
    var parts := Segments(s);
    (if content || HasContent(parts[0]) then 1 else 0) + Count(parts[1..])
  }

  lemma LeftStep(c: char, s: string, content: bool)
    ensures Left([c] + s, content) ==
      if c == ';' then (if content then 1 else 0) + Left(s, false) else Left(s, content || !IsSpace(c))
    ensures Left("", content) == if content then 1 else 0
  {
    var t, rest := [c] + s, Segments(s);
    assert t[1..] == s;
    if c != ';' {
      assert Segments(t)[0] == [c] + rest[0] && Segments(t)[1..] == rest[1..];
      assert forall d :: d in [c] + rest[0] <==> d == c || d in rest[0];
    } else {
      assert Segments(t)[1..] == rest;
      assert Count(rest) == (if HasContent(rest[0]) then 1 else 0) + Count(rest[1..]);
    }
  }

  /** At most one of the flags is raised, that of the mode. */
  predicate Flags(mode: Mode, single: bool, double: bool, backtick: bool, bracket: bool, line: bool, block: bool) {
    && (single <==> mode == Single) && (double <==> mode == Double) && (backtick <==> mode == Backtick)
    && (bracket <==> mode == Bracket) && (line <==> mode == LineComment) && (block <==> mode == BlockComment)
  }

  method HasOneStatement(sql: string) returns (one: bool)
    ensures one <==> Statements(sql) == 1
  {
    hide Segments, Erase, Count, HasContent, Left, Statements, IsSpace;
    var statementCount := 0;
    var inSingleQuote, inDoubleQuote, inBacktick, inBracket := false, false, false, false;
    var inLineComment, inBlockComment := false, false;
    var hasContent := false;
    var i := 0;
    ghost var mode := Normal;
    assert sql[0..] == sql;
    StatementsLeft(sql);
    while i < |sql|
      invariant 0 <= i <= |sql|
      invariant Flags(mode, inSingleQuote, inDoubleQuote, inBacktick, inBracket, inLineComment, inBlockComment)
      invariant statementCount + Left(Erase(sql[i..], mode), hasContent) == Statements(sql)
    {
      var here := sql[i];
      var next := if i + 1 < |sql| then sql[i + 1] else '\0';
      ghost var s := sql[i..];
      assert s[0] == here && (|s| >= 2 ==> s[1] == next) && (|s| < 2 ==> next == '\0');
      ghost var (n, after) := Advance(s, mode);
      assert s[n..] == sql[i + n..];
      EraseStep(s, mode);
      if Stays(s, mode) { LeftStep(here, Erase(s[n..], after), hasContent); }
      ghost var was := mode;
      mode := after;
      if inLineComment {
        if here == '\n' { inLineComment := false; }
        i := i + 1;
        continue;
      }
      if inBlockComment {
        if here == '*' && next == '/' {
          inBlockComment := false;
          i := i + 1;
        }
        i := i + 1;
        continue;
      }
      if !inSingleQuote && !inDoubleQuote && !inBacktick && !inBracket {
        if here == '-' && next == '-' {
          inLineComment := true;
          i := i + 2;
          continue;
        }
        if here == '/' && next == '*' {
          inBlockComment := true;
          i := i + 2;
          continue;
        }
      }
      match here {
        case '\'' =>
          if !inDoubleQuote && !inBacktick && !inBracket {
            if inSingleQuote && next == '\'' {
              i := i + 2;
              continue;
            }
            inSingleQuote := !inSingleQuote;
          }
        case '"' =>
          if !inSingleQuote && !inBacktick && !inBracket {
            if inDoubleQuote && next == '"' {
              i := i + 2;
              continue;
            }
            inDoubleQuote := !inDoubleQuote;
          }
        case '`' =>
          if !inSingleQuote && !inDoubleQuote && !inBracket { inBacktick := !inBacktick; }
        case '[' =>
          if !inSingleQuote && !inDoubleQuote && !inBacktick { inBracket := true; }
        case ']' =>
          if inBracket { inBracket := false; }
        case ';' =>
          if !inSingleQuote && !inDoubleQuote && !inBacktick && !inBracket && hasContent {
            statementCount := statementCount + 1;
            hasContent := false;
          }
        case _ =>
          if !inSingleQuote && !inDoubleQuote && !inBacktick && !inBracket && !IsSpace(here) { hasContent := true; }
      }
      i := i + 1;
    }
    NothingLeft(sql[i..], mode, hasContent);
    if hasContent { statementCount := statementCount + 1; }
    one := statementCount == 1;
  }

  lemma EraseStep(s: string, mode: Mode)
    requires s != ""
    ensures var (n, next) := Advance(s, mode);
      && Erase(s, mode) == (if Stays(s, mode) then [s[0]] + Erase(s[n..], next) else Erase(s[n..], next))
      && EndMode(s, mode) == EndMode(s[n..], next)
  {
  }

  lemma StatementsLeft(sql: string)
    ensures Left(Erase(sql, Normal), false) == Statements(sql)
  {
    hide Erase, Segments, HasContent;
  }

  lemma NothingLeft(s: string, mode: Mode, content: bool)
    requires s == ""
    ensures Left(Erase(s, mode), content) == if content then 1 else 0
  {
    LeftStep(' ', "", content);
  }

  // ----- statements add up

  /** The last character of a text, read to this mode, makes no token with the next one. */
  predicate Apart(a: string, c: char, end: Mode) {
    a == "" || match end
               case Normal => [a[|a| - 1], c] !in ["--", "/*", "''", "\"\""]
               case BlockComment => [a[|a| - 1], c] != "*/"
               case _ => true
  }

  /** Texts that no token joins are read one after the other; a semicolon joins nothing. */
  lemma {:induction false} EraseAppend(a: string, b: string, mode: Mode)
    requires b != "" && Apart(a, b[0], EndMode(a, mode))
    ensures Erase(a + b, mode) == Erase(a, mode) + Erase(b, EndMode(a, mode))
    decreases |a|
  {
    hide Advance, Stays, Erase, EndMode, Apart;
    if a == "" {
      assert a + b == b;
      EraseNothing(mode);
    } else {
      EraseStep(a, mode);
      var (n, next) := Advance(a, mode);
      if |a| == 1 {
        assert a[n..] == "";
        EraseNothing(next);
      }
      SameAdvance(a, b, mode);
      ApartTail(a, n, b[0], EndMode(a, mode));
      assert (a + b)[n..] == a[n..] + b && (a + b)[0] == a[0];
      EraseAppend(a[n..], b, next);
      EraseStep(a + b, mode);
      var rest, tail := Erase(a[n..], next), Erase(b, EndMode(a, mode));
      assert [a[0]] + (rest + tail) == ([a[0]] + rest) + tail;
    }
  }

  lemma ApartTail(a: string, n: nat, c: char, end: Mode)
    requires n <= |a| && Apart(a, c, end)
    ensures Apart(a[n..], c, end)
  {
  }

  lemma EraseNothing(mode: Mode)
    ensures Erase("", mode) == "" && EndMode("", mode) == mode
  {
  }

  lemma SameAdvance(a: string, b: string, mode: Mode)
    requires a != "" && b != "" && (|a| > 1 || Apart(a, b[0], Advance(a, mode).1))
    ensures Advance(a + b, mode) == Advance(a, mode) && Stays(a + b, mode) == Stays(a, mode)
  {
    assert (a + b)[0] == a[0];
    assert |a| >= 2 ==> (a + b)[1] == a[1];
    assert |a| == 1 ==> (a + b)[1] == b[0];
  }

  lemma {:induction false} CountAppend(a: string, b: string)
    ensures Count(Segments(a + ";" + b)) == Count(Segments(a)) + Count(Segments(b))
    ensures forall content :: Left(a + ";" + b, content) == Left(a, content) + Left(b, false)
    decreases |a|
  {
    hide Segments, HasContent, IsSpace;
    forall content: bool
      ensures Left(a + ";" + b, content) == Left(a, content) + Left(b, false)
    {
      if a == "" {
        assert a + ";" + b == [';'] + b;
        LeftStep(';', b, content);
      } else {
        assert a + ";" + b == [a[0]] + (a[1..] + ";" + b);
        assert a == [a[0]] + a[1..];
        LeftStep(a[0], a[1..] + ";" + b, content);
        LeftStep(a[0], a[1..], content);
        CountAppend(a[1..], b);
      }
    }
    LeftFromNothing(a + ";" + b);
    LeftFromNothing(a);
    LeftFromNothing(b);
  }

  lemma LeftFromNothing(s: string)
    ensures Left(s, false) == Count(Segments(s))
  {
    hide Segments, HasContent;
  }

  /** Texts joined by a semicolon count together, when the first ends outside quotes and comments. */
  lemma StatementsAddUp(a: string, b: string)
    requires EndMode(a, Normal) == Normal
    ensures Statements(a + ";" + b) == Statements(a) + Statements(b)
  {
    hide Segments, Count, Erase;
    assert a + ";" + b == a + (";" + b);
    EraseAppend(a, ";" + b, Normal);
    EraseSemicolon(b);
    assert Erase(a + ";" + b, Normal) == Erase(a, Normal) + ";" + Erase(b, Normal);
    CountAppend(Erase(a, Normal), Erase(b, Normal));
  }

  lemma EraseSemicolon(b: string)
    ensures Erase(";" + b, Normal) == ";" + Erase(b, Normal)
  {
    hide Erase;
    var s := ";" + b;
    EraseStep(s, Normal);
    assert s[1..] == b;
  }

  // ----- texts without a statement

  lemma {:induction false} LeftNothing(s: string, content: bool)
    ensures Left(s, content) == 0 <==> !content && forall c :: c in s ==> c == ';' || IsSpace(c)
    decreases |s|
  {
    hide Left;
    if s == "" {
      LeftStep(' ', s, content);
    } else {
      var c, rest := s[0], s[1..];
      assert s == [c] + rest;
      LeftStep(c, rest, content);
      LeftNothing(rest, false);
      LeftNothing(rest, content || !IsSpace(c));
      assert forall d :: d in s <==> d == c || d in rest;
    }
  }

  /** A text has no statement exactly when nothing but semicolons and white space stays of it. */
  lemma NoStatementExactlyWhen(sql: string)
    ensures Statements(sql) == 0 <==> forall c :: c in Erase(sql, Normal) ==> c == ';' || IsSpace(c)
  {
    hide Erase, Left;
    LeftFromNothing(Erase(sql, Normal));
    LeftNothing(Erase(sql, Normal), false);
  }

  // ----- comments and quotes

  lemma {:induction false} LineErased(text: string, rest: string)
    requires '\n' !in text
    ensures Erase(text + "\n" + rest, LineComment) == Erase(rest, Normal)
    decreases |text|
  {
    hide Erase;
    var s := text + "\n" + rest;
    EraseStep(s, LineComment);
    if text == "" {
      assert s[1..] == rest;
    } else {
      assert s[1..] == text[1..] + "\n" + rest;
      LineErased(text[1..], rest);
    }
  }

  predicate HasBlockEnd(text: string) {
    exists i :: 0 <= i < |text| - 1 && text[i] == '*' && text[i + 1] == '/'
  }

  lemma {:induction false} BlockErased(text: string, rest: string)
    requires !HasBlockEnd(text)
    ensures Erase(text + "*/" + rest, BlockComment) == Erase(rest, Normal)
    decreases |text|
  {
    hide Erase;
    var s := text + "*/" + rest;
    EraseStep(s, BlockComment);
    if text == "" {
      assert s[2..] == rest;
    } else {
      assert s[0] == text[0] && s[1] == if |text| > 1 then text[1] else '*';
      assert s[1..] == text[1..] + "*/" + rest;
      BlockErased(text[1..], rest);
    }
  }

  /** The text with every quote written twice. */
  function Doubled(text: string, quote: char): string {
    if text == "" then "" else (if text[0] == quote then [quote, quote] else [text[0]]) + Doubled(text[1..], quote)
  }

  lemma {:induction false} DoubledErased(text: string, quote: char, mode: Mode, rest: string)
    requires (quote == '\'' && mode == Single) || (quote == '"' && mode == Double)
    requires rest == "" || rest[0] != quote
    ensures Erase(Doubled(text, quote) + [quote] + rest, mode) == Erase(rest, Normal)
    decreases |text|
  {
    hide Erase;
    var s := Doubled(text, quote) + [quote] + rest;
    EraseStep(s, mode);
    if text == "" {
      assert s[1..] == rest;
    } else {
      var tail := Doubled(text[1..], quote) + [quote] + rest;
      assert s == (if text[0] == quote then [quote, quote] else [text[0]]) + tail;
      assert s[if text[0] == quote then 2 else 1..] == tail;
      DoubledErased(text[1..], quote, mode, rest);
    }
  }

  lemma {:induction false} ClosedErased(text: string, close: char, mode: Mode, rest: string)
    requires (close == '`' && mode == Backtick) || (close == ']' && mode == Bracket)
    requires close !in text
    ensures Erase(text + [close] + rest, mode) == Erase(rest, Normal)
    decreases |text|
  {
    hide Erase;
    var s := text + [close] + rest;
    EraseStep(s, mode);
    if text == "" {
      assert s[1..] == rest;
    } else {
      assert s[1..] == text[1..] + [close] + rest;
      ClosedErased(text[1..], close, mode, rest);
    }
  }

  datatype Region = Line(text: string) | Block(text: string) | Literal(quote: char, text: string) | Name(text: string)
                  | Bracketed(text: string) | StrayBracket

  /** The region can be written between the two texts: it holds no mark of its own end, and its
      first and last marks join nothing outside. */
  predicate Fits(r: Region, a: string, b: string) {
    match r
    case Line(text) => '\n' !in text && (a == "" || a[|a| - 1] != '-')
    case Block(text) => !HasBlockEnd(text)
    case Literal(quote, text) =>
      quote in "'\"" && (a == "" || a[|a| - 1] != quote) && (b == "" || b[0] != quote)
    case Name(text) => '`' !in text
    case Bracketed(text) => ']' !in text
    case StrayBracket => true
  }

  function Written(r: Region): string {
    match r
    case Line(text) => "--" + text + "\n"
    case Block(text) => "/*" + text + "*/"
    case Literal(quote, text) => [quote] + Doubled(text, quote) + [quote]
    case Name(text) => "`" + text + "`"
    case Bracketed(text) => "[" + text + "]"
    case StrayBracket => "]"
  }

  lemma CommentErased(r: Region, a: string, b: string)
    requires Fits(r, a, b) && (r.Line? || r.Block?)
    ensures Erase(Written(r) + b, Normal) == Erase(b, Normal)
  {
    hide Erase, HasBlockEnd, At, Advance, Stays, Doubled;
    var s := Written(r) + b;
    OpenComment(s);
    if r.Line? {
      assert s[2..] == r.text + "\n" + b;
      LineErased(r.text, b);
    } else {
      assert s[2..] == r.text + "*/" + b;
      BlockErased(r.text, b);
    }
  }

  lemma OpenComment(s: string)
    requires |s| >= 2
    ensures s[0] == s[1] == '-' ==> Erase(s, Normal) == Erase(s[2..], LineComment)
    ensures s[0] == '/' && s[1] == '*' ==> Erase(s, Normal) == Erase(s[2..], BlockComment)
  {
    hide Erase;
    EraseStep(s, Normal);
  }

  lemma LiteralErased(quote: char, text: string, rest: string)
    requires quote in "'\"" && (rest == "" || rest[0] != quote)
    ensures Erase([quote] + Doubled(text, quote) + [quote] + rest, Normal) == Erase(rest, Normal)
  {
    hide Erase, Doubled, Advance;
    var s := [quote] + Doubled(text, quote) + [quote] + rest;
    OpenQuote(s);
    assert s[1..] == Doubled(text, quote) + [quote] + rest;
    DoubledErased(text, quote, if quote == '"' then Double else Single, rest);
  }

  lemma NameErased(open: char, text: string, close: char, rest: string)
    requires (open == close == '`' || (open == '[' && close == ']')) && close !in text
    ensures Erase([open] + text + [close] + rest, Normal) == Erase(rest, Normal)
  {
    hide Erase, Advance;
    var s := [open] + text + [close] + rest;
    OpenQuote(s);
    assert s[1..] == text + [close] + rest;
    ClosedErased(text, close, if close == '`' then Backtick else Bracket, rest);
  }

  lemma QuotedErased(r: Region, a: string, b: string)
    requires Fits(r, a, b) && !r.Line? && !r.Block?
    ensures Erase(Written(r) + b, Normal) == Erase(b, Normal)
  {
    hide Erase, Doubled, At, Advance, Stays, HasBlockEnd;
    match r
    case Literal(quote, text) => LiteralErased(quote, text, b);
    case Name(text) => NameErased('`', text, '`', b);
    case Bracketed(text) => NameErased('[', text, ']', b);
    case StrayBracket =>
      OpenQuote("]" + b);
      assert ("]" + b)[1..] == b;
  }

  lemma OpenQuote(s: string)
    requires s != ""
    ensures s[0] == '\'' ==> Erase(s, Normal) == Erase(s[1..], Single)
    ensures s[0] == '"' ==> Erase(s, Normal) == Erase(s[1..], Double)
    ensures s[0] == '`' ==> Erase(s, Normal) == Erase(s[1..], Backtick)
    ensures s[0] == '[' ==> Erase(s, Normal) == Erase(s[1..], Bracket)
    ensures s[0] == ']' ==> Erase(s, Normal) == Erase(s[1..], Normal)
  {
    hide Erase;
    EraseStep(s, Normal);
  }

  lemma RegionErased(r: Region, a: string, b: string)
    requires Fits(r, a, b)
    ensures Written(r) != "" && Erase(Written(r) + b, Normal) == Erase(b, Normal)
    ensures Apart(a, Written(r)[0], Normal)
  {
    hide Erase, Doubled, HasBlockEnd;
    if r.Line? || r.Block? { CommentErased(r, a, b); } else { QuotedErased(r, a, b); }
  }

  lemma {:induction false} SpaceCountsNothing(a: string, b: string, content: bool)
    ensures Left(a + " " + b, content) == Left(a + b, content)
    decreases |a|
  {
    hide Left;
    if a == "" {
      assert a + " " + b == [' '] + b && a + b == b;
      LeftStep(' ', b, content);
    } else {
      assert a + " " + b == [a[0]] + (a[1..] + " " + b) && a + b == [a[0]] + (a[1..] + b);
      LeftStep(a[0], a[1..] + " " + b, content);
      LeftStep(a[0], a[1..] + b, content);
      SpaceCountsNothing(a[1..], b, false);
      SpaceCountsNothing(a[1..], b, content || !IsSpace(a[0]));
    }
  }

  /** Outside quotes, brackets and comments, a comment, a quoted region or a closing bracket counts
      as a space does, whatever it holds: semicolons in it separate nothing, and it is no content. */
  lemma RegionsAreSpace(a: string, r: Region, b: string)
    requires EndMode(a, Normal) == Normal && Fits(r, a, b)
    ensures Statements(a + Written(r) + b) == Statements(a + " " + b)
  {
    hide Erase, Left, Written, EndMode, Statements, Fits;
    RegionErased(r, a, b);
    assert a + Written(r) + b == a + (Written(r) + b) && a + " " + b == a + (" " + b);
    EraseAppend(a, Written(r) + b, Normal);
    EraseAppend(a, " " + b, Normal);
    SpaceErased(b);
    var x, y := Erase(a, Normal), Erase(b, Normal);
    assert x + (" " + y) == x + " " + y;
    SpaceCountsNothing(x, y, false);
    StatementsLeft(a + Written(r) + b);
    StatementsLeft(a + " " + b);
  }

  lemma SpaceErased(b: string)
    ensures Erase(" " + b, Normal) == " " + Erase(b, Normal)
  {
    hide Erase;
    var s := " " + b;
    EraseStep(s, Normal);
    assert s[1..] == b;
  }

  /** A text that is nothing but comments, literals or names has no statement. */
  lemma QuotedLiteralIsNothing(r: Region)
    requires Fits(r, "", "")
    ensures Statements(Written(r)) == 0
  {
    hide Erase, Left, Written, Fits;
    RegionErased(r, "", "");
    assert Written(r) + "" == Written(r);
    NoStatementExactlyWhen(Written(r));
    assert Erase("", Normal) == "" by { EraseNothing(Normal); }
  }

  /** A region that is never closed hides the rest of the text. */
  lemma {:induction false} UnclosedErased(text: string, mode: Mode)
    requires mode != Normal
    requires match mode
      case LineComment => '\n' !in text
      case BlockComment => !HasBlockEnd(text)
      case Single => '\'' !in text
      case Double => '"' !in text
      case Backtick => '`' !in text
      case Bracket => ']' !in text
      case Normal => false
    ensures Erase(text, mode) == ""
    decreases |text|
  {
    hide Erase;
    if text == "" {
      EraseNothing(mode);
    } else {
      EraseStep(text, mode);
      assert text == [text[0]] + text[1..];
      UnclosedErased(text[1..], mode);
    }
  }

  /** So an opening mark with no closing one ends the text. */
  lemma UnclosedIsTheEnd(a: string, text: string)
    requires EndMode(a, Normal) == Normal
    ensures '\n' !in text && (a == "" || a[|a| - 1] != '-') ==> Statements(a + "--" + text) == Statements(a)
    ensures !HasBlockEnd(text) ==> Statements(a + "/*" + text) == Statements(a)
    ensures '\'' !in text && (a == "" || a[|a| - 1] != '\'') ==> Statements(a + "'" + text) == Statements(a)
    ensures '"' !in text && (a == "" || a[|a| - 1] != '"') ==> Statements(a + "\"" + text) == Statements(a)
    ensures '`' !in text ==> Statements(a + "`" + text) == Statements(a)
    ensures ']' !in text ==> Statements(a + "[" + text) == Statements(a)
  {
    hide Statements, HasBlockEnd, EndMode;
    if '\n' !in text && (a == "" || a[|a| - 1] != '-') { OpenedIsTheEnd(a, "--", text, LineComment); }
    if !HasBlockEnd(text) { OpenedIsTheEnd(a, "/*", text, BlockComment); }
    if '\'' !in text && (a == "" || a[|a| - 1] != '\'') { OpenedIsTheEnd(a, "'", text, Single); }
    if '"' !in text && (a == "" || a[|a| - 1] != '"') { OpenedIsTheEnd(a, "\"", text, Double); }
    if '`' !in text { OpenedIsTheEnd(a, "`", text, Backtick); }
    if ']' !in text { OpenedIsTheEnd(a, "[", text, Bracket); }
  }

  lemma OpenedIsTheEnd(a: string, open: string, text: string, mode: Mode)
    requires EndMode(a, Normal) == Normal && open != "" && Apart(a, open[0], Normal)
    requires (open, mode) in {("--", LineComment), ("/*", BlockComment), ("'", Single), ("\"", Double),
                              ("`", Backtick), ("[", Bracket)}
    requires match mode
      case LineComment => '\n' !in text
      case BlockComment => !HasBlockEnd(text)
      case Single => '\'' !in text
      case Double => '"' !in text
      case Backtick => '`' !in text
      case Bracket => ']' !in text
      case Normal => false
    ensures Statements(a + open + text) == Statements(a)
  {
    hide Erase, EndMode, HasBlockEnd, Advance, Segments, Count, Apart;
    var s := open + text;
    assert a + open + text == a + s;
    EraseAppend(a, s, Normal);
    if |open| == 1 { OpenQuote(s); } else { OpenComment(s); }
    assert s[|open|..] == text;
    UnclosedErased(text, mode);
    assert Erase(a, Normal) + "" == Erase(a, Normal);
  }

  // ----- plain text

  /** No character that opens, closes or separates, and no comment mark. */
  predicate Plain(text: string) {
    && (forall c :: c in text ==> c !in "'\"`[];")
    && (forall i :: 0 <= i < |text| - 1 ==>
          !(text[i] == '-' && text[i + 1] == '-') && !(text[i] == '/' && text[i + 1] == '*'))
  }

  lemma {:induction false} PlainStays(text: string)
    requires Plain(text)
    ensures Erase(text, Normal) == text && EndMode(text, Normal) == Normal
    decreases |text|
  {
    hide Erase, EndMode;
    if text == "" {
      EraseNothing(Normal);
    } else {
      assert text[0] in text;
      assert |text| > 1 ==> !(text[0] == '-' && text[1] == '-') && !(text[0] == '/' && text[1] == '*');
      EraseStep(text, Normal);
      var rest := text[1..];
      forall i | 0 <= i < |rest| - 1
        ensures !(rest[i] == '-' && rest[i + 1] == '-') && !(rest[i] == '/' && rest[i + 1] == '*') {
        assert rest[i] == text[i + 1] && rest[i + 1] == text[i + 2];
      }
      PlainStays(rest);
      assert text == [text[0]] + rest;
    }
  }

  lemma {:induction false} OneSegment(text: string, content: bool)
    requires ';' !in text
    ensures Left(text, content) == if content || exists c :: c in text && c !in " \t\r\n" then 1 else 0
    decreases |text|
  {
    hide Left;
    if text == "" {
      LeftStep(' ', "", content);
    } else {
      assert text == [text[0]] + text[1..];
      LeftStep(text[0], text[1..], content);
      OneSegment(text[1..], content || text[0] !in " \t\r\n");
      assert forall c :: c in text <==> c == text[0] || c in text[1..];
    }
  }

  /** Plain text is one statement, if it holds anything but white space. */
  lemma PlainIsOne(text: string)
    requires Plain(text)
    ensures EndMode(text, Normal) == Normal
    ensures Statements(text) == if exists c :: c in text && c !in " \t\r\n" then 1 else 0
  {
    hide Erase, Left, EndMode, Statements;
    PlainStays(text);
    StatementsLeft(text);
    OneSegment(text, false);
  }
}
