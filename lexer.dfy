/** The lexer of lib/lex.cpp: a character-level state machine with a one-character
    lookahead (`last_char`), a LIFO push-back buffer of BUFSIZE slots and a line/column
    counter. The class Lexer holds that state; every method is proved to compute the
    function of the abstract state `LexState` that specifies it. */
module Lexer {
  import opened Chars
  import opened Tokens

  const BUFSIZE: nat := 100

  /** The 22 characters an operator spelling may be made of. */
  const OperatorAlphabet: string := "!$%&:*/+-<>=?@[]\\^|{}~"

  /** is_viable_operator_char */
  predicate IsViableOperatorChar(c: int) {
    c == '!' as int || c == '$' as int || c == '%' as int || c == '&' as int || c == ':' as int ||
    c == '*' as int || c == '/' as int || c == '+' as int || c == '-' as int || c == '<' as int ||
    c == '>' as int || c == '=' as int || c == '?' as int || c == '@' as int || c == '[' as int ||
    c == ']' as int || c == '\\' as int || c == '^' as int || c == '|' as int || c == '{' as int ||
    c == '}' as int || c == '~' as int
  }

  /** Characters that may stand between the backticks of a quoted operator name. */
  predicate IsQuotedChar(c: int) {
    (IsAlnum(c) || IsViableOperatorChar(c)) && c != '`' as int
  }

  lemma QuotedCharIsAscii(c: int)
    requires IsQuotedChar(c)
    ensures 0 <= c < 128
  {
  }

  /** The lexer's whole state: TheSource (stream and position), buf[0..bufp) with the top of
      the stack last, lex_loc, cur_loc, gettok's static last_char, and the globals
      identifier_str, operator_name and the kept text of the number literal. */
  datatype LexState = LexState(
    stream: seq<int>, pos: nat,
    buf: seq<int>,
    lexLoc: SourceLocation, curLoc: SourceLocation,
    lastChar: int,
    identifierStr: string, operatorName: string, numText: string)

  /** Characters left to read: pushed back ones plus the unread rest of the stream. */
  function Remaining(s: LexState): nat {
    |s.buf| + (if s.pos <= |s.stream| then |s.stream| - s.pos else 0)
  }

  /** A line end starts a new line at column 0; any other character moves one column. */
  function NextLoc(loc: SourceLocation, c: int): SourceLocation {
    if IsLineEnd(c) then SourceLocation(loc.line + 1, 0) else SourceLocation(loc.line, loc.col + 1)
  }

  /** putback_char: push onto the buffer; a full buffer drops the character. */
  function PutBack(s: LexState, c: int): (r: LexState)
    ensures |s.buf| == BUFSIZE ==> r == s
    ensures |s.buf| != BUFSIZE ==> r == s.(buf := s.buf + [c])
  {
    if |s.buf| == BUFSIZE then s else s.(buf := s.buf + [c])
  }

  /** get_char: pop the buffer if it is not empty, otherwise read the source; then move the
      location past the character. */
  function ReadNext(s: LexState): (r: (int, LexState))
    ensures Remaining(r.1) < Remaining(s) || (r.0 == EOF && Remaining(r.1) == Remaining(s))
    ensures r.1 == s.(buf := r.1.buf, pos := r.1.pos, lexLoc := NextLoc(s.lexLoc, r.0))
    ensures |r.1.buf| <= |s.buf|
  {
    if |s.buf| > 0 then
      var c := s.buf[|s.buf| - 1];
      (c, s.(buf := s.buf[..|s.buf| - 1], lexLoc := NextLoc(s.lexLoc, c)))
    else
      var (c, p) := ReadChar(s.stream, s.pos);
      (c, s.(pos := p, lexLoc := NextLoc(s.lexLoc, c)))
  }

  /** `last_char = get_char()` */
  function Advance(s: LexState): (r: LexState)
    ensures Remaining(r) < Remaining(s) || (r.lastChar == EOF && Remaining(r) == Remaining(s))
    ensures r == s.(buf := r.buf, pos := r.pos, lexLoc := r.lexLoc, lastChar := r.lastChar)
    ensures |r.buf| <= |s.buf|
  {
    var (c, s1) := ReadNext(s);
    s1.(lastChar := c)
  }

  /** for_each(name.rbegin(), name.rend(), putback_char): the last character goes first. */
  function PushBackAll(s: LexState, cs: seq<int>): (r: LexState)
    ensures r == s.(buf := r.buf)
    decreases |cs|
  {
    if cs == [] then s else PushBackAll(PutBack(s, cs[|cs| - 1]), cs[..|cs| - 1])
  }

  /** The loop over a backtick-quoted name: gathers quoted characters into name until the
      first other character c, which it returns unconsumed from the name. */
  function QuotedRun(s: LexState, c: int, name: seq<int>): (r: (int, LexState, seq<int>))
    requires Ascii(name)
    ensures Ascii(r.2) && !IsQuotedChar(r.0)
    ensures r.1 == s.(buf := r.1.buf, pos := r.1.pos, lexLoc := r.1.lexLoc) && |r.1.buf| <= |s.buf|
    decreases Remaining(s) + (if IsQuotedChar(c) then 1 else 0)
  {
    if IsQuotedChar(c) then
      var (c1, s1) := ReadNext(s);
      QuotedCharIsAscii(c);
      AsciiSnoc(name, c);
      QuotedRun(s1, c1, name + [c])
    else
      (c, s, name)
  }

  /** The loop over an unquoted spelling: appends operator characters to operator_name. */
  function OperatorRun(s: LexState, c: int): (r: (int, LexState))
    ensures !IsViableOperatorChar(r.0)
    ensures r.1 == s.(buf := r.1.buf, pos := r.1.pos, lexLoc := r.1.lexLoc,
                      operatorName := r.1.operatorName)
    ensures |r.1.buf| <= |s.buf|
    decreases Remaining(s) + (if IsViableOperatorChar(c) then 1 else 0)
  {
    if IsViableOperatorChar(c) then
      var (c1, s1) := ReadNext(s.(operatorName := s.operatorName + [c as char]));
      OperatorRun(s1, c1)
    else
      (c, s)
  }

  /** get_operator(last_char): scans an operator spelling starting at last and returns the
      character after it. A quoted name that is unterminated or empty is pushed back whole
      and operator_name is left empty. */
  function OperatorSpelling(s0: LexState, last: int): (r: (int, LexState))
    ensures r.1.curLoc == s0.curLoc && r.1.identifierStr == s0.identifierStr && r.1.numText == s0.numText
  {
    var s := s0.(operatorName := "");
    if last == '`' as int then
      var (c1, s1) := ReadNext(s);
      var (c, s2, name) := QuotedRun(s1, c1, ['`' as int]);
      ReadNext(QuotedEnd(s2, c, name))
    else
      OperatorRun(s, last)
  }

  /** The end of the quoted branch, once the name loop stopped at c: a name that is not
      closed by a backtick, or is empty, is pushed back whole with its stopping character;
      otherwise the spelling is the name with both backticks. */
  function QuotedEnd(s: LexState, c: int, name: seq<int>): (r: LexState)
    requires Ascii(name)
    ensures r.curLoc == s.curLoc && r.identifierStr == s.identifierStr && r.numText == s.numText
  {
    var full := name + [c];
    if c != '`' as int || full == ['`' as int, '`' as int] then PushBackAll(s, full)
    else s.(operatorName := ToStr(full))
  }

  /** `while (isspace(last_char)) last_char = get_char();` */
  function SkipSpace(s: LexState): (r: LexState)
    ensures Remaining(r) <= Remaining(s) && !IsSpace(r.lastChar)
    ensures r == s.(buf := r.buf, pos := r.pos, lexLoc := r.lexLoc, lastChar := r.lastChar)
    ensures |r.buf| <= |s.buf|
    decreases Remaining(s) + (if IsSpace(s.lastChar) then 1 else 0)
  {
    if IsSpace(s.lastChar) then SkipSpace(Advance(s)) else s
  }

  /** The identifier loop: last_char was just read; append it while it is alphanumeric. */
  function IdentRest(s: LexState): (r: LexState)
    ensures !IsAlnum(r.lastChar)
    ensures r == s.(buf := r.buf, pos := r.pos, lexLoc := r.lexLoc, lastChar := r.lastChar,
                    identifierStr := r.identifierStr)
    ensures |r.buf| <= |s.buf|
    decreases Remaining(s) + (if IsAlnum(s.lastChar) then 1 else 0)
  {
    if IsAlnum(s.lastChar) then
      IdentRest(Advance(s.(identifierStr := s.identifierStr + [s.lastChar as char])))
    else
      s
  }

  /** The number loop: last_char was just read; from the second point on, characters are
      consumed but no longer kept. */
  function NumberRest(s: LexState, hasPoint: bool, hasSecondPoint: bool): (r: LexState)
    ensures !IsNumberChar(r.lastChar)
    ensures r == s.(buf := r.buf, pos := r.pos, lexLoc := r.lexLoc, lastChar := r.lastChar,
                    numText := r.numText)
    decreases Remaining(s) + (if IsNumberChar(s.lastChar) then 1 else 0)
  {
    var c := s.lastChar;
    if IsNumberChar(c) then
      var second := if !hasSecondPoint then hasPoint && c == '.' as int else hasSecondPoint;
      var point := if !hasPoint then c == '.' as int else hasPoint;
      var s1 := if !second then s.(numText := s.numText + [c as char]) else s;
      NumberRest(Advance(s1), point, second)
    else
      s
  }

  /** One turn of the number loop, with the flags updated as the loop body does. */
  lemma NumberTurn(s: LexState, hasPoint: bool, hasSecondPoint: bool)
    requires IsNumberChar(s.lastChar)
    ensures var c := s.lastChar;
      var second := if !hasSecondPoint then hasPoint && c == '.' as int else hasSecondPoint;
      var point := if !hasPoint then c == '.' as int else hasPoint;
      NumberRest(s, hasPoint, hasSecondPoint) ==
        NumberRest(Advance(s.(numText := if !second then s.numText + [c as char] else s.numText)), point, second)
  {
  }

  /** The comment loop: read up to and including EOF or a line end. */
  function CommentRest(s: LexState): (r: LexState)
    ensures r.lastChar == EOF || IsLineEnd(r.lastChar)
    ensures r.lastChar == EOF || Remaining(r) < Remaining(s)
    ensures r == s.(buf := r.buf, pos := r.pos, lexLoc := r.lexLoc, lastChar := r.lastChar)
    decreases Remaining(s)
  {
    var s1 := Advance(s);
    if s1.lastChar == EOF || IsLineEnd(s1.lastChar) then s1 else CommentRest(s1)
  }

  /** The identifier state: scan the word, then map keywords to their codes; `binary` and
      `unary` switch to operator scanning and fall back to an identifier when no spelling
      follows. */
  function WordToken(s0: LexState): (r: (int, LexState))
    requires IsAlpha(s0.lastChar)
    ensures r.1.curLoc == s0.curLoc
  {
    WordCode(IdentRest(Advance(s0.(identifierStr := [s0.lastChar as char]))))
  }

  /** The keyword chain after the identifier loop, on the word in identifier_str. */
  function WordCode(s: LexState): (r: (int, LexState))
    ensures r.1.curLoc == s.curLoc
  {
    var w := s.identifierStr;
    if w == "def" then (TokDef, s)
    else if w == "extern" then (TokExtern, s)
    else if w == "if" then (TokIf, s)
    else if w == "then" then (TokThen, s)
    else if w == "else" then (TokElse, s)
    else if w == "for" then (TokFor, s)
    else if w == "do" then (TokDo, s)
    else if w == "end" then (TokEnd, s)
    else if w == "binary" then
      var (c, s1) := OperatorSpelling(s, s.lastChar);
      (if s1.operatorName == "" then TokIdentifier else TokBinary, s1.(lastChar := c))
    else if w == "unary" then
      var (c, s1) := OperatorSpelling(s, s.lastChar);
      (if s1.operatorName == "" then TokIdentifier else TokUnary, s1.(lastChar := c))
    else if w == "with" then (TokWith, s)
    else (TokIdentifier, s)
  }

  /** The number state. */
  function NumberToken(s0: LexState): (r: (int, LexState))
    requires IsNumberChar(s0.lastChar)
    ensures r.1.curLoc == s0.curLoc
  {
    var c := s0.lastChar;
    (TokNumber, NumberRest(Advance(s0.(numText := [c as char])), c == '.' as int, false))
  }

  /** End of input, or any other character returned as itself. */
  function LastResort(s: LexState): (r: (int, LexState))
    ensures r.1.curLoc == s.curLoc
  {
    if s.lastChar == EOF then (TokEof, s.(lastChar := ' ' as int))
    else (s.lastChar, Advance(s))
  }

  /** Operator spellings, then the fallbacks. */
  function OtherToken(s: LexState): (r: (int, LexState))
    ensures r.1.curLoc == s.curLoc
  {
    if s.lastChar == '`' as int || IsViableOperatorChar(s.lastChar) then
      var (c, s1) := OperatorSpelling(s, s.lastChar);
      var s2 := s1.(lastChar := c);
      if s2.operatorName != "" then (TokOperator, s2) else LastResort(s2)
    else
      LastResort(s)
  }

  /** gettok */
  function NextToken(s0: LexState): (r: (int, LexState))
    decreases Remaining(s0), 1
  {
    Classify(Started(s0))
  }

  /** gettok after its whitespace loop, with cur_loc set. */
  function Started(s: LexState): (r: LexState)
    ensures Remaining(r) <= Remaining(s) && !IsSpace(r.lastChar)
  {
    var t := SkipSpace(s);
    t.(curLoc := t.lexLoc)
  }

  /** The dispatch of gettok on the first character of the token. */
  function Classify(s: LexState): (r: (int, LexState))
    requires !IsSpace(s.lastChar)
    decreases Remaining(s), 0
  {
    if IsAlpha(s.lastChar) then WordToken(s)
    else if IsNumberChar(s.lastChar) then NumberToken(s)
    else if s.lastChar == '#' as int then
      var s2 := CommentRest(s);
      if s2.lastChar != EOF then NextToken(s2) else OtherToken(s2)
    else OtherToken(s)
  }

  /** The token snapshot the parser sees after a call. */
  function Snapshot(code: int, s: LexState): Tok {
    Tok(code, s.identifierStr, s.operatorName, s.numText)
  }

  /** The lexer object: the static and global state of lib/lex.cpp. */
  class Lexer {
    const reader: SourceReader
    const buf: array<int>
    var bufp: nat
    var lexLoc: SourceLocation
    var curLoc: SourceLocation
    var lastChar: int
    var identifierStr: string
    var operatorName: string
    var numText: string

    ghost predicate Valid()
      reads this
    {
      buf.Length == BUFSIZE && bufp <= BUFSIZE
    }

    function State(): LexState
      reads this, reader, buf
      requires Valid()
    {
      LexState(reader.stream, reader.pos, buf[..bufp], lexLoc, curLoc, lastChar,
               identifierStr, operatorName, numText)
    }

    /** The initial values of the statics and globals. */
    constructor ()
      ensures Valid() && fresh(reader) && fresh(buf)
      ensures State() == LexState([], 0, [], SourceLocation(1, 0), SourceLocation(0, 0),
                                  ' ' as int, "", "", "")
    {
      reader := new SourceReader();
      buf := new int[BUFSIZE];
      bufp := 0;
      lexLoc := SourceLocation(1, 0);
      curLoc := SourceLocation(0, 0);
      lastChar := ' ' as int;
      identifierStr, operatorName, numText := "", "", "";
    }

    /** reset_lex_loc */
    method ResetLexLoc()
      requires Valid()
      modifies this
      ensures Valid() && State() == old(State()).(lexLoc := SourceLocation(1, 0))
    {
      lexLoc := SourceLocation(1, 0);
    }

    /** set_lex_source: reset the location, then replace the stream. */
    method SetSource(stream: seq<int>)
      requires Valid()
      modifies this, reader
      ensures Valid()
      ensures State() == old(State()).(stream := stream, pos := 0, lexLoc := SourceLocation(1, 0))
    {
      ResetLexLoc();
      reader.SetSource(stream);
    }

    /** putback_char */
    method PutbackChar(c: int) returns (r: int)
      requires Valid()
      modifies this, buf
      ensures Valid() && r == c
      ensures State() == PutBack(old(State()), c)
    {
      if bufp != BUFSIZE {
        buf[bufp] := c;
        bufp := bufp + 1;
      }
      r := c;
    }

    /** get_char */
    method GetChar() returns (c: int)
      requires Valid()
      modifies this, reader
      ensures Valid() && (c, State()) == ReadNext(old(State()))
    {
      ghost var s := State();
      if bufp > 0 {
        bufp := bufp - 1;
        c := buf[bufp];
        assert buf[..bufp] == s.buf[..|s.buf| - 1];
      } else {
        c := reader.GetNextChar();
      }
      lexLoc := NextLoc(lexLoc, c);
    }

    /** `last_char = get_char()` */
    method NextChar()
      requires Valid()
      modifies this, reader
      ensures Valid() && State() == Advance(old(State()))
      ensures Remaining(State()) < Remaining(old(State())) || (lastChar == EOF && Remaining(State()) == Remaining(old(State())))
    {
      lastChar := GetChar();
    }

    /** The push-back loop of get_operator. */
    method PutbackAll(cs: seq<int>)
      requires Valid()
      modifies this, buf
      ensures Valid() && State() == PushBackAll(old(State()), cs)
    {
      ghost var s := State();
      var i := |cs|;
      assert cs[..i] == cs;
      while i > 0
        invariant 0 <= i <= |cs| && Valid()
        invariant PushBackAll(State(), cs[..i]) == PushBackAll(s, cs)
      {
        assert cs[..i][..i - 1] == cs[..i - 1];
        i := i - 1;
        var _ := PutbackChar(cs[i]);
      }
    }

    /** The quoted branch of get_operator, after the opening backtick was read. */
    method ScanQuoted() returns (r: int)
      requires Valid() && operatorName == ""
      modifies this, buf, reader
      ensures Valid() && (r, State()) == OperatorSpelling(old(State()), '`' as int)
    {
      ghost var s0 := State();
      assert s0.(operatorName := "") == s0;
      var last := GetChar();
      ghost var s1, c1 := State(), last;
      var name := ['`' as int];
      while IsQuotedChar(last)
        invariant Valid() && Ascii(name) && operatorName == ""
        invariant QuotedRun(State(), last, name) == QuotedRun(s1, c1, ['`' as int])
        decreases Remaining(State()) + (if IsQuotedChar(last) then 1 else 0)
      {
        QuotedCharIsAscii(last);
        AsciiSnoc(name, last);
        name := name + [last];
        last := GetChar();
      }
      assert QuotedRun(s1, c1, ['`' as int]) == (last, State(), name);
      EndQuoted(last, name);
      r := GetChar();
    }

    /** What the quoted branch does once the name loop has stopped at last. */
    method EndQuoted(last: int, name: seq<int>)
      requires Valid() && Ascii(name) && operatorName == ""
      modifies this, buf
      ensures Valid() && State() == QuotedEnd(old(State()), last, name)
    {
      ghost var s2 := State();
      var full := name + [last];
      if last != '`' as int || full == ['`' as int, '`' as int] {
        PutbackAll(full);
        operatorName := "";
        assert State() == PushBackAll(s2, full);
      } else {
        operatorName := ToStr(full);
        assert State() == s2.(operatorName := ToStr(full));
      }
    }

    /** The unquoted branch of get_operator. */
    method ScanOperatorRun(last0: int) returns (r: int)
      requires Valid()
      modifies this, reader
      ensures Valid() && (r, State()) == OperatorRun(old(State()), last0)
    {
      var last := last0;
      while IsViableOperatorChar(last)
        invariant Valid()
        invariant OperatorRun(State(), last) == OperatorRun(old(State()), last0)
        decreases Remaining(State()) + (if IsViableOperatorChar(last) then 1 else 0)
      {
        operatorName := operatorName + [last as char];
        last := GetChar();
      }
      r := last;
    }

    /** get_operator */
    method GetOperator(last: int) returns (r: int)
      requires Valid()
      modifies this, buf, reader
      ensures Valid() && (r, State()) == OperatorSpelling(old(State()), last)
    {
      operatorName := "";
      if last == '`' as int {
        r := ScanQuoted();
      } else {
        r := ScanOperatorRun(last);
      }
    }

    /** The comment loop of gettok. */
    method ScanComment()
      requires Valid()
      modifies this, reader
      ensures Valid() && State() == CommentRest(old(State()))
    {
      lastChar := GetChar();
      while lastChar != EOF && !IsLineEnd(lastChar)
        invariant Valid()
        invariant (if lastChar == EOF || IsLineEnd(lastChar) then State() else CommentRest(State()))
                  == CommentRest(old(State()))
        decreases Remaining(State()) + (if lastChar != EOF then 1 else 0)
      {
        lastChar := GetChar();
      }
    }

    method SkipWhitespace()
      requires Valid()
      modifies this, reader
      ensures Valid() && State() == SkipSpace(old(State()))
    {
      while IsSpace(lastChar)
        invariant Valid() && SkipSpace(State()) == SkipSpace(old(State()))
        decreases Remaining(State()) + (if IsSpace(lastChar) then 1 else 0)
      {
        lastChar := GetChar();
      }
    }

    method ScanWord() returns (tok: int)
      requires Valid() && IsAlpha(lastChar)
      modifies this, buf, reader
      ensures Valid() && (tok, State()) == WordToken(old(State()))
    {
      ScanIdentifier();
      var w := identifierStr;
      if w == "def" { tok := TokDef; }
      else if w == "extern" { tok := TokExtern; }
      else if w == "if" { tok := TokIf; }
      else if w == "then" { tok := TokThen; }
      else if w == "else" { tok := TokElse; }
      else if w == "for" { tok := TokFor; }
      else if w == "do" { tok := TokDo; }
      else if w == "end" { tok := TokEnd; }
      else if w == "binary" {
        lastChar := GetOperator(lastChar);
        tok := if operatorName == "" then TokIdentifier else TokBinary;
      } else if w == "unary" {
        lastChar := GetOperator(lastChar);
        tok := if operatorName == "" then TokIdentifier else TokUnary;
      } else if w == "with" { tok := TokWith; }
      else { tok := TokIdentifier; }
    }

    /** The identifier loop of gettok. */
    method ScanIdentifier()
      requires Valid() && IsAlpha(lastChar)
      modifies this, reader
      ensures Valid() && State() == IdentRest(Advance(old(State()).(identifierStr := [old(lastChar) as char])))
    {
      identifierStr := [lastChar as char];
      lastChar := GetChar();
      ghost var s1 := State();
      while IsAlnum(lastChar)
        invariant Valid() && IdentRest(State()) == IdentRest(s1)
        decreases Remaining(State()) + (if IsAlnum(lastChar) then 1 else 0)
      {
        IdentBody();
      }
    }

    /** The body of the identifier loop. */
    method IdentBody()
      requires Valid() && IsAlnum(lastChar)
      modifies this, reader
      ensures Valid() && State() == Advance(old(State()).(identifierStr := old(identifierStr) + [old(lastChar) as char]))
      ensures Remaining(State()) < Remaining(old(State())) || (lastChar == EOF && Remaining(State()) == Remaining(old(State())))
    {
      identifierStr := identifierStr + [lastChar as char];
      NextChar();
    }

    method ScanNumber() returns (tok: int)
      requires Valid() && IsNumberChar(lastChar)
      modifies this, reader
      ensures Valid() && (tok, State()) == NumberToken(old(State()))
    {
      var hasPoint := lastChar == '.' as int;
      ghost var p0 := hasPoint;
      var hasSecondPoint := false;
      numText := [lastChar as char];
      lastChar := GetChar();
      ghost var s1 := State();
      while IsNumberChar(lastChar)
        invariant Valid()
        invariant NumberRest(State(), hasPoint, hasSecondPoint) == NumberRest(s1, p0, false)
        decreases Remaining(State()) + (if IsNumberChar(lastChar) then 1 else 0)
      {
        NumberTurn(State(), hasPoint, hasSecondPoint);
        hasPoint, hasSecondPoint := NumberBody(hasPoint, hasSecondPoint);
      }
      tok := TokNumber;
    }

    /** The body of the number loop. */
    method NumberBody(hasPoint: bool, hasSecondPoint: bool) returns (point: bool, second: bool)
      requires Valid() && IsNumberChar(lastChar)
      modifies this, reader
      ensures Valid()
      ensures second == if !hasSecondPoint then hasPoint && old(lastChar) == '.' as int else hasSecondPoint
      ensures point == if !hasPoint then old(lastChar) == '.' as int else hasPoint
      ensures State() == Advance(old(State()).(numText := if !second then old(numText) + [old(lastChar) as char]
                                                          else old(numText)))
      ensures Remaining(State()) < Remaining(old(State())) || (lastChar == EOF && Remaining(State()) == Remaining(old(State())))
    {
      point, second := hasPoint, hasSecondPoint;
      if !second {
        second := point && lastChar == '.' as int;
      }
      if !point {
        point := lastChar == '.' as int;
      }
      if !second {
        numText := numText + [lastChar as char];
      }
      NextChar();
    }

    method ScanOther() returns (tok: int)
      requires Valid()
      modifies this, buf, reader
      ensures Valid() && (tok, State()) == OtherToken(old(State()))
    {
      if lastChar == '`' as int || IsViableOperatorChar(lastChar) {
        lastChar := GetOperator(lastChar);
        if operatorName != "" {
          return TokOperator;
        }
      }
      if lastChar == EOF {
        lastChar := ' ' as int;
        return TokEof;
      }
      tok := lastChar;
      lastChar := GetChar();
    }

    /** gettok */
    method GetTok() returns (tok: int)
      requires Valid()
      modifies this, buf, reader
      ensures Valid() && (tok, State()) == NextToken(old(State()))
      decreases Remaining(State())
    {
      SkipWhitespace();
      curLoc := lexLoc;
      if IsAlpha(lastChar) {
        tok := ScanWord();
      } else if IsNumberChar(lastChar) {
        tok := ScanNumber();
      } else if lastChar == '#' as int {
        ScanComment();
        if lastChar != EOF {
          tok := GetTok();
        } else {
          tok := ScanOther();
        }
      } else {
        tok := ScanOther();
      }
    }
  }
}
