/** The older lexer of lex.cpp: the same shape of state machine as lib/lex.cpp but reading
    standard input directly, with only `def` and `extern` as keywords, no operator tokens
    and numbers reduced to their `atoi` value. The class OldLexer holds its statics and
    globals; every method is proved to compute the function of `OldState` that specifies
    it. */
module OldLexer {
  import opened Chars
  import opened Tokens

  /** The lexer's whole state: what getchar has yet to deliver (`input` from `pos`, each a
      byte value), gettok's static last_char and the globals identifier_str and num_val. */
  datatype OldState = OldState(input: seq<int>, pos: nat, lastChar: int, identifierStr: string, numVal: nat)

  /** Characters getchar has yet to deliver. */
  function Remaining(s: OldState): nat {
    if s.pos <= |s.input| then |s.input| - s.pos else 0
  }

  /** `last_char = getchar()`: the next input character, EOF once the input is used up. */
  function Advance(s: OldState): (r: OldState)
    ensures Remaining(r) < Remaining(s) || (r.lastChar == EOF && r == s.(lastChar := EOF))
    ensures r == s.(pos := r.pos, lastChar := r.lastChar)
  {
    if s.pos < |s.input| then s.(pos := s.pos + 1, lastChar := s.input[s.pos]) else s.(lastChar := EOF)
  }

  /** `while (isspace(last_char)) last_char = getchar();` */
  function SkipSpace(s: OldState): (r: OldState)
    ensures Remaining(r) <= Remaining(s) && !IsSpace(r.lastChar)
    decreases Remaining(s) + (if IsSpace(s.lastChar) then 1 else 0)
  {
    if IsSpace(s.lastChar) then SkipSpace(Advance(s)) else s
  }

  /** The identifier loop: last_char was just read; append it while it is alphanumeric. */
  function IdentRest(s: OldState): (r: OldState)
    ensures !IsAlnum(r.lastChar) && r.numVal == s.numVal
    decreases Remaining(s) + (if IsAlnum(s.lastChar) then 1 else 0)
  {
    if IsAlnum(s.lastChar) then
      IdentRest(Advance(s.(identifierStr := s.identifierStr + [s.lastChar as char])))
    else
      s
  }

  /** The number loop over the local number_string: last_char was just read. Once
      has_second_point is set, characters are consumed but no longer kept. */
  function NumberRest(s: OldState, hasPoint: bool, hasSecondPoint: bool, text: string): (r: (OldState, string))
    ensures !IsNumberChar(r.0.lastChar)
    ensures r.0.identifierStr == s.identifierStr && r.0.numVal == s.numVal
    decreases Remaining(s) + (if IsNumberChar(s.lastChar) then 1 else 0)
  {
    var c := s.lastChar;
    if IsNumberChar(c) then
      var second := if !hasSecondPoint then hasPoint && c == '.' as int else hasSecondPoint;
      var point := if !hasPoint then c == '.' as int else hasPoint;
      NumberRest(Advance(s), point, second, if !second then text + [c as char] else text)
    else
      (s, text)
  }

  /** The comment loop: read up to and including EOF or a line end. */
  function CommentRest(s: OldState): (r: OldState)
    ensures r.lastChar == EOF || IsLineEnd(r.lastChar)
    ensures r.lastChar == EOF || Remaining(r) < Remaining(s)
    ensures r.identifierStr == s.identifierStr && r.numVal == s.numVal
    decreases Remaining(s)
  {
    var s1 := Advance(s);
    if s1.lastChar == EOF || IsLineEnd(s1.lastChar) then s1 else CommentRest(s1)
  }

  /** The identifier state: only `def` and `extern` are keywords. */
  function WordToken(s0: OldState): (r: (int, OldState))
    requires IsAlpha(s0.lastChar)
  {
    var s := IdentRest(Advance(s0.(identifierStr := [s0.lastChar as char])));
    if s.identifierStr == "def" then (TokDef, s)
    else if s.identifierStr == "extern" then (TokExtern, s)
    else (TokIdentifier, s)
  }

  /** The number state. has_second_point is never initialised; `secondInit` is whatever
      value it happens to start with. */
  function NumberToken(s0: OldState, secondInit: bool): (r: (int, OldState))
    requires IsNumberChar(s0.lastChar)
  {
    var c := s0.lastChar;
    var (s, text) := NumberRest(Advance(s0), c == '.' as int, secondInit, [c as char]);
    (TokNumber, s.(numVal := IntPart(text)))
  }

  /** End of input, or any other character returned as itself. last_char stays EOF. */
  function LastResort(s: OldState): (int, OldState) {
    if s.lastChar == EOF then (TokEof, s) else (s.lastChar, Advance(s))
  }

  /** gettok */
  function NextToken(s0: OldState, secondInit: bool): (r: (int, OldState))
    decreases Remaining(s0), 1
  {
    Classify(SkipSpace(s0), secondInit)
  }

  /** The dispatch of gettok on the first character of the token. */
  function Classify(s: OldState, secondInit: bool): (r: (int, OldState))
    requires !IsSpace(s.lastChar)
    decreases Remaining(s), 0
  {
    if IsAlpha(s.lastChar) then WordToken(s)
    else if IsNumberChar(s.lastChar) then NumberToken(s, secondInit)
    else if s.lastChar == '#' as int then
      var s2 := CommentRest(s);
      if s2.lastChar != EOF then NextToken(s2, secondInit) else LastResort(s2)
    else LastResort(s)
  }

  /** The statics and globals of lex.cpp, with standard input as a sequence. */
  class OldLexer {
    var input: seq<int>
    var pos: nat
    var lastChar: int
    var identifierStr: string
    var numVal: nat

    function State(): OldState
      reads this
    {
      OldState(input, pos, lastChar, identifierStr, numVal)
    }

    /** The statics and globals before the first call, reading the given input. */
    constructor (stdin: seq<int>)
      ensures State() == OldState(stdin, 0, ' ' as int, "", 0)
    {
      input, pos := stdin, 0;
      lastChar := ' ' as int;
      identifierStr, numVal := "", 0;
    }

    /** `last_char = getchar()` */
    method NextChar()
      modifies this
      ensures State() == Advance(old(State()))
    {
      if pos < |input| {
        lastChar := input[pos];
        pos := pos + 1;
      } else {
        lastChar := EOF;
      }
    }

    method SkipWhitespace()
      modifies this
      ensures State() == SkipSpace(old(State()))
    {
      while IsSpace(lastChar)
        invariant SkipSpace(State()) == SkipSpace(old(State()))
        decreases Remaining(State()) + (if IsSpace(lastChar) then 1 else 0)
      {
        NextChar();
      }
    }

    method ScanWord() returns (tok: int)
      requires IsAlpha(lastChar)
      modifies this
      ensures (tok, State()) == WordToken(old(State()))
    {
      identifierStr := [lastChar as char];
      NextChar();
      ghost var s1 := State();
      while IsAlnum(lastChar)
        invariant IdentRest(State()) == IdentRest(s1)
        decreases Remaining(State()) + (if IsAlnum(lastChar) then 1 else 0)
      {
        identifierStr := identifierStr + [lastChar as char];
        NextChar();
      }
      if identifierStr == "def" {
        tok := TokDef;
      } else if identifierStr == "extern" {
        tok := TokExtern;
      } else {
        tok := TokIdentifier;
      }
    }

    method ScanNumber(secondInit: bool) returns (tok: int)
      requires IsNumberChar(lastChar)
      modifies this
      ensures (tok, State()) == NumberToken(old(State()), secondInit)
    {
      var hasPoint := lastChar == '.' as int;
      ghost var p0 := hasPoint;
      var hasSecondPoint := secondInit;
      var numberString := [lastChar as char];
      ghost var t0 := numberString;
      NextChar();
      ghost var s1 := State();
      while IsNumberChar(lastChar)
        invariant NumberRest(State(), hasPoint, hasSecondPoint, numberString) == NumberRest(s1, p0, secondInit, t0)
        decreases Remaining(State()) + (if IsNumberChar(lastChar) then 1 else 0)
      {
        if !hasSecondPoint {
          hasSecondPoint := hasPoint && lastChar == '.' as int;
        }
        if !hasPoint {
          hasPoint := lastChar == '.' as int;
        }
        if !hasSecondPoint {
          numberString := numberString + [lastChar as char];
        }
        NextChar();
      }
      numVal := IntPart(numberString);
      tok := TokNumber;
    }

    /** The comment loop of gettok. */
    method ScanComment()
      modifies this
      ensures State() == CommentRest(old(State()))
    {
      NextChar();
      while lastChar != EOF && !IsLineEnd(lastChar)
        invariant (if lastChar == EOF || IsLineEnd(lastChar) then State() else CommentRest(State()))
                  == CommentRest(old(State()))
        decreases Remaining(State()) + (if lastChar != EOF then 1 else 0)
      {
        NextChar();
      }
    }

    /** gettok */
    method GetTok(secondInit: bool) returns (tok: int)
      modifies this
      ensures (tok, State()) == NextToken(old(State()), secondInit)
      decreases Remaining(State())
    {
      SkipWhitespace();
      if IsAlpha(lastChar) {
        tok := ScanWord();
        return;
      }
      if IsNumberChar(lastChar) {
        tok := ScanNumber(secondInit);
        return;
      }
      if lastChar == '#' as int {
        ScanComment();
        if lastChar != EOF {
          tok := GetTok(secondInit);
          return;
        }
      }
      if lastChar == EOF {
        return TokEof;
      }
      tok := lastChar;
      NextChar();
    }
  }
}
