/** The lexer's interface (lex.h): token codes, source locations, the token
    payload globals and the character source. */
module Tokens {
  import opened Chars

  // Token codes. Any other token is a single character, returned as its code.
  const TokEof: int := -1
  const TokDef: int := -2
  const TokExtern: int := -3
  const TokIdentifier: int := -4
  const TokNumber: int := -5
  const TokIf: int := -6
  const TokThen: int := -7
  const TokElse: int := -8
  const TokFor: int := -9
  const TokDo: int := -10
  const TokEnd: int := -11
  const TokBinary: int := -12
  const TokUnary: int := -13
  const TokOperator: int := -14
  const TokWith: int := -15

  const AllTokenCodes: seq<int> := [TokEof, TokDef, TokExtern, TokIdentifier, TokNumber,
    TokIf, TokThen, TokElse, TokFor, TokDo, TokEnd, TokBinary, TokUnary, TokOperator, TokWith]

  /** The fifteen codes run from -1 down to -15, so they are pairwise distinct and can
      never be confused with a character token (a character's code is at least -128 only
      for bytes above 127, and EOF is tok_eof itself). */
  lemma TokenCodesDistinct()
    ensures |AllTokenCodes| == 15
    ensures forall i :: 0 <= i < |AllTokenCodes| ==> AllTokenCodes[i] == -(i + 1)
    ensures forall i, j :: 0 <= i < j < |AllTokenCodes| ==> AllTokenCodes[i] != AllTokenCodes[j]
  {
  }

  /** A (line, column) position. */
  datatype SourceLocation = SourceLocation(line: int, col: int)

  /** What the parser sees after one call of gettok: the returned code together with the
      globals identifier_str, operator_name and the number literal. The globals keep the
      values of earlier tokens until a later token overwrites them. */
  datatype Tok = Tok(code: int, ident: string, op: string, num: string)

  /** The integer part of a number literal text (what atoi computes, and the whole part of
      what atof computes): the value of its leading decimal digits. */
  function IntPart(t: string): nat
  {
    IntPartFrom(t, 0)
  }

  function IntPartFrom(t: string, acc: nat): nat
    decreases |t|
  {
    if |t| > 0 && IsDigit(t[0] as int) then IntPartFrom(t[1..], acc * 10 + (t[0] as int - '0' as int))
    else acc
  }

  /** True when the literal has digits after its point and one of them is not 0, i.e. its
      value is strictly greater than its integer part. */
  function HasFraction(t: string): bool
  {
    var k := DigitRun(t, 0);
    k < |t| && t[k] == '.' && NonZeroDigits(t[k + 1..])
  }

  function DigitRun(t: string, i: nat): (k: nat)
    requires i <= |t|
    ensures i <= k <= |t|
    decreases |t| - i
  {
    if i < |t| && IsDigit(t[i] as int) then DigitRun(t, i + 1) else i
  }

  function NonZeroDigits(t: string): bool
    decreases |t|
  {
    |t| > 0 && IsDigit(t[0] as int) && (t[0] != '0' || NonZeroDigits(t[1..]))
  }

  /** num_val < 1 and num_val > 100 on the literal's value, without floating point. */
  predicate BelowOne(t: string) { IntPart(t) == 0 }
  predicate AboveHundred(t: string) { IntPart(t) > 100 || (IntPart(t) == 100 && HasFraction(t)) }

  /** SourceReader::get_next_char on a byte stream read from position pos: the byte as a
      signed char, '\0' read as EOF. An exhausted stream also gives EOF (see README). */
  function ReadChar(stream: seq<int>, pos: nat): (r: (int, nat))
    ensures pos < |stream| ==> r.1 == pos + 1
    ensures pos >= |stream| ==> r == (EOF, pos)
  {
    if pos < |stream| then (Decode(stream[pos]), pos + 1) else (EOF, pos)
  }

  /** A byte reads as its signed char value, except that '\0' (and 0xFF, which is EOF
      itself) read as EOF. */
  lemma ReadCharDecodes(stream: seq<int>, pos: nat)
    requires pos < |stream|
    ensures ReadChar(stream, pos).0 == EOF <==> SignedChar(stream[pos]) == 0 || SignedChar(stream[pos]) == EOF
    ensures SignedChar(stream[pos]) != 0 ==> ReadChar(stream, pos).0 == SignedChar(stream[pos])
  {
  }

  function Decode(b: int): int
  {
    var c := SignedChar(b);
    if c == 0 then EOF else c
  }

  /** The character source of the lexer (lex.h SourceReader). */
  class SourceReader {
    var stream: seq<int>
    var pos: nat

    constructor ()
      ensures stream == [] && pos == 0
    {
      stream := [];
      pos := 0;
    }

    /** set_source: the new stream replaces the old one wholesale. */
    method SetSource(s: seq<int>)
      modifies this
      ensures stream == s && pos == 0
    {
      stream := s;
      pos := 0;
    }

    /** get_next_char */
    method GetNextChar() returns (c: int)
      modifies this`pos
      ensures (c, pos) == ReadChar(stream, old(pos))
    {
      if pos < |stream| {
        c := SignedChar(stream[pos]);
        if c == 0 {
          c := EOF;
        }
        pos := pos + 1;
      } else {
        c := EOF;
      }
    }
  }
}
