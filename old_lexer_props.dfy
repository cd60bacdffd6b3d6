/** What the lexer of lex.cpp recognises, stated over the characters it has yet to read:
    `Look(s)` is last_char followed by what getchar has yet to deliver. */
module OldLexerProps {
  import opened Chars
  import opened Tokens
  import opened Runs
  import opened OldLexer

  function Upcoming(s: OldState): seq<int> {
    if s.pos <= |s.input| then s.input[s.pos..] else []
  }

  function Look(s: OldState): seq<int> {
    [s.lastChar] + Upcoming(s)
  }

  /** The input gettok classifies: everything from the first non-whitespace character. */
  function AfterSpaces(s: OldState): (r: seq<int>)
    ensures r != []
  {
    Norm(Look(s)[Span(Look(s), Spaces)..])
  }

  /** One getchar moves the view by one character. */
  lemma AdvanceLook(s: OldState)
    ensures Look(Advance(s)) == Norm(Look(s)[1..])
  {
    if s.pos < |s.input| {
      assert Look(s)[1..] == s.input[s.pos..];
      assert Look(Advance(s)) == [s.input[s.pos]] + s.input[s.pos + 1..];
    }
  }

  /** The whitespace loop stops on the first non-space character and changes no global. */
  lemma {:induction false} SkipSpaceScans(s: OldState)
    ensures Look(SkipSpace(s)) == AfterSpaces(s)
    ensures SkipSpace(s).identifierStr == s.identifierStr && SkipSpace(s).numVal == s.numVal
    decreases Remaining(s) + (if IsSpace(s.lastChar) then 1 else 0)
  {
    if IsSpace(s.lastChar) {
      assert SkipSpace(s) == SkipSpace(Advance(s));
      AdvanceLook(s);
      SkipSpaceScans(Advance(s));
      RunStep(Look(s), Spaces);
    }
  }

  /** One turn of the identifier loop. */
  lemma IdentStep(s: OldState)
    requires IsAlnum(s.lastChar)
    ensures var s2 := Advance(s.(identifierStr := s.identifierStr + [s.lastChar as char]));
      IdentRest(s) == IdentRest(s2) && s2.identifierStr == s.identifierStr + [s.lastChar as char] &&
      Look(s2) == Norm(Look(s)[1..]) &&
      Remaining(s2) + (if IsAlnum(s2.lastChar) then 1 else 0) < Remaining(s) + 1
  {
    var s1 := s.(identifierStr := s.identifierStr + [s.lastChar as char]);
    assert Look(s1) == Look(s);
    AdvanceLook(s1);
  }

  /** The identifier loop appends exactly the maximal alphanumeric run and stops on the
      first character after it. */
  lemma {:induction false} IdentRestScans(s: OldState)
    ensures IdentRest(s).identifierStr == s.identifierStr + RunText(Look(s), Alnums)
    ensures Look(IdentRest(s)) == Norm(Look(s)[Span(Look(s), Alnums)..])
    decreases Remaining(s) + (if IsAlnum(s.lastChar) then 1 else 0)
  {
    if IsAlnum(s.lastChar) {
      var s2 := Advance(s.(identifierStr := s.identifierStr + [s.lastChar as char]));
      IdentStep(s);
      IdentRestScans(s2);
      RunStep(Look(s), Alnums);
      AppendAssoc(s.identifierStr, [s.lastChar as char], RunText(Look(s2), Alnums));
    }
  }

  /** One turn of the number loop, with the flags updated as the loop body does. */
  lemma NumberStep(s: OldState, hasPoint: bool, hasSecond: bool, text: string)
    requires IsNumberChar(s.lastChar)
    ensures var c := s.lastChar;
      var second := if !hasSecond then hasPoint && c == '.' as int else hasSecond;
      var point := if !hasPoint then c == '.' as int else hasPoint;
      NumberRest(s, hasPoint, hasSecond, text) ==
        NumberRest(Advance(s), point, second, if !second then text + [c as char] else text) &&
      Look(Advance(s)) == Norm(Look(s)[1..]) &&
      Remaining(Advance(s)) + (if IsNumberChar(Advance(s).lastChar) then 1 else 0) < Remaining(s) + 1
  {
    AdvanceLook(s);
  }

  /** The number loop consumes the whole run of digits and points. */
  lemma {:induction false} NumberRestLook(s: OldState, hasPoint: bool, hasSecond: bool, text: string)
    ensures Look(NumberRest(s, hasPoint, hasSecond, text).0) == Norm(Look(s)[Span(Look(s), NumberChars)..])
    decreases Remaining(s) + (if IsNumberChar(s.lastChar) then 1 else 0)
  {
    var c := s.lastChar;
    if IsNumberChar(c) {
      var second := if !hasSecond then hasPoint && c == '.' as int else hasSecond;
      var point := if !hasPoint then c == '.' as int else hasPoint;
      NumberStep(s, hasPoint, hasSecond, text);
      NumberRestLook(Advance(s), point, second, if !second then text + [c as char] else text);
      RunStep(Look(s), NumberChars);
    }
  }

  /** Once has_second_point is set, nothing more is kept. */
  lemma {:induction false} NumberRestDrops(s: OldState, hasPoint: bool, text: string)
    ensures NumberRest(s, hasPoint, true, text).1 == text
    decreases Remaining(s) + (if IsNumberChar(s.lastChar) then 1 else 0)
  {
    if IsNumberChar(s.lastChar) {
      NumberStep(s, hasPoint, true, text);
      NumberRestDrops(Advance(s), hasPoint || s.lastChar == '.' as int, text);
    }
  }

  /** Before the second point, the number loop keeps what KeptNumber keeps. */
  lemma {:induction false} NumberRestText(s: OldState, hasPoint: bool, text: string)
    ensures NumberRest(s, hasPoint, false, text).1 == text + KeptNumber(Look(s), hasPoint)
    decreases Remaining(s) + (if IsNumberChar(s.lastChar) then 1 else 0)
  {
    var c := s.lastChar;
    if !IsNumberChar(c) {
    } else if hasPoint && c == '.' as int {
      NumberStep(s, hasPoint, false, text);
      NumberRestDrops(Advance(s), true, text);
    } else {
      var point := hasPoint || c == '.' as int;
      NumberStep(s, hasPoint, false, text);
      NumberRestText(Advance(s), point, text + [c as char]);
      KeptNumberNorm(Look(s)[1..], point);
      assert KeptNumber(Look(s), hasPoint) == [c as char] + KeptNumber(Look(s)[1..], point);
      AppendAssoc(text, [c as char], KeptNumber(Look(Advance(s)), point));
    }
  }

  /** The comment loop consumes up to and including the first line end or EOF after '#'. */
  lemma {:induction false} CommentRestScans(s: OldState)
    ensures var u := Norm(Look(s)[1..]); var m := Span(u, CommentChars);
      Look(CommentRest(s)) == Norm(u[m..])
    decreases Remaining(s)
  {
    var s1 := Advance(s);
    AdvanceLook(s);
    var u := Norm(Look(s)[1..]);
    if !InComment(s1.lastChar) {
      assert Span(u, CommentChars) == 0;
      assert CommentRest(s) == s1;
    } else {
      assert CommentRest(s) == CommentRest(s1);
      assert Remaining(s1) < Remaining(s);
      CommentRestScans(s1);
      RunStep(u, CommentChars);
    }
  }

  lemma StartedLook(s: OldState)
    ensures Look(SkipSpace(s)) == AfterSpaces(s) && SkipSpace(s).lastChar == AfterSpaces(s)[0]
    ensures SkipSpace(s).identifierStr == s.identifierStr && SkipSpace(s).numVal == s.numVal
  {
    SkipSpaceScans(s);
  }

  /** A word is the maximal alphanumeric run after the whitespace; `def` and `extern` give
      their keyword tokens and every other word gives tok_identifier. num_val is left alone. */
  lemma GetTokWord(s: OldState, secondInit: bool)
    requires IsAlpha(AfterSpaces(s)[0])
    ensures var cs := AfterSpaces(s); var r := NextToken(s, secondInit); var w := RunText(cs, Alnums);
      r.1.identifierStr == w && r.1.numVal == s.numVal &&
      r.0 == (if w == "def" then TokDef else if w == "extern" then TokExtern else TokIdentifier) &&
      Look(r.1) == Norm(cs[Span(cs, Alnums)..])
  {
    StartedLook(s);
    var t := SkipSpace(s);
    assert NextToken(s, secondInit) == WordToken(t);
    WordFacts(t);
  }

  lemma WordFacts(t: OldState)
    requires IsAlpha(t.lastChar)
    ensures var cs := Look(t); var r := WordToken(t); var w := RunText(cs, Alnums);
      r.1.identifierStr == w && r.1.numVal == t.numVal &&
      r.0 == (if w == "def" then TokDef else if w == "extern" then TokExtern else TokIdentifier) &&
      Look(r.1) == Norm(cs[Span(cs, Alnums)..])
  {
    var t0 := t.(identifierStr := [t.lastChar as char]);
    assert Look(t0) == Look(t);
    AdvanceLook(t0);
    IdentRestScans(Advance(t0));
    RunStep(Look(t), Alnums);
  }

  /** A number is the maximal run of digits and points; num_val is the integer part of the
      kept text. With has_second_point starting false the text stops before the second
      point; starting true, only the first character is kept. Either way the whole run is
      consumed. */
  lemma GetTokNumber(s: OldState, secondInit: bool)
    requires IsNumberChar(AfterSpaces(s)[0])
    ensures var cs := AfterSpaces(s); var r := NextToken(s, secondInit);
      r.0 == TokNumber && r.1.identifierStr == s.identifierStr &&
      r.1.numVal == IntPart(if secondInit then [cs[0] as char] else KeptNumber(cs, false)) &&
      Look(r.1) == Norm(cs[Span(cs, NumberChars)..])
  {
    StartedLook(s);
    var t := SkipSpace(s);
    assert NextToken(s, secondInit) == Classify(t, secondInit);
    assert !IsAlpha(t.lastChar);
    assert Classify(t, secondInit) == NumberToken(t, secondInit);
    NumberFacts(t, secondInit);
  }

  lemma NumberFacts(t: OldState, secondInit: bool)
    requires IsNumberChar(t.lastChar)
    ensures var cs := Look(t); var r := NumberToken(t, secondInit);
      r.0 == TokNumber && r.1.identifierStr == t.identifierStr &&
      r.1.numVal == IntPart(if secondInit then [cs[0] as char] else KeptNumber(cs, false)) &&
      Look(r.1) == Norm(cs[Span(cs, NumberChars)..])
  {
    NumberScan(t, secondInit);
    NumberValue(t, secondInit);
  }

  lemma NumberScan(t: OldState, secondInit: bool)
    requires IsNumberChar(t.lastChar)
    ensures var cs := Look(t); var r := NumberToken(t, secondInit);
      r.0 == TokNumber && r.1.identifierStr == t.identifierStr &&
      Look(r.1) == Norm(cs[Span(cs, NumberChars)..])
  {
    var c := t.lastChar;
    AdvanceLook(t);
    NumberRestLook(Advance(t), c == '.' as int, secondInit, [c as char]);
    RunStep(Look(t), NumberChars);
  }

  lemma NumberValue(t: OldState, secondInit: bool)
    requires IsNumberChar(t.lastChar)
    ensures var cs := Look(t); var r := NumberToken(t, secondInit);
      r.1.numVal == IntPart(if secondInit then [cs[0] as char] else KeptNumber(cs, false))
  {
    var c := t.lastChar;
    var cs := Look(t);
    if secondInit {
      NumberRestDrops(Advance(t), c == '.' as int, [c as char]);
    } else {
      AdvanceLook(t);
      NumberRestText(Advance(t), c == '.' as int, [c as char]);
      KeptNumberNorm(cs[1..], c == '.' as int);
      assert KeptNumber(cs, false) == [c as char] + KeptNumber(cs[1..], c == '.' as int);
    }
  }

  /** A comment runs to the first line end or EOF. At a line end lexing restarts there; a
      comment that reaches EOF gives tok_eof. */
  lemma GetTokComment(s: OldState, secondInit: bool)
    requires AfterSpaces(s)[0] == '#' as int
    ensures var u := Norm(AfterSpaces(s)[1..]); var e := Norm(u[Span(u, CommentChars)..]);
      var c := CommentRest(SkipSpace(s)); var r := NextToken(s, secondInit);
      Look(c) == e &&
      (e[0] != EOF ==> r == NextToken(c, secondInit)) &&
      (e[0] == EOF ==> r == (TokEof, c))
  {
    StartedLook(s);
    var t := SkipSpace(s);
    assert NextToken(s, secondInit) == Classify(t, secondInit);
    CommentBranch(t, secondInit);
    assert Norm(Look(t)[1..]) == Norm(AfterSpaces(s)[1..]);
    CommentRestScans(t);
  }

  lemma CommentBranch(t: OldState, secondInit: bool)
    requires t.lastChar == '#' as int
    ensures var c := CommentRest(t);
      (c.lastChar != EOF ==> Classify(t, secondInit) == NextToken(c, secondInit)) &&
      (c.lastChar == EOF ==> Classify(t, secondInit) == (TokEof, c))
  {
  }

  /** Any other character is returned as itself and exactly that one character is
      consumed; end of input gives tok_eof and consumes nothing. */
  lemma GetTokEndOrChar(s: OldState, secondInit: bool)
    requires var c := AfterSpaces(s)[0]; !IsAlpha(c) && !IsNumberChar(c) && c != '#' as int
    ensures var cs := AfterSpaces(s); var r := NextToken(s, secondInit);
      r.1.identifierStr == s.identifierStr && r.1.numVal == s.numVal &&
      (cs[0] == EOF ==> r.0 == TokEof && Look(r.1) == cs) &&
      (cs[0] != EOF ==> r.0 == cs[0] && Look(r.1) == Norm(cs[1..]))
  {
    StartedLook(s);
    AdvanceLook(SkipSpace(s));
  }

  /** tok_eof comes only with last_char at EOF, and from then on every call returns tok_eof
      and changes nothing: last_char is never reset. */
  lemma {:induction false} EofSticky(s: OldState, secondInit: bool, laterInit: bool)
    ensures NextToken(s, secondInit).0 == TokEof ==> NextToken(s, secondInit).1.lastChar == EOF
    ensures s.lastChar == EOF ==> NextToken(s, laterInit) == (TokEof, s)
    decreases Remaining(s)
  {
    var t := SkipSpace(s);
    assert NextToken(s, secondInit) == Classify(t, secondInit);
    if !IsAlpha(t.lastChar) && !IsNumberChar(t.lastChar) && t.lastChar == '#' as int {
      var c := CommentRest(t);
      if c.lastChar != EOF {
        EofSticky(c, secondInit, laterInit);
      }
    }
  }

  /** The stream of tokens dries up for good: once a call returns tok_eof, so does every
      later one, whatever has_second_point starts with. */
  lemma EofForever(s: OldState, secondInit: bool, laterInit: bool)
    requires NextToken(s, secondInit).0 == TokEof
    ensures var r := NextToken(s, secondInit); NextToken(r.1, laterInit) == (TokEof, r.1)
  {
    EofSticky(s, secondInit, laterInit);
    var r := NextToken(s, secondInit);
    EofSticky(r.1, laterInit, laterInit);
  }
}
