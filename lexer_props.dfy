/** What the lexer of lib/lex.cpp recognises, stated over the characters it has yet to
    read: `Look(s)` is last_char followed by the pushed-back characters (top first) and
    the undecoded rest of the stream. Once that sequence is used up every read gives EOF,
    which is why results are compared after `Norm`. */
module LexerProps {
  import opened Chars
  import opened Tokens
  import opened Lexer
  import opened Runs

  function Reverse(s: seq<int>): (r: seq<int>)
    ensures |r| == |s|
    decreases |s|
  {
    if s == [] then [] else [s[|s| - 1]] + Reverse(s[..|s| - 1])
  }

  function DecodeAll(bs: seq<int>): (r: seq<int>)
    ensures |r| == |bs|
  {
    if bs == [] then [] else [Decode(bs[0])] + DecodeAll(bs[1..])
  }

  /** The characters get_char delivers, in order, before the source is exhausted. */
  function Upcoming(s: LexState): seq<int> {
    Reverse(s.buf) + (if s.pos <= |s.stream| then DecodeAll(s.stream[s.pos..]) else [])
  }

  /** The current lookahead followed by everything still to be read. */
  function Look(s: LexState): seq<int> {
    [s.lastChar] + Upcoming(s)
  }

  /** get_char takes the next upcoming character, EOF once there is none. */
  lemma ReadNextUpcoming(s: LexState)
    ensures ReadNext(s).0 == Head(Upcoming(s))
    ensures Upcoming(ReadNext(s).1) == if Upcoming(s) == [] then [] else Upcoming(s)[1..]
  {
    var t := ReadNext(s).1;
    if |s.buf| > 0 {
      var b := s.buf;
      assert Reverse(b) == [b[|b| - 1]] + Reverse(b[..|b| - 1]);
    } else if s.pos < |s.stream| {
      assert DecodeAll(s.stream[s.pos..])[1..] == DecodeAll(s.stream[s.pos + 1..]);
    }
  }

  lemma AdvanceLook(s: LexState)
    ensures Look(Advance(s)) == Norm(Look(s)[1..])
  {
    ReadNextUpcoming(s);
  }

  lemma ReadNextLook(s: LexState)
    ensures [ReadNext(s).0] + Upcoming(ReadNext(s).1) == Norm(Upcoming(s))
  {
    ReadNextUpcoming(s);
  }

  /** The push-back buffer is a stack: what is pushed is read back first. */
  lemma PutBackThenRead(s: LexState, c: int)
    requires |s.buf| < BUFSIZE
    ensures Upcoming(PutBack(s, c)) == [c] + Upcoming(s)
    ensures ReadNext(PutBack(s, c)) == (c, s.(lexLoc := NextLoc(s.lexLoc, c)))
  {
    var b := s.buf + [c];
    assert PutBack(s, c) == s.(buf := b);
    PutBackReverse(s.buf, c);
    assert b[..|b| - 1] == s.buf;
  }

  /** A full buffer drops the character: what is read next is unchanged, and the buffer
      never grows past its BUFSIZE slots. */
  lemma PutBackFullDrops(s: LexState, c: int)
    requires |s.buf| <= BUFSIZE
    ensures |PutBack(s, c).buf| <= BUFSIZE
    ensures |s.buf| == BUFSIZE ==> Upcoming(PutBack(s, c)) == Upcoming(s) && ReadNext(PutBack(s, c)) == ReadNext(s)
  {
  }

  lemma PutBackReverse(buf: seq<int>, c: int)
    ensures Reverse(buf + [c]) == [c] + Reverse(buf)
  {
    var b := buf + [c];
    assert b[..|b| - 1] == buf;
  }

  /** Pushing back a sequence in reverse makes it the next thing read, in its own order,
      as long as the buffer has room for all of it. */
  lemma {:induction false} PushBackAllUpcoming(s: LexState, cs: seq<int>)
    requires |s.buf| + |cs| <= BUFSIZE
    ensures Upcoming(PushBackAll(s, cs)) == cs + Upcoming(s)
    ensures |PushBackAll(s, cs).buf| == |s.buf| + |cs|
    decreases |cs|
  {
    if cs != [] {
      var c := cs[|cs| - 1];
      PutBackThenRead(s, c);
      PushBackAllUpcoming(PutBack(s, c), cs[..|cs| - 1]);
      assert cs[..|cs| - 1] + [c] == cs;
    }
  }

  /** The whitespace loop consumes exactly the leading spaces. */
  lemma {:induction false} SkipSpaceScans(s: LexState)
    ensures Look(SkipSpace(s)) == Norm(Look(s)[Span(Look(s), Spaces)..])
    decreases Remaining(s) + (if IsSpace(s.lastChar) then 1 else 0)
  {
    if IsSpace(s.lastChar) {
      assert SkipSpace(s) == SkipSpace(Advance(s));
      AdvanceLook(s);
      SkipSpaceScans(Advance(s));
      RunStep(Look(s), Spaces);
    }
  }

  /** One turn of the identifier loop. */
  lemma IdentStep(s: LexState)
    requires IsAlnum(s.lastChar)
    ensures var s2 := Advance(s.(identifierStr := s.identifierStr + [s.lastChar as char]));
      IdentRest(s) == IdentRest(s2) && s2.identifierStr == s.identifierStr + [s.lastChar as char] &&
      Look(s2) == Norm(Look(s)[1..]) &&
      Remaining(s2) + (if IsAlnum(s2.lastChar) then 1 else 0) < Remaining(s) + 1
  {
    var s1 := s.(identifierStr := s.identifierStr + [s.lastChar as char]);
    assert Look(s1) == Look(s);
    AdvanceLook(s1);
  }

  /** The identifier loop appends exactly the maximal alphanumeric run ... */
  lemma {:induction false} IdentRestText(s: LexState, cs: seq<int>)
    requires cs == Look(s)
    ensures IdentRest(s).identifierStr == s.identifierStr + RunText(cs, Alnums)
    decreases Remaining(s) + (if IsAlnum(s.lastChar) then 1 else 0)
  {
    if IsAlnum(s.lastChar) {
      var s2 := Advance(s.(identifierStr := s.identifierStr + [s.lastChar as char]));
      IdentStep(s);
      var cs2 := Norm(cs[1..]);
      IdentRestText(s2, cs2);
      RunStep(cs, Alnums);
      AppendAssoc(s.identifierStr, [s.lastChar as char], RunText(cs2, Alnums));
    }
  }

  /** ... and stops on the first character after that run. */
  lemma {:induction false} IdentRestLook(s: LexState)
    ensures Look(IdentRest(s)) == Norm(Look(s)[Span(Look(s), Alnums)..])
    decreases Remaining(s) + (if IsAlnum(s.lastChar) then 1 else 0)
  {
    if IsAlnum(s.lastChar) {
      IdentStep(s);
      IdentRestLook(Advance(s.(identifierStr := s.identifierStr + [s.lastChar as char])));
      RunStep(Look(s), Alnums);
    }
  }

  /** The unquoted operator loop appends exactly the maximal run of operator characters
      starting at c. */
  lemma OperatorRunScans(s: LexState, c: int)
    ensures OperatorRun(s, c).1.operatorName == s.operatorName + RunText([c] + Upcoming(s), OperatorChars)
    ensures [OperatorRun(s, c).0] + Upcoming(OperatorRun(s, c).1) ==
            Norm(([c] + Upcoming(s))[Span([c] + Upcoming(s), OperatorChars)..])
  {
    OperatorRunName(s, c, [c] + Upcoming(s));
    OperatorRunLook(s, c, [c] + Upcoming(s));
  }

  /** One turn of the unquoted operator loop. */
  lemma OperatorStep(s: LexState, c: int)
    requires IsViableOperatorChar(c)
    ensures var s0 := s.(operatorName := s.operatorName + [c as char]);
      OperatorRun(s, c) == OperatorRun(ReadNext(s0).1, ReadNext(s0).0) &&
      ReadNext(s0).1.operatorName == s.operatorName + [c as char] &&
      [ReadNext(s0).0] + Upcoming(ReadNext(s0).1) == Norm(([c] + Upcoming(s))[1..]) &&
      Remaining(ReadNext(s0).1) + (if IsViableOperatorChar(ReadNext(s0).0) then 1 else 0) < Remaining(s) + 1
  {
    var s0 := s.(operatorName := s.operatorName + [c as char]);
    ReadNextLook(s0);
    assert Upcoming(s0) == Upcoming(s);
    assert ([c] + Upcoming(s))[1..] == Upcoming(s);
  }

  lemma ViableCharIsAscii(c: int)
    requires IsViableOperatorChar(c)
    ensures 0 <= c < 128
  {
  }

  lemma {:induction false} OperatorRunName(s: LexState, c: int, cs: seq<int>)
    requires cs == [c] + Upcoming(s)
    ensures OperatorRun(s, c).1.operatorName == s.operatorName + RunText(cs, OperatorChars)
    decreases Remaining(s) + (if IsViableOperatorChar(c) then 1 else 0)
  {
    if IsViableOperatorChar(c) {
      var s0 := s.(operatorName := s.operatorName + [c as char]);
      var c1, s1 := ReadNext(s0).0, ReadNext(s0).1;
      OperatorStep(s, c);
      OperatorRunName(s1, c1, Norm(cs[1..]));
      ViableCharIsAscii(c);
      RunStep(cs, OperatorChars);
      AppendAssoc(s.operatorName, [c as char], RunText(Norm(cs[1..]), OperatorChars));
    }
  }

  lemma {:induction false} OperatorRunLook(s: LexState, c: int, cs: seq<int>)
    requires cs == [c] + Upcoming(s)
    ensures [OperatorRun(s, c).0] + Upcoming(OperatorRun(s, c).1) == Norm(cs[Span(cs, OperatorChars)..])
    decreases Remaining(s) + (if IsViableOperatorChar(c) then 1 else 0)
  {
    if IsViableOperatorChar(c) {
      var s0 := s.(operatorName := s.operatorName + [c as char]);
      OperatorStep(s, c);
      OperatorRunLook(ReadNext(s0).1, ReadNext(s0).0, Norm(cs[1..]));
      RunStep(cs, OperatorChars);
    }
  }

  /** One turn of the quoted-name loop. */
  lemma QuotedStep(s: LexState, c: int, name: seq<int>)
    requires Ascii(name) && IsQuotedChar(c)
    ensures QuotedRun(s, c, name) == QuotedRun(ReadNext(s).1, ReadNext(s).0, name + [c])
    ensures [ReadNext(s).0] + Upcoming(ReadNext(s).1) == Norm(([c] + Upcoming(s))[1..])
    ensures Remaining(ReadNext(s).1) + (if IsQuotedChar(ReadNext(s).0) then 1 else 0) < Remaining(s) + 1
  {
    ReadNextLook(s);
    assert ([c] + Upcoming(s))[1..] == Upcoming(s);
  }

  /** The quoted-name loop gathers exactly the maximal run of quoted characters from c ... */
  lemma QuotedNameStep(cs: seq<int>, name: seq<int>)
    requires cs != [] && IsQuotedChar(cs[0])
    ensures name + [cs[0]] + Norm(cs[1..])[..Span(Norm(cs[1..]), QuotedChars)] ==
            name + cs[..Span(cs, QuotedChars)]
  {
    RunStep(cs, QuotedChars);
    var x := Norm(cs[1..])[..Span(Norm(cs[1..]), QuotedChars)];
    assert name + [cs[0]] + x == name + ([cs[0]] + x);
  }

  lemma {:induction false} QuotedRunName(s: LexState, c: int, name: seq<int>, cs: seq<int>)
    requires Ascii(name) && cs == [c] + Upcoming(s)
    ensures QuotedRun(s, c, name).2 == name + cs[..Span(cs, QuotedChars)]
    decreases Remaining(s) + (if IsQuotedChar(c) then 1 else 0)
  {
    if IsQuotedChar(c) {
      var s1, c1 := ReadNext(s).1, ReadNext(s).0;
      var cs1 := Norm(cs[1..]);
      QuotedStep(s, c, name);
      QuotedRunName(s1, c1, name + [c], cs1);
      QuotedNameStep(cs, name);
    } else {
      assert cs[..Span(cs, QuotedChars)] == [];
    }
  }

  /** ... and stops on the first character after it. */
  lemma {:induction false} QuotedRunLook(s: LexState, c: int, name: seq<int>, cs: seq<int>)
    requires Ascii(name) && cs == [c] + Upcoming(s)
    ensures [QuotedRun(s, c, name).0] + Upcoming(QuotedRun(s, c, name).1) == Norm(cs[Span(cs, QuotedChars)..])
    decreases Remaining(s) + (if IsQuotedChar(c) then 1 else 0)
  {
    if IsQuotedChar(c) {
      QuotedStep(s, c, name);
      QuotedRunLook(ReadNext(s).1, ReadNext(s).0, name + [c], Norm(cs[1..]));
      RunStep(cs, QuotedChars);
    }
  }

  /** The number loop consumes the whole run of digits and points. */
  lemma {:induction false} NumberRestLook(s: LexState, hasPoint: bool, hasSecond: bool)
    ensures Look(NumberRest(s, hasPoint, hasSecond)) == Norm(Look(s)[Span(Look(s), NumberChars)..])
    decreases Remaining(s) + (if IsNumberChar(s.lastChar) then 1 else 0)
  {
    var cs := Look(s);
    var c := s.lastChar;
    if IsNumberChar(c) {
      var second := if !hasSecond then hasPoint && c == '.' as int else hasSecond;
      var point := if !hasPoint then c == '.' as int else hasPoint;
      var s1 := if !second then s.(numText := s.numText + [c as char]) else s;
      var s2 := Advance(s1);
      assert NumberRest(s, hasPoint, hasSecond) == NumberRest(s2, point, second);
      assert Look(s1) == cs;
      AdvanceLook(s1);
      assert Remaining(s2) + (if IsNumberChar(s2.lastChar) then 1 else 0) < Remaining(s) + 1;
      NumberRestLook(s2, point, second);
      RunStep(cs, NumberChars);
    }
  }

  /** After the second point the number loop keeps nothing more. */
  lemma {:induction false} NumberRestDrops(s: LexState, hasPoint: bool)
    ensures NumberRest(s, hasPoint, true).numText == s.numText
    decreases Remaining(s) + (if IsNumberChar(s.lastChar) then 1 else 0)
  {
    if IsNumberChar(s.lastChar) {
      NumberRestDrops(Advance(s), hasPoint || s.lastChar == '.' as int);
    }
  }

  /** A turn of the number loop that keeps its character. */
  lemma NumberKeepStep(s: LexState, hasPoint: bool)
    requires IsNumberChar(s.lastChar) && !(hasPoint && s.lastChar == '.' as int)
    ensures var c := s.lastChar;
      var s2 := Advance(s.(numText := s.numText + [c as char]));
      var point := hasPoint || c == '.' as int;
      NumberRest(s, hasPoint, false) == NumberRest(s2, point, false) &&
      s2.numText == s.numText + [c as char] &&
      Look(s2) == Norm(Look(s)[1..]) &&
      KeptNumber(Look(s), hasPoint) == [c as char] + KeptNumber(Look(s)[1..], point) &&
      Remaining(s2) + (if IsNumberChar(s2.lastChar) then 1 else 0) < Remaining(s) + 1
  {
    var s1 := s.(numText := s.numText + [s.lastChar as char]);
    assert Look(s1) == Look(s);
    AdvanceLook(s1);
  }

  /** The turn of the number loop at the second point. */
  lemma NumberDropStep(s: LexState, hasPoint: bool)
    requires IsNumberChar(s.lastChar) && hasPoint && s.lastChar == '.' as int
    ensures NumberRest(s, hasPoint, false) == NumberRest(Advance(s), true, true)
    ensures KeptNumber(Look(s), hasPoint) == ""
  {
  }

  /** Before the second point, the number loop keeps what KeptNumber keeps. */
  lemma {:induction false} NumberRestText(s: LexState, hasPoint: bool)
    ensures NumberRest(s, hasPoint, false).numText == s.numText + KeptNumber(Look(s), hasPoint)
    decreases Remaining(s) + (if IsNumberChar(s.lastChar) then 1 else 0)
  {
    var c := s.lastChar;
    if !IsNumberChar(c) {
    } else if hasPoint && c == '.' as int {
      NumberDropStep(s, hasPoint);
      NumberRestDrops(Advance(s), true);
    } else {
      var s2 := Advance(s.(numText := s.numText + [c as char]));
      var point := hasPoint || c == '.' as int;
      NumberKeepStep(s, hasPoint);
      NumberRestText(s2, point);
      KeptNumberNorm(Look(s)[1..], point);
      AppendAssoc(s.numText, [c as char], KeptNumber(Look(s2), point));
    }
  }

  /** The comment loop consumes up to and including the first line end or EOF after '#'. */
  lemma {:induction false} CommentRestScans(s: LexState)
    ensures var u := Norm(Look(s)[1..]); var m := Span(u, CommentChars);
      Look(CommentRest(s)) == Norm(u[m..])
    decreases Remaining(s)
  {
    var s1 := Advance(s);
    AdvanceLook(s);
    var u := Norm(Look(s)[1..]);
    if !InComment(s1.lastChar) {
      assert Span(u, CommentChars) == 0;
      assert CommentRest(s) == s1;
    } else {
      assert CommentRest(s) == CommentRest(s1);
      assert Remaining(s1) < Remaining(s);
      CommentRestScans(s1);
      RunStep(u, CommentChars);
    }
  }

  lemma QuotedIsAscii()
    ensures forall c :: IsQuotedChar(c) ==> 0 <= c < 128
  {
  }

  /** The text of a terminated quoted name. */
  lemma QuotedText(u: seq<int>)
    ensures var full := ['`' as int] + u[..Span(u, QuotedChars)] + ['`' as int];
      Ascii(full) && ToStr(full) == "`" + RunText(u, QuotedChars) + "`"
  {
    QuotedIsAscii();
    RunTextIsRun(u, QuotedChars);
    var w := u[..Span(u, QuotedChars)];
    var bq := ['`' as int];
    assert ToStr(bq) == "`";
    ToStrAppend(bq, w);
    ToStrAppend(bq + w, bq);
  }

  /** Putting the name back in front of the rest restores the input (an EOF that ended the
      name is pushed back as well). */
  lemma QuotedRestore(u: seq<int>, q: nat, rest: seq<int>)
    requires q <= |u| && rest == (if q < |u| then u[q + 1..] else [])
    ensures u[..q] + [Head(u[q..])] + rest == (if q < |u| then u else u + [EOF])
  {
    if q < |u| {
      assert u[..q] + [u[q]] + u[q + 1..] == u;
    }
  }

  /** What get_operator has gathered when the quoted-name loop stops. */
  lemma QuotedPrefix(s: LexState)
    ensures var u := Upcoming(s); var q := Span(u, QuotedChars);
      var s0 := s.(operatorName := "");
      var r := QuotedRun(ReadNext(s0).1, ReadNext(s0).0, ['`' as int]);
      r.2 == ['`' as int] + u[..q] && r.0 == Head(u[q..]) &&
      Upcoming(r.1) == (if q < |u| then u[q + 1..] else []) &&
      r.1.operatorName == "" && |r.1.buf| <= |s.buf|
  {
    var u := Upcoming(s);
    var s0 := s.(operatorName := "");
    var c1, s1 := ReadNext(s0).0, ReadNext(s0).1;
    assert [c1] + Upcoming(s1) == Norm(u) by {
      assert Upcoming(s0) == u;
      ReadNextLook(s0);
    }
    QuotedOfNorm(s1, c1, u);
  }

  lemma QuotedOfNorm(s1: LexState, c1: int, u: seq<int>)
    requires [c1] + Upcoming(s1) == Norm(u)
    ensures var q := Span(u, QuotedChars); var r := QuotedRun(s1, c1, ['`' as int]);
      r.2 == ['`' as int] + u[..q] && r.0 == Head(u[q..]) &&
      Upcoming(r.1) == (if q < |u| then u[q + 1..] else []) &&
      r.1.operatorName == s1.operatorName && |r.1.buf| <= |s1.buf|
  {
    var q := Span(u, QuotedChars);
    var r := QuotedRun(s1, c1, ['`' as int]);
    assert r.2 == ['`' as int] + u[..q] by {
      QuotedRunName(s1, c1, ['`' as int], Norm(u));
      SpanNorm(u, QuotedChars);
      NormPrefix(u, QuotedChars);
    }
    assert [r.0] + Upcoming(r.1) == Norm(u[q..]) by {
      QuotedRunLook(s1, c1, ['`' as int], Norm(u));
      SpanNorm(u, QuotedChars);
    }
    ConsNorm(r.0, Upcoming(r.1), u[q..]);
  }

  /** A terminated, non-empty quoted name is the spelling, backticks included. */
  lemma QuotedSpellingFound(s: LexState)
    requires var u := Upcoming(s); var q := Span(u, QuotedChars); 0 < q < |u| && u[q] == '`' as int
    ensures var u := Upcoming(s); var q := Span(u, QuotedChars); var r := OperatorSpelling(s, '`' as int);
      r.1.operatorName == "`" + RunText(u, QuotedChars) + "`" && [r.0] + Upcoming(r.1) == Norm(u[q + 1..])
  {
    var u := Upcoming(s);
    var q := Span(u, QuotedChars);
    QuotedPrefix(s);
    QuotedText(u);
    var s0 := s.(operatorName := "");
    var qr := QuotedRun(ReadNext(s0).1, ReadNext(s0).0, ['`' as int]);
    var full := qr.2 + [qr.0];
    assert |full| == q + 2;
    var s3 := qr.1.(operatorName := ToStr(full));
    assert OperatorSpelling(s, '`' as int) == ReadNext(QuotedEnd(qr.1, qr.0, qr.2));
    assert QuotedEnd(qr.1, qr.0, qr.2) == s3;
    ReadNextLook(s3);
  }

  /** An unterminated or empty quoted name is pushed back whole: the backtick is returned
      and everything after it is read again in its original order. */
  lemma QuotedSpellingRejected(s: LexState)
    requires var u := Upcoming(s); var q := Span(u, QuotedChars);
      !(0 < q < |u| && u[q] == '`' as int) && |s.buf| + q + 2 <= BUFSIZE
    ensures var u := Upcoming(s); var q := Span(u, QuotedChars); var r := OperatorSpelling(s, '`' as int);
      r.1.operatorName == "" && r.0 == '`' as int && Upcoming(r.1) == (if q < |u| then u else u + [EOF])
  {
    var u := Upcoming(s);
    var q := Span(u, QuotedChars);
    QuotedPrefix(s);
    var s0 := s.(operatorName := "");
    var qr := QuotedRun(ReadNext(s0).1, ReadNext(s0).0, ['`' as int]);
    BacktickSpelling(s);
    QuotedEndRejected(qr.1, qr.0, qr.2, u, q);
    var full := qr.2 + [qr.0];
    assert full == ['`' as int] + u[..q] + [Head(u[q..])] && |full| == q + 2;
    assert OperatorSpelling(s, '`' as int) == ReadNext(PushBackAll(qr.1, full));
    RejectedRead(qr.1, full, u, q);
  }

  /** get_operator at a backtick, unfolded. */
  lemma BacktickSpelling(s: LexState)
    ensures var s0 := s.(operatorName := "");
      var qr := QuotedRun(ReadNext(s0).1, ReadNext(s0).0, ['`' as int]);
      OperatorSpelling(s, '`' as int) == ReadNext(QuotedEnd(qr.1, qr.0, qr.2))
  {
  }

  lemma QuotedEndRejected(s2: LexState, c: int, name: seq<int>, u: seq<int>, q: nat)
    requires Ascii(name) && q <= |u| && name == ['`' as int] + u[..q] && c == Head(u[q..])
    requires !(0 < q < |u| && u[q] == '`' as int)
    ensures QuotedEnd(s2, c, name) == PushBackAll(s2, name + [c])
  {
    assert c != '`' as int || name + [c] == ['`' as int, '`' as int];
  }

  lemma RejectedRead(s2: LexState, full: seq<int>, u: seq<int>, q: nat)
    requires q <= |u| && full == ['`' as int] + u[..q] + [Head(u[q..])]
    requires |s2.buf| + |full| <= BUFSIZE
    requires Upcoming(s2) == (if q < |u| then u[q + 1..] else [])
    ensures var r := ReadNext(PushBackAll(s2, full));
      r.0 == '`' as int && Upcoming(r.1) == (if q < |u| then u else u + [EOF]) &&
      r.1.operatorName == s2.operatorName
  {
    var s3 := PushBackAll(s2, full);
    PushBackAllUpcoming(s2, full);
    ReadNextUpcoming(s3);
    RejectedSeq(u, q, Upcoming(s2));
  }

  /** The characters pushed back by a rejected quoted name, followed by the rest. */
  lemma RejectedSeq(u: seq<int>, q: nat, x: seq<int>)
    requires q <= |u| && x == (if q < |u| then u[q + 1..] else [])
    ensures var w := ['`' as int] + u[..q] + [Head(u[q..])] + x;
      w[0] == '`' as int && w[1..] == (if q < |u| then u else u + [EOF])
  {
    var w := ['`' as int] + u[..q] + [Head(u[q..])] + x;
    assert w[1..] == u[..q] + [Head(u[q..])] + x;
    QuotedRestore(u, q, x);
  }

  /** An unquoted spelling is the maximal run of operator characters from last. */
  lemma UnquotedSpelling(s: LexState, last: int)
    requires last != '`' as int
    ensures var cs := [last] + Upcoming(s); var r := OperatorSpelling(s, last);
      r.1.operatorName == RunText(cs, OperatorChars) &&
      [r.0] + Upcoming(r.1) == Norm(cs[Span(cs, OperatorChars)..])
  {
    var s0 := s.(operatorName := "");
    assert Upcoming(s0) == Upcoming(s);
    OperatorRunScans(s0, last);
  }

  /** The input gettok classifies: everything from the first non-whitespace character. */
  function AfterSpaces(s: LexState): (r: seq<int>)
    ensures r != []
  {
    Norm(Look(s)[Span(Look(s), Spaces)..])
  }

  /** The nine keywords and their codes. */
  const Keywords: map<string, int> := map[
    "def" := TokDef, "extern" := TokExtern, "if" := TokIf, "then" := TokThen, "else" := TokElse,
    "for" := TokFor, "do" := TokDo, "end" := TokEnd, "with" := TokWith]

  lemma StartedLook(s: LexState)
    ensures Look(Started(s)) == AfterSpaces(s) && Started(s).lastChar == AfterSpaces(s)[0]
    ensures Started(s).curLoc == SkipSpace(s).lexLoc && |Started(s).buf| <= |s.buf|
    ensures Upcoming(Started(s)) == AfterSpaces(s)[1..]
  {
    SkipSpaceScans(s);
    assert Look(Started(s)) == Look(SkipSpace(s));
  }

  /** The identifier scan of gettok. */
  lemma WordScan(t: LexState)
    requires IsAlpha(t.lastChar)
    ensures var w := IdentRest(Advance(t.(identifierStr := [t.lastChar as char])));
      w.identifierStr == RunText(Look(t), Alnums) && Look(w) == Norm(Look(t)[Span(Look(t), Alnums)..])
  {
    var t1 := t.(identifierStr := [t.lastChar as char]);
    var t2 := Advance(t1);
    assert Look(t2) == Norm(Look(t)[1..]) by {
      assert Look(t1) == Look(t);
      AdvanceLook(t1);
    }
    IdentRestText(t2, Look(t2));
    IdentRestLook(t2);
    RunStep(Look(t), Alnums);
  }

  /** The keyword chain of gettok agrees with the keyword table. */
  lemma WordTokenCode(t: LexState)
    requires IsAlpha(t.lastChar)
    ensures var wt := IdentRest(Advance(t.(identifierStr := [t.lastChar as char])));
      var w := wt.identifierStr;
      w != "binary" && w != "unary" ==>
        WordToken(t) == (if w in Keywords then Keywords[w] else TokIdentifier, wt)
  {
    KeywordChain(IdentRest(Advance(t.(identifierStr := [t.lastChar as char]))));
  }

  lemma KeywordChain(wt: LexState)
    ensures var w := wt.identifierStr;
      w != "binary" && w != "unary" ==>
        WordCode(wt) == (if w in Keywords then Keywords[w] else TokIdentifier, wt)
  {
    var w := wt.identifierStr;
    if w == "def" || w == "extern" || w == "if" || w == "then" || w == "else" ||
       w == "for" || w == "do" || w == "end" || w == "with" {
      assert w in Keywords;
    } else {
      assert w !in Keywords;
    }
  }

  /** After `binary` or `unary` gettok scans an operator spelling. */
  lemma WordTokenContextual(t: LexState)
    requires IsAlpha(t.lastChar)
    ensures var wt := IdentRest(Advance(t.(identifierStr := [t.lastChar as char])));
      var w := wt.identifierStr; var o := OperatorSpelling(wt, wt.lastChar);
      (w == "binary" || w == "unary") ==>
        WordToken(t) == (if o.1.operatorName == "" then TokIdentifier else if w == "binary" then TokBinary else TokUnary,
                         o.1.(lastChar := o.0)) &&
        o.1.identifierStr == w
  {
    ContextualChain(IdentRest(Advance(t.(identifierStr := [t.lastChar as char]))));
  }

  lemma ContextualChain(wt: LexState)
    ensures var w := wt.identifierStr; var o := OperatorSpelling(wt, wt.lastChar);
      (w == "binary" || w == "unary") ==>
        WordCode(wt) == (if o.1.operatorName == "" then TokIdentifier else if w == "binary" then TokBinary else TokUnary,
                         o.1.(lastChar := o.0)) &&
        o.1.identifierStr == w
  {
  }

  lemma GetTokIsWord(s: LexState)
    requires IsAlpha(AfterSpaces(s)[0])
    ensures IsAlpha(Started(s).lastChar) && NextToken(s) == WordToken(Started(s))
    ensures Look(Started(s)) == AfterSpaces(s)
  {
    StartedLook(s);
  }

  /** Words: the keywords give their codes and any other word (but the two contextual ones)
      is an identifier; identifier_str is the whole alphanumeric run either way. */
  lemma GetTokWord(s: LexState)
    requires IsAlpha(AfterSpaces(s)[0])
    ensures var cs := AfterSpaces(s); var w := RunText(cs, Alnums); var r := NextToken(s);
      r.1.identifierStr == w &&
      (w in Keywords ==> r.0 == Keywords[w] && Look(r.1) == Norm(cs[Span(cs, Alnums)..])) &&
      (w !in Keywords && w != "binary" && w != "unary" ==>
         r.0 == TokIdentifier && Look(r.1) == Norm(cs[Span(cs, Alnums)..]))
  {
    GetTokIsWord(s);
    WordFacts(Started(s));
  }

  /** The identifier state on the characters it starts at. */
  lemma WordFacts(t: LexState)
    requires IsAlpha(t.lastChar)
    ensures var cs := Look(t); var w := RunText(cs, Alnums); var r := WordToken(t);
      r.1.identifierStr == w &&
      (w in Keywords ==> r.0 == Keywords[w] && Look(r.1) == Norm(cs[Span(cs, Alnums)..])) &&
      (w !in Keywords && w != "binary" && w != "unary" ==>
         r.0 == TokIdentifier && Look(r.1) == Norm(cs[Span(cs, Alnums)..]))
  {
    WordScan(t);
    WordTokenCode(t);
    WordTokenContextual(t);
    KeywordsNotContextual();
  }

  lemma KeywordsNotContextual()
    ensures "binary" !in Keywords && "unary" !in Keywords
  {
  }

  /** `binary` and `unary` followed at once by a spelling give tok_binary / tok_unary with
      operator_name set; followed by anything else they are plain identifiers and nothing
      after the word is consumed (so `binary +`, with a space, is an identifier). A backtick
      name that is unterminated or empty is pushed back: the word is an identifier with an
      empty operator_name, and the backtick and everything after it are read again, when
      the push-back buffer has room. */
  lemma GetTokContextual(s: LexState)
    requires IsAlpha(AfterSpaces(s)[0])
    requires RunText(AfterSpaces(s), Alnums) in {"binary", "unary"}
    ensures var cs := AfterSpaces(s); var w := RunText(cs, Alnums); var r := NextToken(s);
      var after := Norm(cs[Span(cs, Alnums)..]);
      var code := if w == "binary" then TokBinary else TokUnary;
      (IsViableOperatorChar(after[0]) ==>
         r.0 == code && r.1.operatorName == RunText(after, OperatorChars) &&
         Look(r.1) == Norm(after[Span(after, OperatorChars)..])) &&
      (!IsViableOperatorChar(after[0]) && after[0] != '`' as int ==>
         r.0 == TokIdentifier && r.1.operatorName == "" && Look(r.1) == after) &&
      (var u := after[1..]; var q := Span(u, QuotedChars);
       after[0] == '`' as int && 0 < q < |u| && u[q] == '`' as int ==>
         r.0 == code && r.1.operatorName == "`" + RunText(u, QuotedChars) + "`") &&
      (var u := after[1..]; var q := Span(u, QuotedChars);
       after[0] == '`' as int && !(0 < q < |u| && u[q] == '`' as int) && |s.buf| + q + 2 <= BUFSIZE ==>
         r.0 == TokIdentifier && r.1.operatorName == "" &&
         Look(r.1) == ['`' as int] + (if q < |u| then u else u + [EOF]))
  {
    GetTokIsWord(s);
    StartedLook(s);
    ContextualFacts(Started(s));
  }

  /** The identifier state at `binary` or `unary`, on the characters it starts at. */
  lemma ContextualFacts(t: LexState)
    requires IsAlpha(t.lastChar)
    requires RunText(Look(t), Alnums) in {"binary", "unary"}
    ensures var cs := Look(t); var w := RunText(cs, Alnums); var r := WordToken(t);
      var after := Norm(cs[Span(cs, Alnums)..]);
      var code := if w == "binary" then TokBinary else TokUnary;
      (IsViableOperatorChar(after[0]) ==>
         r.0 == code && r.1.operatorName == RunText(after, OperatorChars) &&
         Look(r.1) == Norm(after[Span(after, OperatorChars)..])) &&
      (!IsViableOperatorChar(after[0]) && after[0] != '`' as int ==>
         r.0 == TokIdentifier && r.1.operatorName == "" && Look(r.1) == after) &&
      (var u := after[1..]; var q := Span(u, QuotedChars);
       after[0] == '`' as int && 0 < q < |u| && u[q] == '`' as int ==>
         r.0 == code && r.1.operatorName == "`" + RunText(u, QuotedChars) + "`") &&
      (var u := after[1..]; var q := Span(u, QuotedChars);
       after[0] == '`' as int && !(0 < q < |u| && u[q] == '`' as int) && |t.buf| + q + 2 <= BUFSIZE ==>
         r.0 == TokIdentifier && r.1.operatorName == "" &&
         Look(r.1) == ['`' as int] + (if q < |u| then u else u + [EOF]))
  {
    WordScan(t);
    WordTokenContextual(t);
    var wt := IdentRest(Advance(t.(identifierStr := [t.lastChar as char])));
    var cs := Look(t);
    var after := Norm(cs[Span(cs, Alnums)..]);
    assert Look(wt) == after;
    if IsViableOperatorChar(after[0]) {
      SpellingRun(wt);
    } else if after[0] != '`' as int {
      SpellingNone(wt);
    } else {
      var u := after[1..];
      var q := Span(u, QuotedChars);
      assert Upcoming(wt) == u;
      if 0 < q < |u| && u[q] == '`' as int {
        QuotedSpellingFound(wt);
        assert "`" + RunText(u, QuotedChars) + "`" != "";
      } else if |t.buf| + q + 2 <= BUFSIZE {
        QuotedSpellingRejected(wt);
      }
    }
  }

  /** get_operator at an operator character: the maximal run, which is not empty. */
  lemma SpellingRun(t: LexState)
    requires IsViableOperatorChar(t.lastChar)
    ensures var o := OperatorSpelling(t, t.lastChar);
      o.1.operatorName == RunText(Look(t), OperatorChars) && o.1.operatorName != "" &&
      Look(o.1.(lastChar := o.0)) == Norm(Look(t)[Span(Look(t), OperatorChars)..])
  {
    UnquotedSpelling(t, t.lastChar);
    RunTextStarts(Look(t), OperatorChars);
  }

  /** get_operator at any other character but a backtick: no spelling, nothing consumed. */
  lemma SpellingNone(t: LexState)
    requires !IsViableOperatorChar(t.lastChar) && t.lastChar != '`' as int
    ensures var o := OperatorSpelling(t, t.lastChar);
      o.1.operatorName == "" && Look(o.1.(lastChar := o.0)) == Look(t)
  {
    UnquotedSpelling(t, t.lastChar);
  }

  /** Numbers: tok_number, the literal text cut before a second point, and the whole run
      of digits and points consumed. */
  lemma GetTokNumber(s: LexState)
    requires IsNumberChar(AfterSpaces(s)[0])
    ensures var cs := AfterSpaces(s); var r := NextToken(s);
      r.0 == TokNumber && r.1.numText == KeptNumber(cs, false) &&
      Look(r.1) == Norm(cs[Span(cs, NumberChars)..])
  {
    StartedLook(s);
    var t := Started(s);
    var cs := AfterSpaces(s);
    var c := t.lastChar;
    assert NextToken(s) == NumberToken(t);
    var t1 := t.(numText := [c as char]);
    var t2 := Advance(t1);
    assert Look(t2) == Norm(cs[1..]) by {
      assert Look(t1) == Look(t);
      AdvanceLook(t1);
    }
    NumberRestText(t2, c == '.' as int);
    NumberRestLook(t2, c == '.' as int, false);
    KeptNumberNorm(cs[1..], c == '.' as int);
    RunStep(cs, NumberChars);
  }

  lemma GetTokIsOther(s: LexState)
    requires var c := AfterSpaces(s)[0]; !IsAlpha(c) && !IsNumberChar(c) && c != '#' as int
    ensures NextToken(s) == OtherToken(Started(s))
    ensures Look(Started(s)) == AfterSpaces(s) && Upcoming(Started(s)) == AfterSpaces(s)[1..]
    ensures |Started(s).buf| <= |s.buf|
  {
    StartedLook(s);
  }

  /** Unquoted operator spellings: tok_operator with the maximal run of the 22 characters. */
  lemma GetTokOperator(s: LexState)
    requires IsViableOperatorChar(AfterSpaces(s)[0])
    ensures var cs := AfterSpaces(s); var r := NextToken(s);
      r.0 == TokOperator && r.1.operatorName == RunText(cs, OperatorChars) &&
      Look(r.1) == Norm(cs[Span(cs, OperatorChars)..])
  {
    GetTokIsOther(s);
    SpellingRun(Started(s));
  }

  /** A terminated, non-empty backtick name is tok_operator spelled with both backticks. */
  lemma GetTokBacktickName(s: LexState)
    requires AfterSpaces(s)[0] == '`' as int
    requires var u := AfterSpaces(s)[1..]; var q := Span(u, QuotedChars); 0 < q < |u| && u[q] == '`' as int
    ensures var u := AfterSpaces(s)[1..]; var q := Span(u, QuotedChars); var r := NextToken(s);
      r.0 == TokOperator && r.1.operatorName == "`" + RunText(u, QuotedChars) + "`" &&
      Look(r.1) == Norm(u[q + 1..])
  {
    GetTokIsOther(s);
    QuotedSpellingFound(Started(s));
    assert "`" + RunText(AfterSpaces(s)[1..], QuotedChars) + "`" != "";
  }

  /** Otherwise the backtick comes out as a token of its own, operator_name is empty and
      everything after it is read again, provided the push-back buffer has room. */
  lemma GetTokBacktickAlone(s: LexState)
    requires AfterSpaces(s)[0] == '`' as int
    requires var u := AfterSpaces(s)[1..]; var q := Span(u, QuotedChars);
      !(0 < q < |u| && u[q] == '`' as int) && |s.buf| + q + 2 <= BUFSIZE
    ensures var u := AfterSpaces(s)[1..]; var q := Span(u, QuotedChars); var r := NextToken(s);
      r.0 == '`' as int && r.1.operatorName == "" && Look(r.1) == (if q < |u| then u else u + [EOF])
  {
    GetTokIsOther(s);
    BacktickAlone(Started(s));
  }

  /** The fallback of OtherToken at a backtick that starts no spelling. */
  lemma BacktickAlone(t: LexState)
    requires t.lastChar == '`' as int
    requires var u := Upcoming(t); var q := Span(u, QuotedChars);
      !(0 < q < |u| && u[q] == '`' as int) && |t.buf| + q + 2 <= BUFSIZE
    ensures var u := Upcoming(t); var q := Span(u, QuotedChars); var r := OtherToken(t);
      r.0 == '`' as int && r.1.operatorName == "" && Look(r.1) == (if q < |u| then u else u + [EOF])
  {
    var u := Upcoming(t);
    var q := Span(u, QuotedChars);
    var w := if q < |u| then u else u + [EOF];
    QuotedSpellingRejected(t);
    var o := OperatorSpelling(t, '`' as int);
    var s2 := o.1.(lastChar := o.0);
    assert OtherToken(t) == LastResort(s2);
    assert LastResort(s2) == (o.0, Advance(s2));
    assert Look(s2)[1..] == w by {
      assert Upcoming(s2) == Upcoming(o.1);
    }
    AdvanceLook(s2);
  }

  /** End of input gives tok_eof and resets last_char to a blank; any other character is a
      token of its own and exactly that one character is consumed. */
  lemma GetTokEndOrChar(s: LexState)
    requires var c := AfterSpaces(s)[0];
      !IsAlpha(c) && !IsNumberChar(c) && c != '#' as int && c != '`' as int && !IsViableOperatorChar(c)
    ensures var cs := AfterSpaces(s); var r := NextToken(s);
      (cs[0] == EOF ==> r.0 == TokEof && r.1.lastChar == ' ' as int && Upcoming(r.1) == cs[1..]) &&
      (cs[0] != EOF ==> r.0 == cs[0] && Look(r.1) == Norm(cs[1..]))
  {
    GetTokIsOther(s);
    AdvanceLook(Started(s));
  }

  /** A `#` comment is skipped through the next line end: lexing restarts after it, and a
      comment that runs into EOF gives tok_eof. */
  lemma GetTokComment(s: LexState)
    requires AfterSpaces(s)[0] == '#' as int
    ensures var u := Norm(AfterSpaces(s)[1..]); var m := Span(u, CommentChars);
      var c := CommentRest(Started(s)); var r := NextToken(s);
      Look(c) == Norm(u[m..]) &&
      (c.lastChar == EOF ==> r.0 == TokEof && r.1.lastChar == ' ' as int) &&
      (c.lastChar != EOF ==> IsLineEnd(c.lastChar) && r == NextToken(c))
  {
    StartedLook(s);
    var t := Started(s);
    CommentRestScans(t);
    assert NextToken(s) == Classify(t);
    CommentBranch(t);
  }

  lemma CommentBranch(t: LexState)
    requires t.lastChar == '#' as int
    ensures var c := CommentRest(t);
      (c.lastChar != EOF ==> Classify(t) == NextToken(c)) &&
      (c.lastChar == EOF ==> Classify(t) == (TokEof, c.(lastChar := ' ' as int)))
  {
    var c := CommentRest(t);
    assert Classify(t) == if c.lastChar != EOF then NextToken(c) else OtherToken(c);
  }

  /** cur_loc is where the token starts: the location once whitespace is skipped. */
  lemma GetTokLocation(s: LexState)
    requires AfterSpaces(s)[0] != '#' as int
    ensures NextToken(s).1.curLoc == SkipSpace(s).lexLoc
  {
    StartedLook(s);
    assert NextToken(s) == Classify(Started(s));
    ClassifyLocation(Started(s));
  }

  lemma ClassifyLocation(t: LexState)
    requires !IsSpace(t.lastChar) && t.lastChar != '#' as int
    ensures Classify(t).1.curLoc == t.curLoc
  {
    if IsAlpha(t.lastChar) {
      assert Classify(t) == WordToken(t);
    } else if IsNumberChar(t.lastChar) {
      assert Classify(t) == NumberToken(t);
    } else {
      assert Classify(t) == OtherToken(t);
    }
  }

  /** The operator alphabet: exactly 22 distinct characters, and is_viable_operator_char
      holds for them and for nothing else. */
  lemma OperatorAlphabetExact()
    ensures |OperatorAlphabet| == 22
    ensures forall c :: IsViableOperatorChar(c) <==> c in Codes(OperatorAlphabet)
  {
    var cs := Codes(OperatorAlphabet);
    assert cs == ['!' as int, '$' as int, '%' as int, '&' as int, ':' as int, '*' as int, '/' as int, '+' as int, '-' as int, '<' as int, '>' as int, '=' as int, '?' as int, '@' as int, '[' as int, ']' as int, '\\' as int, '^' as int, '|' as int, '{' as int, '}' as int, '~' as int];
  }

  lemma OperatorAlphabetDistinct()
    ensures forall i, j :: 0 <= i < j < |OperatorAlphabet| ==> OperatorAlphabet[i] != OperatorAlphabet[j]
  {
  }
}
