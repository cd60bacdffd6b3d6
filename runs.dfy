/** Runs of characters of one class in a character sequence, the state-free vocabulary in
    which both lexers' scanning loops are described: an exhausted input reads as EOF
    (`Norm`), `Span` is the length of the leading run and `RunText` its text. */
module Runs {
  import opened Chars
  import opened Lexer

  /** An exhausted input reads as EOF. */
  function Norm(cs: seq<int>): seq<int> {
    if cs == [] then [EOF] else cs
  }

  /** The character classes the lexer scans runs of. */
  datatype CharClass = Spaces | Alnums | OperatorChars | QuotedChars | NumberChars | CommentChars

  predicate In(k: CharClass, c: int) {
    match k
    case Spaces => IsSpace(c)
    case Alnums => IsAlnum(c)
    case OperatorChars => IsViableOperatorChar(c)
    case QuotedChars => IsQuotedChar(c)
    case NumberChars => IsNumberChar(c)
    case CommentChars => InComment(c)
  }

  /** The length of the longest prefix of cs whose characters are all in class k. */
  function Span(cs: seq<int>, k: CharClass): (n: nat)
    ensures n <= |cs|
    ensures n < |cs| ==> !In(k, cs[n])
    decreases |cs|
  {
    if cs == [] || !In(k, cs[0]) then 0 else 1 + Span(cs[1..], k)
  }

  /** The first character of cs, EOF when there is none. */
  function Head(cs: seq<int>): int {
    if cs == [] then EOF else cs[0]
  }

  lemma SpanNorm(cs: seq<int>, k: CharClass)
    requires !In(k, EOF)
    ensures Span(Norm(cs), k) == Span(cs, k)
    ensures Norm(Norm(cs)[Span(cs, k)..]) == Norm(cs[Span(cs, k)..])
  {
  }

  lemma ToStrCons(c: int, cs: seq<int>)
    requires 0 <= c < 128 && Ascii(cs)
    ensures Ascii([c] + cs) && ToStr([c] + cs) == [c as char] + ToStr(cs)
  {
    assert Ascii([c] + cs);
    assert ToStr([c] + cs) == [c as char] + ToStr(cs);
  }

  /** Splitting a run after its first character. */
  lemma SpanCons(cs: seq<int>, k: CharClass)
    requires cs != [] && In(k, cs[0])
    ensures Span(cs, k) == 1 + Span(cs[1..], k)
    ensures cs[..Span(cs, k)] == [cs[0]] + cs[1..][..Span(cs[1..], k)]
    ensures cs[1..][Span(cs[1..], k)..] == cs[Span(cs, k)..]
  {
    var n := Span(cs[1..], k);
    assert Span(cs, k) == 1 + n;
    assert cs[..1 + n] == [cs[0]] + cs[1..][..n];
  }

  /** The leading run of cs in class k, as text (a run stops at a non-ASCII code too; every
      class the lexer scans runs of is ASCII). */
  function RunText(cs: seq<int>, k: CharClass): (r: string)
    ensures |r| <= Span(cs, k)
    decreases |cs|
  {
    if cs == [] || !In(k, cs[0]) || !(0 <= cs[0] < 128) then "" else [cs[0] as char] + RunText(cs[1..], k)
  }

  lemma RunTextNorm(cs: seq<int>, k: CharClass)
    requires !In(k, EOF)
    ensures RunText(Norm(cs), k) == RunText(cs, k)
  {
  }

  /** For an ASCII class, RunText is the whole run. */
  lemma {:induction false} RunTextIsRun(cs: seq<int>, k: CharClass)
    requires forall c :: In(k, c) ==> 0 <= c < 128
    ensures Ascii(cs[..Span(cs, k)]) && ToStr(cs[..Span(cs, k)]) == RunText(cs, k)
    decreases |cs|
  {
    if cs != [] && In(k, cs[0]) {
      RunTextIsRun(cs[1..], k);
      SpanCons(cs, k);
      ToStrCons(cs[0], cs[1..][..Span(cs[1..], k)]);
    } else {
      assert cs[..Span(cs, k)] == [];
    }
  }

  /** A run seen one character later: what is left after its first character, read with
      EOF once the input is exhausted. */
  lemma RunStep(cs: seq<int>, k: CharClass)
    requires cs != [] && In(k, cs[0]) && !In(k, EOF)
    ensures Span(cs, k) == 1 + Span(Norm(cs[1..]), k)
    ensures 0 <= cs[0] < 128 ==> RunText(cs, k) == [cs[0] as char] + RunText(Norm(cs[1..]), k)
    ensures cs[..Span(cs, k)] == [cs[0]] + Norm(cs[1..])[..Span(Norm(cs[1..]), k)]
    ensures Norm(cs[Span(cs, k)..]) == Norm(Norm(cs[1..])[Span(Norm(cs[1..]), k)..])
  {
    SpanNorm(cs[1..], k);
    RunTextNorm(cs[1..], k);
    SpanCons(cs, k);
    var m := Span(cs[1..], k);
    assert Norm(cs[1..])[..m] == cs[1..][..m];
  }

  lemma AppendAssoc(a: string, b: string, c: string)
    ensures a + b + c == a + (b + c)
  {
  }

  /** The text a number literal keeps from the characters cs it starts at: the leading run
      of digits and points, cut before the run's second point (seenPoint says whether a
      point came earlier). */
  function KeptNumber(cs: seq<int>, seenPoint: bool): (r: string)
    decreases |cs|
  {
    if cs == [] || !IsNumberChar(cs[0]) then ""
    else if cs[0] == '.' as int && seenPoint then ""
    else [cs[0] as char] + KeptNumber(cs[1..], seenPoint || cs[0] == '.' as int)
  }

  /** The kept text holds at most one point. */
  lemma {:induction false} KeptNumberOnePoint(cs: seq<int>)
    ensures forall i, j :: 0 <= i < j < |KeptNumber(cs, false)| ==>
      !(KeptNumber(cs, false)[i] == '.' && KeptNumber(cs, false)[j] == '.')
    decreases |cs|
  {
    if cs != [] && IsNumberChar(cs[0]) && cs[0] != '.' as int {
      KeptNumberOnePoint(cs[1..]);
    } else if cs != [] && IsNumberChar(cs[0]) {
      KeptNumberNoPoint(cs[1..]);
    }
  }

  lemma {:induction false} KeptNumberNoPoint(cs: seq<int>)
    ensures forall i :: 0 <= i < |KeptNumber(cs, true)| ==> KeptNumber(cs, true)[i] != '.'
    decreases |cs|
  {
    if cs != [] && IsNumberChar(cs[0]) && cs[0] != '.' as int {
      KeptNumberNoPoint(cs[1..]);
    }
  }

  /** A run with at most one point is kept whole. */
  lemma {:induction false} KeptNumberWhole(cs: seq<int>, seenPoint: bool)
    requires forall i, j :: 0 <= i < j < Span(cs, NumberChars) ==> !(cs[i] == '.' as int && cs[j] == '.' as int)
    requires seenPoint ==> forall i :: 0 <= i < Span(cs, NumberChars) ==> cs[i] != '.' as int
    ensures |KeptNumber(cs, seenPoint)| == Span(cs, NumberChars)
    decreases |cs|
  {
    if cs != [] && IsNumberChar(cs[0]) {
      SpanCons(cs, NumberChars);
      var seen := seenPoint || cs[0] == '.' as int;
      forall i, j | 0 <= i < j < Span(cs[1..], NumberChars)
        ensures !(cs[1..][i] == '.' as int && cs[1..][j] == '.' as int)
      {
        assert cs[1..][i] == cs[i + 1] && cs[1..][j] == cs[j + 1];
      }
      forall i | seen && 0 <= i < Span(cs[1..], NumberChars) ensures cs[1..][i] != '.' as int {
        assert cs[1..][i] == cs[i + 1];
        assert !(cs[0] == '.' as int && cs[i + 1] == '.' as int);
      }
      KeptNumberWhole(cs[1..], seen);
    }
  }

  /** "3.14.15" keeps "3.14". */
  lemma SecondPointTruncates()
    ensures KeptNumber(Codes("3.14.15"), false) == "3.14"
  {
    var cs := Codes("3.14.15");
    assert cs == ['3' as int, '.' as int, '1' as int, '4' as int, '.' as int, '1' as int, '5' as int];
    assert KeptNumber(cs[4..], true) == "";
    assert KeptNumber(cs[3..], true) == "4";
    assert KeptNumber(cs[2..], true) == "14";
    assert KeptNumber(cs[1..], false) == ".14";
  }

  predicate InComment(c: int) {
    c != EOF && !IsLineEnd(c)
  }

  lemma ConsNorm(c: int, w: seq<int>, v: seq<int>)
    requires [c] + w == Norm(v)
    ensures c == Head(v) && w == (if v == [] then [] else v[1..])
  {
    assert ([c] + w)[0] == c && ([c] + w)[1..] == w;
  }

  lemma NormPrefix(u: seq<int>, k: CharClass)
    requires !In(k, EOF)
    ensures Norm(u)[..Span(u, k)] == u[..Span(u, k)]
  {
  }

  lemma ToStrAppend(a: seq<int>, b: seq<int>)
    requires Ascii(a) && Ascii(b)
    ensures Ascii(a + b) && ToStr(a + b) == ToStr(a) + ToStr(b)
  {
    assert Ascii(a + b);
    var l, r := ToStr(a + b), ToStr(a) + ToStr(b);
    assert |l| == |r|;
    forall i | 0 <= i < |l| ensures l[i] == r[i] {
      if i < |a| {
        assert (a + b)[i] == a[i];
      } else {
        assert (a + b)[i] == b[i - |a|];
      }
    }
  }

  lemma RunTextStarts(cs: seq<int>, k: CharClass)
    requires cs != [] && In(k, cs[0]) && 0 <= cs[0] < 128
    ensures RunText(cs, k) != ""
  {
  }

  lemma KeptNumberNorm(cs: seq<int>, seenPoint: bool)
    ensures KeptNumber(Norm(cs), seenPoint) == KeptNumber(cs, seenPoint)
  {
  }
}
