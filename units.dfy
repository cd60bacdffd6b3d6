/** get_unit and the unit loop of `main`, which compiler.cpp and src/repl.cpp share (the
    REPL also prints its prompt at each newline). Standard input is a sequence of bytes;
    getchar gives EOF once it is exhausted, and its result is stored in a signed `char`,
    so a 0xFF byte reads as EOF. */
module Units {
  import opened Chars

  const Hash: int := '#' as int
  const Newline: int := '\n' as int
  const Semi: int := ';' as int

  /** `c = getchar()`: the next byte as a signed char, or EOF at the end. */
  function ReadChar(input: seq<int>, pos: nat): (r: (int, nat))
    requires pos <= |input|
    ensures pos < |input| ==> r == (SignedChar(input[pos]), pos + 1)
    ensures pos == |input| ==> r == (EOF, pos)
  {
    if pos < |input| then (SignedChar(input[pos]), pos + 1) else (SignedChar(EOF), pos)
  }

  /** The signed chars of a run of bytes. */
  function Signed(s: seq<int>): (r: seq<int>)
    ensures |r| == |s|
  {
    if s == [] then [] else [SignedChar(s[0])] + Signed(s[1..])
  }

  /** The loop of get_unit from `pos` with the comment flag and the text `ss` collected so
      far. It returns 0 at a `;` outside a comment or at a NUL, EOF at EOF, the position
      after the last byte read, and the stream's new text. */
  function GetUnit(input: seq<int>, pos: nat, inComment: bool, ss: seq<int>): (r: (int, nat, seq<int>))
    requires pos <= |input|
    ensures pos <= r.1 <= |input| && (r.0 == 0 || r.0 == EOF)
    ensures r.0 == 0 ==> pos < r.1
    decreases |input| - pos
  {
    var (c, p1) := ReadChar(input, pos);
    if c == 0 then (0, p1, ss)
    else
      var ss1 := ss + [c];
      var inC := if c == Newline then false else if c == Hash then true else inComment;
      if !inC && c == Semi then (0, p1, ss1)
      else if c == EOF then (EOF, p1, ss1)
      else GetUnit(input, p1, inC, ss1)
  }

  /** `while (get_unit(ss) != EOF) { handle_unit(); ss.str(""); ss.clear(); }` from `pos`:
      the text of each unit handed to handle_unit, in order, and the text left in the
      stream when get_unit returns EOF, which is never handled. */
  function Split(input: seq<int>, pos: nat): (r: (seq<seq<int>>, seq<int>))
    requires pos <= |input|
    decreases |input| - pos
  {
    var (code, p1, u) := GetUnit(input, pos, false, []);
    if code == EOF then ([], u)
    else
      var (us, rest) := Split(input, p1);
      ([u] + us, rest)
  }

  lemma SignedCons(input: seq<int>, pos: nat, q: nat)
    requires pos < q <= |input|
    ensures Signed(input[pos..q]) == [SignedChar(input[pos])] + Signed(input[pos + 1..q])
  {
    assert input[pos..q][1..] == input[pos + 1..q];
  }

  /** Reading one more byte before a run extends what was read by that byte. */
  lemma ReadMore(input: seq<int>, pos: nat, q: nat, ss: seq<int>, u: seq<int>)
    requires pos < q <= |input| && u == ss + [SignedChar(input[pos])] + Signed(input[pos + 1..q])
    ensures u == ss + Signed(input[pos..q])
  {
    SignedCons(input, pos, q);
  }

  /** What get_unit leaves in the stream `ss` it began with, for an outcome `r`: a unit
      that ends with 0 holds every byte read, up to and including its `;`, or up to but
      not including the NUL that cut it short; one that ends with EOF holds every byte
      read, the last a 0xFF byte, or every byte of the input followed by the EOF marker. */
  predicate Appended(input: seq<int>, pos: nat, ss: seq<int>, r: (int, nat, seq<int>))
    requires pos <= r.1 <= |input|
  {
    && (r.0 == 0 ==>
        || (r.2 == ss + Signed(input[pos..r.1]) && |r.2| > 0 && r.2[|r.2| - 1] == Semi)
        || (pos < r.1 && r.2 == ss + Signed(input[pos..r.1 - 1]) && SignedChar(input[r.1 - 1]) == 0))
    && (r.0 == EOF ==>
        || (pos < r.1 && r.2 == ss + Signed(input[pos..r.1]) && SignedChar(input[r.1 - 1]) == EOF)
        || (r.1 == |input| && r.2 == ss + Signed(input[pos..r.1]) + [EOF]))
  }

  /** The outcome of the rest of the unit, read after one more byte, is the outcome from
      that byte on. */
  lemma AppendedStep(input: seq<int>, pos: nat, ss: seq<int>, r: (int, nat, seq<int>))
    requires pos < pos + 1 <= r.1 <= |input|
    requires Appended(input, pos + 1, ss + [SignedChar(input[pos])], r)
    ensures Appended(input, pos, ss, r)
  {
    if r.2 == ss + [SignedChar(input[pos])] + Signed(input[pos + 1..r.1]) {
      ReadMore(input, pos, r.1, ss, r.2);
    } else if r.2 == ss + [SignedChar(input[pos])] + Signed(input[pos + 1..r.1]) + [EOF] {
      var v := ss + [SignedChar(input[pos])] + Signed(input[pos + 1..r.1]);
      ReadMore(input, pos, r.1, ss, v);
    } else if r.0 == 0 {
      ReadMore(input, pos, r.1 - 1, ss, r.2);
    }
  }

  /** get_unit appends every byte it reads to the stream, as a signed char, except a NUL. */
  lemma {:induction false} GetUnitAppends(input: seq<int>, pos: nat, inComment: bool, ss: seq<int>)
    requires pos <= |input|
    ensures Appended(input, pos, ss, GetUnit(input, pos, inComment, ss))
    decreases |input| - pos
  {
    var r := GetUnit(input, pos, inComment, ss);
    if pos == |input| {
      assert input[pos..pos] == [];
    } else {
      var c := SignedChar(input[pos]);
      var inC := if c == Newline then false else if c == Hash then true else inComment;
      if c == 0 {
        assert input[pos..pos] == [];
      } else if (!inC && c == Semi) || c == EOF {
        assert input[pos..pos + 1] == [input[pos]];
      } else {
        GetUnitAppends(input, pos + 1, inC, ss + [c]);
        AppendedStep(input, pos, ss, r);
      }
    }
  }

  /** No `\n` follows position i of t. */
  predicate NoNewlineAfter(t: seq<int>, i: nat) {
    forall j :: i < j < |t| ==> t[j] != Newline
  }

  /** After the text t a comment is open: some `#` in t has no `\n` after it. */
  predicate OpenComment(t: seq<int>) {
    exists i :: 0 <= i < |t| && t[i] == Hash && NoNewlineAfter(t, i)
  }

  /** Every `;` of t lies inside a comment opened before it. */
  predicate Hidden(t: seq<int>) {
    forall k :: 0 <= k < |t| && t[k] == Semi ==> OpenComment(t[..k])
  }

  /** One more character: `\n` closes a comment, `#` opens one, anything else keeps the
      state; get_unit's flag follows exactly this rule. */
  lemma OpenSnoc(t: seq<int>, c: int)
    ensures OpenComment(t + [c]) == (if c == Newline then false else if c == Hash then true else OpenComment(t))
  {
    var u := t + [c];
    assert u[|t|] == c;
    if c == Newline {
      forall i | 0 <= i < |u| && u[i] == Hash
        ensures !NoNewlineAfter(u, i)
      {
        assert i < |t|;
      }
    } else if c == Hash {
      assert NoNewlineAfter(u, |t|);
    } else {
      if OpenComment(t) {
        var i :| 0 <= i < |t| && t[i] == Hash && NoNewlineAfter(t, i);
        assert u[i] == Hash;
        forall j | i < j < |u|
          ensures u[j] != Newline
        {
          if j < |t| {
            assert u[j] == t[j];
          }
        }
        assert NoNewlineAfter(u, i);
      }
      forall i | 0 <= i < |u| && u[i] == Hash && NoNewlineAfter(u, i)
        ensures OpenComment(t)
      {
        assert i < |t| && t[i] == Hash;
        forall j | i < j < |t|
          ensures t[j] != Newline
        {
          assert u[j] == t[j];
        }
        assert NoNewlineAfter(t, i);
      }
    }
  }

  lemma HiddenSnoc(t: seq<int>, c: int)
    requires Hidden(t) && (c == Semi ==> OpenComment(t))
    ensures Hidden(t + [c])
  {
    var u := t + [c];
    forall k | 0 <= k < |u| && u[k] == Semi
      ensures OpenComment(u[..k])
    {
      if k < |t| {
        assert u[..k] == t[..k] && t[k] == Semi;
      } else {
        assert u[..k] == t;
      }
    }
  }

  /** get_unit's comment rule for an outcome r. A unit that ends with 0 at a `;` (not at a
      NUL) ends with that `;` outside any comment, and every earlier `;` of the unit is
      inside one. A unit cut short by a NUL, and one that ends with EOF, holds only `;`s
      inside comments. */
  predicate CommentRule(input: seq<int>, r: (int, nat, seq<int>))
    requires r.1 <= |input| && (r.0 == 0 ==> 0 < r.1)
  {
    && (r.0 == 0 && SignedChar(input[r.1 - 1]) != 0 ==>
          |r.2| > 0 && r.2[|r.2| - 1] == Semi && !OpenComment(r.2[..|r.2| - 1]) && Hidden(r.2[..|r.2| - 1]))
    && (r.0 == 0 && SignedChar(input[r.1 - 1]) == 0 ==> Hidden(r.2))
    && (r.0 == EOF ==> Hidden(r.2))
  }

  lemma {:induction false} CommentRuleFrom(input: seq<int>, pos: nat, inComment: bool, ss: seq<int>)
    requires pos <= |input| && inComment == OpenComment(ss) && Hidden(ss)
    ensures CommentRule(input, GetUnit(input, pos, inComment, ss))
    decreases |input| - pos
  {
    if pos == |input| {
      HiddenSnoc(ss, EOF);
    } else {
      var c := SignedChar(input[pos]);
      if c != 0 {
        var inC := if c == Newline then false else if c == Hash then true else inComment;
        OpenSnoc(ss, c);
        if !inC && c == Semi {
          assert (ss + [c])[..|ss|] == ss;
        } else {
          HiddenSnoc(ss, c);
          if c != EOF {
            CommentRuleFrom(input, pos + 1, inC, ss + [c]);
          }
        }
      }
    }
  }

  /** `#` enters a comment, only `\n` leaves it, and only a `;` outside a comment ends a
      unit: for every input, in the unit get_unit reads from an empty stream. */
  lemma GetUnitCommentRule(input: seq<int>, pos: nat)
    requires pos <= |input|
    ensures CommentRule(input, GetUnit(input, pos, false, []))
  {
    CommentRuleFrom(input, pos, false, []);
  }

  /** A unit can end in a `;` that a comment hides when a NUL cuts it short. */
  lemma NulAfterHiddenSemicolon()
    ensures GetUnit([Hash, Semi, 0], 0, false, []) == (0, 3, [Hash, Semi])
  {
    var s := [Hash, Semi, 0];
    assert GetUnit(s, 1, true, [Hash]) == GetUnit(s, 2, true, [Hash] + [Semi]);
    assert GetUnit(s, 0, false, []) == GetUnit(s, 1, true, [] + [Hash]);
    assert [] + [Hash] == [Hash] && [Hash] + [Semi] == [Hash, Semi];
  }

  /** Where reading stops: just after the first byte from `pos` that reads as EOF, or at
      the end of the input. */
  function EofEnd(input: seq<int>, pos: nat): (r: nat)
    requires pos <= |input|
    ensures pos <= r <= |input|
    ensures forall k :: pos <= k < r - 1 ==> SignedChar(input[k]) != EOF
    ensures r < |input| ==> 0 < r && SignedChar(input[r - 1]) == EOF
    decreases |input| - pos
  {
    if pos == |input| then pos
    else if SignedChar(input[pos]) == EOF then pos + 1
    else EofEnd(input, pos + 1)
  }

  /** get_unit reads no byte that reads as EOF unless it returns EOF, and then it has
      stopped just after the first one or at the end of the input. */
  lemma {:induction false} GetUnitEnd(input: seq<int>, pos: nat, inComment: bool, ss: seq<int>)
    requires pos <= |input|
    ensures var r := GetUnit(input, pos, inComment, ss);
            (r.0 == 0 ==> EofEnd(input, r.1) == EofEnd(input, pos)) && (r.0 == EOF ==> r.1 == EofEnd(input, pos))
    decreases |input| - pos
  {
    if pos < |input| {
      var c := SignedChar(input[pos]);
      var inC := if c == Newline then false else if c == Hash then true else inComment;
      if c != 0 && !(!inC && c == Semi) && c != EOF {
        GetUnitEnd(input, pos + 1, inC, ss + [c]);
      }
    }
  }

  /** A `;` after `#` on the same line does not end the unit; the newline ends the
      comment, and the next `;` does. */
  lemma CommentHidesSemicolon()
    ensures GetUnit([Hash, Semi, Newline, Semi], 0, false, []) == (0, 4, [Hash, Semi, Newline, Semi])
  {
    var s := [Hash, Semi, Newline, Semi];
    assert GetUnit(s, 3, false, [Hash, Semi, Newline]) == (0, 4, [Hash, Semi, Newline] + [Semi]);
    assert GetUnit(s, 2, true, [Hash, Semi]) == GetUnit(s, 3, false, [Hash, Semi] + [Newline]);
    assert GetUnit(s, 1, true, [Hash]) == GetUnit(s, 2, true, [Hash] + [Semi]);
    assert GetUnit(s, 0, false, []) == GetUnit(s, 1, true, [] + [Hash]);
    assert [] + [Hash] == [Hash] && [Hash] + [Semi] == [Hash, Semi];
    assert [Hash, Semi] + [Newline] == [Hash, Semi, Newline];
    assert [Hash, Semi, Newline] + [Semi] == s;
  }

  /** Only `\n` leaves a comment: after `\r` a `;` is still hidden, and the input runs out. */
  lemma CarriageReturnKeepsComment()
    ensures GetUnit([Hash, '\r' as int, Semi], 0, false, []) == (EOF, 3, [Hash, '\r' as int, Semi, EOF])
  {
    var s := [Hash, '\r' as int, Semi];
    assert GetUnit(s, 3, true, s) == (EOF, 3, s + [EOF]);
    assert GetUnit(s, 2, true, [Hash, '\r' as int]) == GetUnit(s, 3, true, [Hash, '\r' as int] + [Semi]);
    assert GetUnit(s, 1, true, [Hash]) == GetUnit(s, 2, true, [Hash] + ['\r' as int]);
    assert GetUnit(s, 0, false, []) == GetUnit(s, 1, true, [] + [Hash]);
    assert [] + [Hash] == [Hash] && [Hash] + ['\r' as int] == [Hash, '\r' as int];
    assert [Hash, '\r' as int] + [Semi] == s && s + [EOF] == [Hash, '\r' as int, Semi, EOF];
  }

  /** A 0xFF byte is stored as the char -1, which equals EOF: the input ends there. */
  lemma ByteFFIsEof()
    ensures GetUnit(['x' as int, 0xFF, Semi], 0, false, []) == (EOF, 2, ['x' as int, EOF])
  {
    var s := ['x' as int, 0xFF, Semi];
    assert SignedChar(0xFF) == EOF;
    assert GetUnit(s, 1, false, ['x' as int]) == (EOF, 2, ['x' as int] + [EOF]);
    assert GetUnit(s, 0, false, []) == GetUnit(s, 1, false, [] + ['x' as int]);
    assert [] + ['x' as int] == ['x' as int] && ['x' as int] + [EOF] == ['x' as int, EOF];
  }

  /** A NUL ends the unit with 0 and is not appended. */
  lemma NulEndsUnit()
    ensures GetUnit(['x' as int, 0, Semi], 0, false, []) == (0, 2, ['x' as int])
  {
    var s := ['x' as int, 0, Semi];
    assert GetUnit(s, 1, false, ['x' as int]) == (0, 2, ['x' as int]);
    assert GetUnit(s, 0, false, []) == GetUnit(s, 1, false, [] + ['x' as int]);
    assert [] + ['x' as int] == ['x' as int];
  }

  /** Input that does not end in `;` leaves its last segment, with the EOF marker, in the
      stream; handle_unit never sees it. */
  lemma TrailingSegmentDropped()
    ensures Split(['1' as int, Semi, '2' as int], 0) == ([['1' as int, Semi]], ['2' as int, EOF])
  {
    var s := ['1' as int, Semi, '2' as int];
    assert GetUnit(s, 3, false, ['2' as int]) == (EOF, 3, ['2' as int] + [EOF]);
    assert GetUnit(s, 2, false, []) == GetUnit(s, 3, false, [] + ['2' as int]);
    assert GetUnit(s, 1, false, ['1' as int]) == (0, 2, ['1' as int] + [Semi]);
    assert GetUnit(s, 0, false, []) == GetUnit(s, 1, false, [] + ['1' as int]);
    assert [] + ['1' as int] == ['1' as int] && [] + ['2' as int] == ['2' as int];
    assert ['1' as int] + [Semi] == ['1' as int, Semi] && ['2' as int] + [EOF] == ['2' as int, EOF];
    assert GetUnit(s, 0, false, []) == (0, 2, ['1' as int, Semi]);
    assert GetUnit(s, 2, false, []) == (EOF, 3, ['2' as int, EOF]);
    assert Split(s, 2) == ([], ['2' as int, EOF]);
    assert Split(s, 0) == ([['1' as int, Semi]] + Split(s, 2).0, Split(s, 2).1);
    assert [['1' as int, Semi]] + [] == [['1' as int, Semi]];
  }

  /** No unit handed to handle_unit holds the EOF marker: get_unit returns EOF as soon as
      it appends one. */
  lemma {:induction false} UnitsHaveNoEof(input: seq<int>, pos: nat)
    requires pos <= |input|
    ensures forall k :: 0 <= k < |Split(input, pos).0| ==> EOF !in Split(input, pos).0[k]
    decreases |input| - pos
  {
    var (code, p1, u) := GetUnit(input, pos, false, []);
    if code != EOF {
      NoEofBeforeEnd(input, pos, false, []);
      UnitsHaveNoEof(input, p1);
      var (us, rest) := Split(input, p1);
      assert Split(input, pos).0 == [u] + us;
      forall k | 0 <= k < |[u] + us|
        ensures EOF !in ([u] + us)[k]
      {
        if k > 0 {
          assert ([u] + us)[k] == us[k - 1];
        }
      }
    }
  }

  /** A unit get_unit ends with 0 holds no EOF marker beyond what it started with. */
  lemma {:induction false} NoEofBeforeEnd(input: seq<int>, pos: nat, inComment: bool, ss: seq<int>)
    requires pos <= |input| && EOF !in ss
    ensures GetUnit(input, pos, inComment, ss).0 == 0 ==> EOF !in GetUnit(input, pos, inComment, ss).2
    decreases |input| - pos
  {
    var (c, p1) := ReadChar(input, pos);
    if c != 0 && c != EOF {
      var inC := if c == Newline then false else if c == Hash then true else inComment;
      NoEofBeforeEnd(input, p1, inC, ss + [c]);
    }
  }

  /** The unit splitter: standard input with the bytes read so far, the string stream, and
      the text of every unit handed to handle_unit. */
  class Splitter {
    const input: seq<int>
    var pos: nat
    var ss: seq<int>
    var handled: seq<seq<int>>

    predicate Valid()
      reads this
    {
      pos <= |input|
    }

    constructor (stdin: seq<int>)
      ensures Valid() && input == stdin && pos == 0 && ss == [] && handled == []
    {
      input := stdin;
      pos, ss, handled := 0, [], [];
    }

    /** `c = getchar()` */
    method GetChar() returns (c: int)
      requires Valid()
      modifies this`pos
      ensures Valid() && (c, pos) == ReadChar(input, old(pos))
    {
      if pos < |input| {
        c := SignedChar(input[pos]);
        pos := pos + 1;
      } else {
        c := EOF;
      }
    }

    /** get_unit */
    method GetUnitM() returns (code: int)
      requires Valid()
      modifies this`pos, this`ss
      ensures Valid() && (code, pos, ss) == GetUnit(input, old(pos), false, old(ss))
    {
      var inComment := false;
      while true
        invariant Valid()
        invariant GetUnit(input, pos, inComment, ss) == GetUnit(input, old(pos), false, old(ss))
        decreases |input| - pos
      {
        var c := GetChar();
        if c == 0 {
          return 0;
        }
        ss := ss + [c];
        if c == Hash {
          inComment := true;
        }
        if c == Newline {
          inComment := false;
        }
        if !inComment && c == Semi {
          return 0;
        }
        if c == EOF {
          return EOF;
        }
      }
    }

    /** The unit loop of `main`: each unit is handed to handle_unit, and the stream is
        cleared after it. */
    method RunUnits()
      requires Valid() && ss == []
      modifies this
      ensures Valid() && (handled, ss) == (old(handled) + Split(input, old(pos)).0, Split(input, old(pos)).1)
      ensures pos == EofEnd(input, old(pos))
    {
      while true
        invariant Valid() && ss == []
        invariant old(handled) + Split(input, old(pos)).0 == handled + Split(input, pos).0
        invariant Split(input, pos).1 == Split(input, old(pos)).1
        invariant EofEnd(input, pos) == EofEnd(input, old(pos))
        decreases |input| - pos
      {
        ghost var p0 := pos;
        GetUnitEnd(input, p0, false, []);
        var code := GetUnitM();
        if code == EOF {
          assert Split(input, p0) == ([], ss);
          assert handled + [] == handled;
          return;
        }
        assert Split(input, p0).0 == [ss] + Split(input, pos).0;
        handled := handled + [ss];
        ss := [];
      }
    }
  }
}
