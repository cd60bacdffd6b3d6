/** The C character classification the lexers rely on (<ctype.h> in the "C" locale)
    and the conversion of a byte to a signed `char`. Characters are `int`s, EOF is -1. */
module Chars {

  const EOF: int := -1

  /** isspace: blank, \t, \n, \v, \f, \r. */
  predicate IsSpace(c: int) {
    c == ' ' as int || '\t' as int <= c <= '\r' as int
  }

  /** isdigit (and isnumber, which the lexers use on ASCII input). */
  predicate IsDigit(c: int) {
    '0' as int <= c <= '9' as int
  }

  predicate IsAlpha(c: int) {
    'a' as int <= c <= 'z' as int || 'A' as int <= c <= 'Z' as int
  }

  predicate IsAlnum(c: int) {
    IsAlpha(c) || IsDigit(c)
  }

  /** The characters a number literal is made of, in both lexers. */
  predicate IsNumberChar(c: int) {
    IsDigit(c) || c == '.' as int
  }

  predicate IsLineEnd(c: int) {
    c == '\n' as int || c == '\r' as int
  }

  /** The value a byte has once stored in a (signed, 8-bit) `char`. */
  function SignedChar(b: int): (c: int)
    ensures -128 <= c < 128
  {
    var m := b % 256;
    if m >= 128 then m - 256 else m
  }

  /** The conversion keeps the byte's value modulo 256. */
  lemma SignedCharCongruent(b: int)
    ensures (SignedChar(b) - b) % 256 == 0
  {
  }

  lemma SignedCharIdentity(c: int)
    requires -128 <= c < 128
    ensures SignedChar(c) == c
  {
  }

  predicate Ascii(s: seq<int>) {
    forall i :: 0 <= i < |s| ==> 0 <= s[i] < 128
  }

  lemma AsciiSnoc(s: seq<int>, c: int)
    requires Ascii(s) && 0 <= c < 128
    ensures Ascii(s + [c])
  {
    assert forall i :: 0 <= i < |s| ==> (s + [c])[i] == s[i];
  }

  /** Text made of ASCII characters, as a Dafny string. */
  function ToStr(s: seq<int>): (r: string)
    requires Ascii(s)
    ensures |r| == |s|
    ensures forall i :: 0 <= i < |s| ==> r[i] as int == s[i]
  {
    seq(|s|, i requires 0 <= i < |s| => s[i] as char)
  }

  /** The character codes of a string. */
  function Codes(s: string): (r: seq<int>)
    ensures |r| == |s|
    ensures forall i :: 0 <= i < |s| ==> r[i] == s[i] as int
  {
    seq(|s|, i requires 0 <= i < |s| => s[i] as int)
  }
}
