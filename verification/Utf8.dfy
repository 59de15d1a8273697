/** Byte strings, and those among them that are the UTF-8 form of some text. */
module Utf8 {
  import opened Wrappers

  predicate Cont(s: Bytes, i: nat, lo: int, hi: int) {
    i < |s| && lo <= s[i] <= hi
  }

  /** Well-formed byte sequences of UTF-8 (section 4 of RFC 3629): those `decode()` accepts. */
  predicate ValidUtf8(s: Bytes) {
    if s == [] then true
    else if s[0] < 0x80 then ValidUtf8(s[1..])
    else if 0xC2 <= s[0] <= 0xDF then Cont(s, 1, 0x80, 0xBF) && ValidUtf8(s[2..])
    else if 0xE0 <= s[0] <= 0xEF then
      && Cont(s, 1, if s[0] == 0xE0 then 0xA0 else 0x80, if s[0] == 0xED then 0x9F else 0xBF)
      && Cont(s, 2, 0x80, 0xBF) && ValidUtf8(s[3..])
    else
      && 0xF0 <= s[0] <= 0xF4
      && Cont(s, 1, if s[0] == 0xF0 then 0x90 else 0x80, if s[0] == 0xF4 then 0x8F else 0xBF)
      && Cont(s, 2, 0x80, 0xBF) && Cont(s, 3, 0x80, 0xBF) && ValidUtf8(s[4..])
  }

  lemma {:induction false} ValidConcat(a: Bytes, b: Bytes)
    requires ValidUtf8(a) && ValidUtf8(b)
    ensures ValidUtf8(a + b)
  {
    if a == [] {
      assert a + b == b;
    } else {
      var n := if a[0] < 0x80 then 1 else if a[0] <= 0xDF then 2 else if a[0] <= 0xEF then 3 else 4;
      assert (a + b)[n..] == a[n..] + b;
      ValidConcat(a[n..], b);
    }
  }

  lemma {:induction false} AsciiValid(s: Bytes)
    requires forall i :: 0 <= i < |s| ==> s[i] < 0x80
    ensures ValidUtf8(s)
  {
    if s != [] {
      AsciiValid(s[1..]);
    }
  }

  // ----- The texts behind the bytes -----

  /** A code point that is not a surrogate. */
  predicate Scalar(c: int) {
    0 <= c < 0xD800 || 0xE000 <= c < 0x110000
  }

  /** The bytes of one character (section 3 of RFC 3629). */
  function Encoded(c: int): Bytes
    requires Scalar(c)
  {
    if c < 0x80 then [c]
    else if c < 0x800 then [0xC0 + c / 0x40, 0x80 + c % 0x40]
    else if c < 0x10000 then [0xE0 + c / 0x1000, 0x80 + c / 0x40 % 0x40, 0x80 + c % 0x40]
    else [0xF0 + c / 0x40000, 0x80 + c / 0x1000 % 0x40, 0x80 + c / 0x40 % 0x40, 0x80 + c % 0x40]
  }

  predicate Scalars(cs: seq<int>) {
    forall i :: 0 <= i < |cs| ==> Scalar(cs[i])
  }

  function EncodedText(cs: seq<int>): Bytes
    requires Scalars(cs)
  {
    if cs == [] then [] else Encoded(cs[0]) + EncodedText(cs[1..])
  }

  lemma OneValid(c: int)
    requires Scalar(c)
    ensures ValidUtf8(Encoded(c))
  {
    var s := Encoded(c);
    assert s[|s|..] == [];
    if 0x800 <= c < 0x10000 {
      assert c / 0x40 % 0x40 == c / 0x40 - 0x40 * (c / 0x1000);
    }
  }

  lemma {:induction false} TextValid(cs: seq<int>)
    requires Scalars(cs)
    ensures ValidUtf8(EncodedText(cs))
  {
    hide Encoded;
    if cs != [] {
      OneValid(cs[0]);
      TextValid(cs[1..]);
      ValidConcat(Encoded(cs[0]), EncodedText(cs[1..]));
    }
  }

  /** The first character of well-formed bytes. */
  lemma FirstCharacter(s: Bytes) returns (c: int, n: nat)
    requires ValidUtf8(s) && s != []
    ensures Scalar(c) && 1 <= n <= |s| && Encoded(c) == s[..n] && ValidUtf8(s[n..])
  {
    if s[0] < 0x80 {
      c, n := s[0], 1;
    } else if s[0] <= 0xDF {
      var x: int, y: int := s[0] - 0xC0, s[1] - 0x80;
      c, n := x * 0x40 + y, 2;
      assert c / 0x40 == x && c % 0x40 == y;
    } else if s[0] <= 0xEF {
      c, n := FirstOfThree(s);
    } else {
      c, n := FirstOfFour(s);
    }
  }

  lemma FirstOfThree(s: Bytes) returns (c: int, n: nat)
    requires ValidUtf8(s) && s != [] && 0xE0 <= s[0] <= 0xEF
    ensures Scalar(c) && n == 3 <= |s| && Encoded(c) == s[..n] && ValidUtf8(s[n..])
  {
    var x: int, y: int, z: int := s[0] - 0xE0, s[1] - 0x80, s[2] - 0x80;
    c, n := x * 0x1000 + y * 0x40 + z, 3;
    assert c / 0x1000 == x && c / 0x40 == x * 0x40 + y && c / 0x40 % 0x40 == y && c % 0x40 == z;
  }

  lemma FirstOfFour(s: Bytes) returns (c: int, n: nat)
    requires ValidUtf8(s) && s != [] && 0xF0 <= s[0]
    ensures Scalar(c) && n == 4 <= |s| && Encoded(c) == s[..n] && ValidUtf8(s[n..])
  {
    var w: int, x: int, y: int, z: int := s[0] - 0xF0, s[1] - 0x80, s[2] - 0x80, s[3] - 0x80;
    c, n := w * 0x40000 + x * 0x1000 + y * 0x40 + z, 4;
    assert c / 0x40000 == w && c / 0x1000 == w * 0x40 + x && c / 0x40 == w * 0x1000 + x * 0x40 + y;
    assert c / 0x1000 % 0x40 == x && c / 0x40 % 0x40 == y && c % 0x40 == z;
  }

  lemma {:induction false} Decoded(s: Bytes) returns (cs: seq<int>)
    requires ValidUtf8(s)
    ensures Scalars(cs) && EncodedText(cs) == s
  {
    hide Encoded, ValidUtf8, Scalar;
    if s == [] {
      cs := [];
    } else {
      var c, n := FirstCharacter(s);
      var rest := Decoded(s[n..]);
      cs := [c] + rest;
      assert cs[1..] == rest && s == s[..n] + s[n..];
    }
  }

  /** The well-formed byte strings are exactly the encodings of texts. */
  lemma {:induction false} ValidExactly(s: Bytes)
    ensures ValidUtf8(s) <==> exists cs: seq<int> :: Scalars(cs) && EncodedText(cs) == s
  {
    if ValidUtf8(s) {
      var cs := Decoded(s);
      assert Scalars(cs) && EncodedText(cs) == s;
    }
    if cs: seq<int> :| Scalars(cs) && EncodedText(cs) == s {
      TextValid(cs);
    }
  }
}
