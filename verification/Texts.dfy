/** Texts as bytes, and which of them are well-formed UTF-8. */
module Texts {

  newtype byte = x: int | 0 <= x < 256

  /** Go's strings are any bytes. */
  type Text = seq<byte>

  predicate Continuation(b: byte) {
    0x80 <= b <= 0xbf
  }

  /** Well-formed UTF-8, by the grammar in section 4 of RFC 3629. */
  predicate Utf8(s: Text) {
    if s == [] then true
    else if s[0] <= 0x7f then Utf8(s[1..])
    else if 0xc2 <= s[0] <= 0xdf then |s| >= 2 && Continuation(s[1]) && Utf8(s[2..])
    else if 0xe0 <= s[0] <= 0xef then
      && |s| >= 3 && Continuation(s[1]) && Continuation(s[2])
      && (s[0] == 0xe0 ==> 0xa0 <= s[1]) && (s[0] == 0xed ==> s[1] <= 0x9f)
      && Utf8(s[3..])
    else if 0xf0 <= s[0] <= 0xf4 then
      && |s| >= 4 && Continuation(s[1]) && Continuation(s[2]) && Continuation(s[3])
      && (s[0] == 0xf0 ==> 0x90 <= s[1]) && (s[0] == 0xf4 ==> s[1] <= 0x8f)
      && Utf8(s[4..])
    else false
  }

  // ------------------------------------------------------------------------------------------------------- reference

  /** A Unicode code point that is not a surrogate. */
  predicate Scalar(c: int) {
    0 <= c <= 0xd7ff || 0xe000 <= c <= 0x10ffff
  }

  /** The encoding of a scalar value, by section 3 of RFC 3629. */
  function Encode(c: int): Text
    requires Scalar(c)
  {
    if c <= 0x7f then [c as byte]
    else if c <= 0x7ff then [(0xc0 + c / 64) as byte, (0x80 + c % 64) as byte]
    else if c <= 0xffff then [(0xe0 + c / 4096) as byte, (0x80 + c / 64 % 64) as byte, (0x80 + c % 64) as byte]
    else [(0xf0 + c / 262144) as byte, (0x80 + c / 4096 % 64) as byte, (0x80 + c / 64 % 64) as byte,
          (0x80 + c % 64) as byte]
  }

  function EncodeAll(cs: seq<int>): Text
    requires forall i | 0 <= i < |cs| :: Scalar(cs[i])
  {
    if cs == [] then [] else Encode(cs[0]) + EncodeAll(cs[1..])
  }

  /** A sequence of bytes that the grammar takes for one character. */
  predicate OneCharacter(e: Text) {
    || (|e| == 1 && e[0] <= 0x7f)
    || (|e| == 2 && 0xc2 <= e[0] <= 0xdf && Continuation(e[1]))
    || (|e| == 3 && 0xe0 <= e[0] <= 0xef && Continuation(e[1]) && Continuation(e[2])
        && (e[0] == 0xe0 ==> 0xa0 <= e[1]) && (e[0] == 0xed ==> e[1] <= 0x9f))
    || (|e| == 4 && 0xf0 <= e[0] <= 0xf4 && Continuation(e[1]) && Continuation(e[2]) && Continuation(e[3])
        && (e[0] == 0xf0 ==> 0x90 <= e[1]) && (e[0] == 0xf4 ==> e[1] <= 0x8f))
  }

  lemma {:induction false} EncodesOneCharacter(c: int)
    requires Scalar(c)
    ensures OneCharacter(Encode(c))
  {
  }

  lemma {:induction false} CharacterThenRest(e: Text, rest: Text)
    requires OneCharacter(e)
    ensures Utf8(e + rest) <==> Utf8(rest)
  {
    assert (e + rest)[|e|..] == rest;
    assert forall i | 0 <= i < |e| :: (e + rest)[i] == e[i];
  }

  lemma {:induction false} EncodeIsUtf8(c: int, rest: Text)
    requires Scalar(c)
    ensures Utf8(Encode(c) + rest) <==> Utf8(rest)
  {
    hide Encode, OneCharacter;
    EncodesOneCharacter(c);
    CharacterThenRest(Encode(c), rest);
  }

  lemma {:induction false} EncodeAllIsUtf8(cs: seq<int>)
    requires forall i | 0 <= i < |cs| :: Scalar(cs[i])
    ensures Utf8(EncodeAll(cs))
  {
    if cs == [] {
    } else {
      EncodeAllIsUtf8(cs[1..]);
      EncodeIsUtf8(cs[0], EncodeAll(cs[1..]));
    }
  }

  lemma {:induction false} Digits(a: int, b: int, c: int, d: int)
    requires 0 <= a && 0 <= b < 64 && 0 <= c < 64 && 0 <= d < 64
    ensures var n := a * 262144 + b * 4096 + c * 64 + d;
            n / 262144 == a && n / 4096 % 64 == b && n / 64 % 64 == c && n % 64 == d
  {
    var two := a * 64 + b;
    var three := two * 64 + c;
    Digit(three, d);
    Digit(two, c);
    Digit(a, b);
    assert a * 262144 + b * 4096 + c * 64 + d == three * 64 + d;
    Shifts(three * 64 + d);
  }

  lemma {:induction false} Digit(a: int, b: int)
    requires 0 <= a && 0 <= b < 64
    ensures (a * 64 + b) / 64 == a && (a * 64 + b) % 64 == b
  {
  }

  lemma {:induction false} Shifts(n: int)
    requires 0 <= n
    ensures n / 4096 == n / 64 / 64 && n / 262144 == n / 64 / 64 / 64
  {
  }

  lemma {:induction false} Two(s: Text) returns (c: int)
    requires |s| >= 2 && 0xc2 <= s[0] <= 0xdf && Continuation(s[1])
    ensures 0x80 <= c <= 0x7ff && Encode(c) == s[..2]
  {
    c := (s[0] as int - 0xc0) * 64 + (s[1] as int - 0x80);
    Digits(0, 0, s[0] as int - 0xc0, s[1] as int - 0x80);
    assert c / 64 == s[0] as int - 0xc0;
  }

  lemma {:induction false} Three(s: Text) returns (c: int)
    requires |s| >= 3 && 0xe0 <= s[0] <= 0xef && Continuation(s[1]) && Continuation(s[2])
    requires (s[0] == 0xe0 ==> 0xa0 <= s[1]) && (s[0] == 0xed ==> s[1] <= 0x9f)
    ensures 0x800 <= c <= 0xffff && Scalar(c) && Encode(c) == s[..3]
  {
    c := (s[0] as int - 0xe0) * 4096 + (s[1] as int - 0x80) * 64 + (s[2] as int - 0x80);
    Digits(0, s[0] as int - 0xe0, s[1] as int - 0x80, s[2] as int - 0x80);
    assert c / 4096 == s[0] as int - 0xe0;
  }

  lemma {:induction false} Four(s: Text) returns (c: int)
    requires |s| >= 4 && 0xf0 <= s[0] <= 0xf4 && Continuation(s[1]) && Continuation(s[2]) && Continuation(s[3])
    requires (s[0] == 0xf0 ==> 0x90 <= s[1]) && (s[0] == 0xf4 ==> s[1] <= 0x8f)
    ensures 0x10000 <= c <= 0x10ffff && Encode(c) == s[..4]
  {
    c := (s[0] as int - 0xf0) * 262144 + (s[1] as int - 0x80) * 4096 + (s[2] as int - 0x80) * 64 + (s[3] as int - 0x80);
    Digits(s[0] as int - 0xf0, s[1] as int - 0x80, s[2] as int - 0x80, s[3] as int - 0x80);
  }

  /** The scalar value that a well-formed text begins with. */
  lemma {:induction false} FirstScalar(s: Text) returns (c: int)
    requires s != [] && Utf8(s)
    ensures Scalar(c) && |Encode(c)| <= |s| && s[..|Encode(c)|] == Encode(c) && Utf8(s[|Encode(c)|..])
  {
    if s[0] <= 0x7f {
      c := s[0] as int;
      assert Encode(c) == s[..1];
    } else {
      hide Encode;
      if s[0] <= 0xdf {
        c := Two(s);
      } else if s[0] <= 0xef {
        c := Three(s);
      } else {
        c := Four(s);
      }
    }
  }

  /** A text is well-formed exactly if it is the encoding of some scalar values. */
  lemma {:induction false} Utf8IsEncoding(s: Text)
    ensures Utf8(s) <==>
              exists cs: seq<int> :: (forall i | 0 <= i < |cs| :: Scalar(cs[i])) && EncodeAll(cs) == s
  {
    if Utf8(s) {
      var cs := Decode(s);
    }
    forall cs: seq<int> | (forall i | 0 <= i < |cs| :: Scalar(cs[i])) && EncodeAll(cs) == s
      ensures Utf8(s)
    {
      EncodeAllIsUtf8(cs);
    }
  }

  lemma {:induction false} Decode(s: Text) returns (cs: seq<int>)
    requires Utf8(s)
    ensures (forall i | 0 <= i < |cs| :: Scalar(cs[i])) && EncodeAll(cs) == s
  {
    if s == [] {
      cs := [];
    } else {
      var c := FirstScalar(s);
      var rest := Decode(s[|Encode(c)|..]);
      cs := [c] + rest;
      assert cs[1..] == rest;
    }
  }
}
