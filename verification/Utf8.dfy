/** The byte-wise tests that stand for tests on characters, against the encoding of text
    as code points. */
module Utf8 {
  import opened Text
  import opened Forms
  import opened TransferPolicy

  type CodePoint = n: nat | n < 0x110000

  function Encode(c: CodePoint): (t: Text)
    ensures 1 <= |t| <= 4
  {
    if c < 0x80 then [c]
    else if c < 0x800 then [0xC0 + c / 64, 0x80 + c % 64]
    else if c < 0x10000 then [0xE0 + c / 4096, 0x80 + c / 64 % 64, 0x80 + c % 64]
    else [0xF0 + c / 262144, 0x80 + c / 4096 % 64, 0x80 + c / 64 % 64, 0x80 + c % 64]
  }

  function EncodeAll(cs: seq<CodePoint>): Text { if cs == [] then [] else Encode(cs[0]) + EncodeAll(cs[1..]) }

  /** The characters with the White_Space property. */
  predicate IsWhiteSpace(c: CodePoint) {
    || 9 <= c <= 13 || c == 0x20 || c == 0x85 || c == 0xA0 || c == 0x1680 || 0x2000 <= c <= 0x200A
    || c == 0x2028 || c == 0x2029 || c == 0x202F || c == 0x205F || c == 0x3000
  }

  /** The characters of the general category Cc. */
  predicate IsControl(c: CodePoint) { c < 0x20 || 0x7F <= c <= 0x9F }

  lemma BlankAfterOne(a: byte, rest: Text)
    requires a < 0x80
    ensures IsBlank([a] + rest) <==> (9 <= a <= 13 || a == 0x20) && IsBlank(rest)
  {
    assert ([a] + rest)[1..] == rest;
  }

  lemma BlankAfterTwo(a: byte, b: byte, rest: Text)
    requires 0xC0 <= a < 0xE0
    ensures IsBlank([a, b] + rest) <==> a == 0xC2 && (b == 0x85 || b == 0xA0) && IsBlank(rest)
  {
    assert ([a, b] + rest)[2..] == rest;
  }

  /** Three bytes that encode a white space character. */
  predicate WhiteTriple(a: byte, b: byte, c: byte) {
    || (a == 0xE1 && b == 0x9A && c == 0x80) || (a == 0xE2 && b == 0x81 && c == 0x9F)
    || (a == 0xE3 && b == 0x80 && c == 0x80)
    || (a == 0xE2 && b == 0x80 && (0x80 <= c <= 0x8A || c == 0xA8 || c == 0xA9 || c == 0xAF))
  }

  lemma BlankAfterThree(a: byte, b: byte, c: byte, rest: Text)
    requires 0xE0 <= a < 0xF0
    ensures IsBlank([a, b, c] + rest) <==> WhiteTriple(a, b, c) && IsBlank(rest)
  {
    var t := [a, b, c] + rest;
    assert t[3..] == rest && t[..3] == [a, b, c] && t[..2] == [a, b];
    assert t[0] == a && t[1] == b && t[2] == c;
  }

  lemma WhiteTripleExactly(c: CodePoint)
    requires 0x800 <= c < 0x10000
    ensures WhiteTriple(0xE0 + c / 4096, 0x80 + c / 64 % 64, 0x80 + c % 64) <==> IsWhiteSpace(c)
  {
  }

  lemma BlankStep(c: CodePoint, rest: Text)
    ensures IsBlank(Encode(c) + rest) <==> IsWhiteSpace(c) && IsBlank(rest)
  {
    if c < 0x80 {
      BlankAfterOne(c, rest);
    } else if c < 0x800 {
      BlankAfterTwo(0xC0 + c / 64, 0x80 + c % 64, rest);
    } else if c < 0x10000 {
      BlankAfterThree(0xE0 + c / 4096, 0x80 + c / 64 % 64, 0x80 + c % 64, rest);
      WhiteTripleExactly(c);
    } else {
      assert (Encode(c) + rest)[0] >= 0xF0;
    }
  }

  /** The test for blank text accepts exactly white space. */
  lemma {:induction false} BlankExactly(cs: seq<CodePoint>)
    ensures IsBlank(EncodeAll(cs)) <==> forall i :: 0 <= i < |cs| ==> IsWhiteSpace(cs[i])
  {
    if cs == [] {
    } else {
      BlankStep(cs[0], EncodeAll(cs[1..]));
      BlankExactly(cs[1..]);
      assert forall i :: 1 <= i < |cs| ==> cs[i] == cs[1..][i - 1];
    }
  }

  lemma ControlInEncode(c: CodePoint, rest: Text)
    ensures (exists i :: 0 <= i < |Encode(c)| && ControlAt(Encode(c) + rest, i)) <==> IsControl(c)
  {
    var t := Encode(c) + rest;
    assert forall i :: 0 <= i < |Encode(c)| ==> t[i] == Encode(c)[i];
    assert ControlAt(t, 0) <==> IsControl(c);
    assert forall i :: 1 <= i < |Encode(c)| ==> !ControlAt(t, i);
  }

  lemma ControlStep(c: CodePoint, rest: Text)
    ensures HasControl(Encode(c) + rest) <==> IsControl(c) || HasControl(rest)
  {
    var t, n := Encode(c) + rest, |Encode(c)|;
    ControlInEncode(c, rest);
    assert forall i :: 0 <= i < |rest| ==> t[n + i] == rest[i];
    assert forall i :: 0 <= i < |rest| ==> (ControlAt(t, n + i) <==> ControlAt(rest, i));
    if i :| n <= i < |t| && ControlAt(t, i) {
      assert ControlAt(rest, i - n);
    }
  }

  /** The test for control characters finds exactly those of category Cc. */
  lemma {:induction false} ControlExactly(cs: seq<CodePoint>)
    ensures HasControl(EncodeAll(cs)) <==> exists i :: 0 <= i < |cs| && IsControl(cs[i])
  {
    if cs == [] {
    } else {
      ControlStep(cs[0], EncodeAll(cs[1..]));
      ControlExactly(cs[1..]);
      assert forall i :: 1 <= i < |cs| ==> cs[i] == cs[1..][i - 1];
    }
  }

  lemma LengthAfter(b: byte, rest: Text)
    ensures CharLength([b] + rest) == (if 0x80 <= b < 0xC0 then 0 else 1) + CharLength(rest)
  {
    assert ([b] + rest)[1..] == rest;
  }

  predicate Continuation(b: byte) { 0x80 <= b < 0xC0 }

  lemma LengthAfterTwo(a: byte, b: byte, rest: Text)
    requires !Continuation(a) && Continuation(b)
    ensures CharLength([a, b] + rest) == 1 + CharLength(rest)
  {
    LengthAfter(b, rest);
    LengthAfter(a, [b] + rest);
    assert [a, b] + rest == [a] + ([b] + rest);
  }

  lemma LengthAfterThree(a: byte, b: byte, c: byte, rest: Text)
    requires !Continuation(a) && Continuation(b) && Continuation(c)
    ensures CharLength([a, b, c] + rest) == 1 + CharLength(rest)
  {
    LengthAfter(c, rest);
    LengthAfterTwo(a, b, [c] + rest);
    assert [a, b, c] + rest == [a, b] + ([c] + rest);
  }

  lemma LengthAfterFour(a: byte, b: byte, c: byte, d: byte, rest: Text)
    requires !Continuation(a) && Continuation(b) && Continuation(c) && Continuation(d)
    ensures CharLength([a, b, c, d] + rest) == 1 + CharLength(rest)
  {
    LengthAfter(d, rest);
    LengthAfterThree(a, b, c, [d] + rest);
    assert [a, b, c, d] + rest == [a, b, c] + ([d] + rest);
  }

  lemma LengthStep(c: CodePoint, rest: Text)
    ensures CharLength(Encode(c) + rest) == 1 + CharLength(rest)
  {
    if c < 0x80 {
      LengthAfter(c, rest);
    } else if c < 0x800 {
      LengthAfterTwo(0xC0 + c / 64, 0x80 + c % 64, rest);
    } else if c < 0x10000 {
      LengthAfterThree(0xE0 + c / 4096, 0x80 + c / 64 % 64, 0x80 + c % 64, rest);
    } else {
      LengthAfterFour(0xF0 + c / 262144, 0x80 + c / 4096 % 64, 0x80 + c / 64 % 64, 0x80 + c % 64, rest);
    }
  }

  /** Counting the bytes that begin a character counts characters. */
  lemma {:induction false} CharLengthExactly(cs: seq<CodePoint>)
    ensures CharLength(EncodeAll(cs)) == |cs|
  {
    if cs == [] {
    } else {
      LengthStep(cs[0], EncodeAll(cs[1..]));
      CharLengthExactly(cs[1..]);
    }
  }
}
