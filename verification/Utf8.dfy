/** The UTF-8 validator and the safe prefix (src/core/text.cpp), against the encoding of
    sections 3 and 4 of RFC 3629. */
module Utf8 {

  type Byte = n: int | 0 <= n < 256

  // ----- the encoding ------------------------------------------------------------------------------

  /** Unicode scalar values: code points without the surrogates. */
  type Scalar = n: int | 0 <= n < 0xD800 || 0xE000 <= n <= 0x10FFFF

  /** Six bits in every continuation byte, the rest in the first byte. */
  function Encode(c: Scalar): (r: seq<Byte>)
    ensures 1 <= |r| <= 4
  {
    var q1 := c / 0x40;
    var q2 := q1 / 0x40;
    var q3 := q2 / 0x40;
    if c < 0x80 then [c]
    else if c < 0x800 then [0xC0 + q1, 0x80 + c % 0x40]
    else if c < 0x1_0000 then [0xE0 + q2, 0x80 + q1 % 0x40, 0x80 + c % 0x40]
    else [0xF0 + q3, 0x80 + q2 % 0x40, 0x80 + q1 % 0x40, 0x80 + c % 0x40]
  }

  function EncodeAll(cs: seq<Scalar>): seq<Byte> {
    if cs == [] then [] else Encode(cs[0]) + EncodeAll(cs[1..])
  }

  ghost predicate WellFormed(text: seq<Byte>) {
    exists cs :: text == EncodeAll(cs)
  }

  // ----- the validator -----------------------------------------------------------------------------

  /** The source tests the two top bits. */
  predicate IsContinuation(b: Byte) {
    0x80 <= b < 0xC0
  }

  /** 4 stands for a byte that begins no sequence. */
  function ContinuationCount(lead: Byte): (n: nat)
    ensures n <= 4
  {
    if lead < 0x80 then 0
    else if 0xC2 <= lead <= 0xDF then 1
    else if 0xE0 <= lead <= 0xEF then 2
    else if 0xF0 <= lead <= 0xF4 then 3
    else 4
  }

  /** Ranges of the second byte that the number of continuation bytes does not settle. */
  predicate SecondByteFits(lead: Byte, second: Byte) {
    && (lead == 0xE0 ==> second >= 0xA0)
    && (lead == 0xED ==> second < 0xA0)
    && (lead == 0xF0 ==> second >= 0x90)
    && (lead == 0xF4 ==> second <= 0x8F)
  }

  /** Length of the sequence that `text` begins with, or 0. */
  function Width(text: seq<Byte>): (w: nat)
    requires text != []
    ensures w <= 4 && w <= |text|
  {
    var n := ContinuationCount(text[0]);
    if n == 4 || n >= |text| then 0
    else if exists k :: 1 <= k <= n && !IsContinuation(text[k]) then 0
    else if n >= 1 && !SecondByteFits(text[0], text[1]) then 0
    else n + 1
  }

  predicate Valid(text: seq<Byte>) {
    text == [] || (Width(text) > 0 && Valid(text[Width(text)..]))
  }

  // ----- the validator accepts exactly the encodings ------------------------------------------------

  /** The code point of a sequence of valid length. */
  function Decode(s: seq<Byte>): int
    requires 1 <= |s| <= 4
  {
    if |s| == 1 then s[0]
    else if |s| == 2 then Append(s[0] as int - 0xC0, s[1])
    else if |s| == 3 then Append(Append(s[0] as int - 0xE0, s[1]), s[2])
    else Append(Append(Append(s[0] as int - 0xF0, s[1]), s[2]), s[3])
  }

  function Append(n: int, continuation: Byte): int {
    n * 0x40 + (continuation as int - 0x80)
  }

  lemma Appended(n: int, continuation: Byte)
    requires IsContinuation(continuation)
    ensures Append(n, continuation) / 0x40 == n && Append(n, continuation) % 0x40 == continuation as int - 0x80
  {
  }

  predicate IsEncoded(s: seq<Byte>)
    requires 1 <= |s| <= 4
  {
    var c := Decode(s);
    (0 <= c < 0xD800 || 0xE000 <= c <= 0x10FFFF) && Encode(c) == s
  }

  lemma TwoBytes(a: Byte, b: Byte)
    requires 0xC2 <= a <= 0xDF && IsContinuation(b)
    ensures IsEncoded([a, b])
  {
    Appended(a as int - 0xC0, b);
  }

  lemma ThreeBytes(a: Byte, b: Byte, c: Byte)
    requires 0xE0 <= a <= 0xEF && IsContinuation(b) && IsContinuation(c) && SecondByteFits(a, b)
    ensures IsEncoded([a, b, c])
  {
    Appended(a as int - 0xE0, b);
    Appended(Append(a as int - 0xE0, b), c);
  }

  lemma FourBytes(a: Byte, b: Byte, c: Byte, d: Byte)
    requires 0xF0 <= a <= 0xF4 && IsContinuation(b) && IsContinuation(c) && IsContinuation(d) && SecondByteFits(a, b)
    ensures IsEncoded([a, b, c, d])
  {
    var n1 := a as int - 0xF0;
    var n2 := Append(n1, b);
    var n3 := Append(n2, c);
    Appended(n1, b);
    Appended(n2, c);
    Appended(n3, d);
    assert 0x10 <= n2 < 0x110;
    assert 0x400 <= n3 < 0x4400;
    assert Decode([a, b, c, d]) == Append(n3, d);
  }

  /** Every sequence that the validator lets pass is the encoding of one scalar value: none is
      overlong, a surrogate, or too large. */
  lemma HeadIsScalar(text: seq<Byte>)
    requires text != [] && Width(text) > 0
    ensures IsEncoded(text[..Width(text)])
  {
    var w := Width(text);
    var s := text[..w];
    assert forall k :: 1 <= k < w ==> IsContinuation(text[k]);
    if w == 2 {
      TwoBytes(s[0], s[1]);
      assert s == [s[0], s[1]];
    } else if w == 3 {
      ThreeBytes(s[0], s[1], s[2]);
      assert s == [s[0], s[1], s[2]];
    } else if w == 4 {
      FourBytes(s[0], s[1], s[2], s[3]);
      assert s == [s[0], s[1], s[2], s[3]];
    }
  }

  lemma EncodedHead(c: Scalar, rest: seq<Byte>)
    ensures Width(Encode(c) + rest) == |Encode(c)|
  {
    var e := Encode(c);
    assert forall k :: 0 <= k < |e| ==> (e + rest)[k] == e[k];
  }

  lemma ValidHead(c: Scalar, rest: seq<Byte>)
    ensures Valid(Encode(c) + rest) <==> Valid(rest)
  {
    EncodedHead(c, rest);
    assert (Encode(c) + rest)[|Encode(c)|..] == rest;
  }

  lemma {:induction false} EncodedIsValid(cs: seq<Scalar>)
    ensures Valid(EncodeAll(cs))
  {
    if cs != [] {
      EncodedIsValid(cs[1..]);
      ValidHead(cs[0], EncodeAll(cs[1..]));
    }
  }

  lemma {:induction false} ValidIsEncoded(text: seq<Byte>) returns (cs: seq<Scalar>)
    requires Valid(text)
    ensures text == EncodeAll(cs)
  {
    if text == [] {
      cs := [];
    } else {
      HeadIsScalar(text);
      var w := Width(text);
      var rest := ValidIsEncoded(text[w..]);
      cs := [Decode(text[..w])] + rest;
      assert cs[1..] == rest;
      assert text == text[..w] + text[w..];
    }
  }

  /** The accepted texts are exactly the encodings of sequences of scalar values. */
  lemma ValidExactly(text: seq<Byte>)
    ensures Valid(text) <==> WellFormed(text)
  {
    if Valid(text) {
      var cs := ValidIsEncoded(text);
    }
    if WellFormed(text) {
      var cs :| text == EncodeAll(cs);
      EncodedIsValid(cs);
    }
  }

  /** No other sequence of scalar values has the same encoding. */
  lemma {:induction false} EncodingIsInjective(a: seq<Scalar>, b: seq<Scalar>)
    requires EncodeAll(a) == EncodeAll(b)
    ensures a == b
  {
    if a != [] && b != [] {
      EncodedHead(a[0], EncodeAll(a[1..]));
      EncodedHead(b[0], EncodeAll(b[1..]));
      var text, w := EncodeAll(a), |Encode(a[0])|;
      assert text[..w] == Encode(a[0]) && text[..w] == Encode(b[0]);
      DecodeEncode(a[0]);
      DecodeEncode(b[0]);
      assert text[w..] == EncodeAll(a[1..]) && text[w..] == EncodeAll(b[1..]);
      EncodingIsInjective(a[1..], b[1..]);
      assert a == [a[0]] + a[1..] && b == [b[0]] + b[1..];
    }
  }

  lemma DecodeEncode(c: Scalar)
    ensures Decode(Encode(c)) == c
  {
  }

  datatype TextProblem = NoProblem | EmbeddedNul | TooLong | InvalidUtf8

  /** The body of the validator's loop: the length of the sequence at `index`, or 0. */
  method CheckSequence(text: seq<Byte>, index: nat) returns (width: nat)
    requires index < |text|
    ensures width == Width(text[index..])
  {
    width := 0;
    ghost var rest := text[index..];
    var lead := text[index];
    var continuations := ContinuationCount(lead);
    if continuations == 4 {
      return;
    }
    if index + continuations >= |text| {
      return;
    }
    for offset := 1 to continuations + 1
      invariant forall k :: 1 <= k < offset ==> IsContinuation(rest[k])
    {
      if !IsContinuation(text[index + offset]) {
        assert !IsContinuation(rest[offset]);
        return;
      }
    }
    if continuations == 1 && lead < 0xC2 {
      return;
    }
    if continuations == 2 {
      var second := text[index + 1];
      if lead == 0xE0 && second < 0xA0 {
        return;
      }
      if lead == 0xED && second >= 0xA0 {
        return;
      }
    }
    if continuations == 3 {
      var second := text[index + 1];
      if lead == 0xF0 && second < 0x90 {
        return;
      }
      if lead == 0xF4 && second > 0x8F {
        return;
      }
    }
    width := continuations + 1;
  }

  method ValidateUtf8(text: seq<Byte>) returns (problem: TextProblem)
    ensures problem == if Valid(text) then NoProblem else InvalidUtf8
    ensures problem == NoProblem <==> WellFormed(text)
  {
    var index := 0;
    while index < |text|
      invariant 0 <= index <= |text|
      invariant Valid(text) <==> Valid(text[index..])
    {
      var width := CheckSequence(text, index);
      if width == 0 {
        ValidExactly(text);
        return InvalidUtf8;
      }
      assert text[index..][width..] == text[index + width..];
      index := index + width;
    }
    ValidExactly(text);
    return NoProblem;
  }

  /** `validate_text`: the problems are reported in this order; a bound of 0 means none. */
  method ValidateText(text: seq<Byte>, maxBytes: nat) returns (problem: TextProblem)
    ensures problem == EmbeddedNul <==> 0 in text
    ensures problem == TooLong <==> 0 !in text && 0 < maxBytes < |text|
    ensures problem == NoProblem <==> 0 !in text && (maxBytes == 0 || |text| <= maxBytes) && WellFormed(text)
  {
    if 0 in text {
      return EmbeddedNul;
    }
    if maxBytes != 0 && |text| > maxBytes {
      return TooLong;
    }
    problem := ValidateUtf8(text);
  }

  // ----- the safe prefix ----------------------------------------------------------------------------

  /** A place between two sequences of a valid text. */
  predicate IsBoundary(text: seq<Byte>, k: nat)
    requires k <= |text|
  {
    k == |text| || !IsContinuation(text[k])
  }

  lemma HeadBytes(c: Scalar, k: nat)
    requires k < |Encode(c)|
    ensures IsContinuation(Encode(c)[k]) <==> k > 0
    ensures ContinuationCount(Encode(c)[0]) == |Encode(c)| - 1
  {
  }

  lemma CutHead(c: Scalar, rest: seq<Byte>, k: nat)
    requires 0 < k < |Encode(c)|
    ensures !Valid((Encode(c) + rest)[..k]) && !IsBoundary(Encode(c) + rest, k)
  {
    HeadBytes(c, k);
    var cut := (Encode(c) + rest)[..k];
    assert cut[0] == Encode(c)[0];
  }

  /** A prefix of a valid text is valid exactly if the cut is not before a continuation byte. */
  lemma {:induction false} BoundariesAreValidCuts(cs: seq<Scalar>, k: nat)
    requires k <= |EncodeAll(cs)|
    ensures Valid(EncodeAll(cs)[..k]) <==> IsBoundary(EncodeAll(cs), k)
  {
    if cs != [] {
      var text, e, rest := EncodeAll(cs), Encode(cs[0]), EncodeAll(cs[1..]);
      HeadBytes(cs[0], 0);
      if 0 < k < |e| {
        CutHead(cs[0], rest, k);
      } else if k >= |e| {
        BoundariesAreValidCuts(cs[1..], k - |e|);
        assert text[..k] == e + rest[..k - |e|];
        ValidHead(cs[0], rest[..k - |e|]);
      }
    }
  }

  /** On well-formed text this is the longest well-formed prefix of at most `maxBytes` bytes. */
  method Utf8SafePrefix(text: seq<Byte>, maxBytes: nat) returns (prefix: seq<Byte>)
    ensures |prefix| <= maxBytes && prefix <= text
    ensures WellFormed(text) ==> WellFormed(prefix)
    ensures WellFormed(text) ==> forall k: nat :: |prefix| < k <= maxBytes && k <= |text| ==> !WellFormed(text[..k])
  {
    if |text| <= maxBytes {
      return text;
    }
    var length := maxBytes;
    while length > 0 && IsContinuation(text[length])
      invariant 0 <= length <= maxBytes
      invariant forall k :: length < k <= maxBytes ==> IsContinuation(text[k])
    {
      length := length - 1;
    }
    if WellFormed(text) {
      ValidCuts(text);
    }
    return text[..length];
  }

  lemma ValidCuts(text: seq<Byte>)
    requires WellFormed(text)
    ensures forall k: nat :: k <= |text| ==> (WellFormed(text[..k]) <==> IsBoundary(text, k) || k == 0)
  {
    var cs :| text == EncodeAll(cs);
    forall k: nat | k <= |text|
      ensures WellFormed(text[..k]) <==> IsBoundary(text, k) || k == 0
    {
      BoundariesAreValidCuts(cs, k);
      ValidExactly(text[..k]);
    }
  }

  // ----- examples of RFC 3629 ------------------------------------------------------------------------

  /** The ends of the ranges in the table of section 3 of RFC 3629. */
  lemma RangeEnds()
    ensures Encode(0x7F) == [0x7F] && Encode(0x80) == [0xC2, 0x80]
    ensures Encode(0x7FF) == [0xDF, 0xBF] && Encode(0x800) == [0xE0, 0xA0, 0x80]
    ensures Encode(0xD7FF) == [0xED, 0x9F, 0xBF] && Encode(0xE000) == [0xEE, 0x80, 0x80]
    ensures Encode(0xFFFF) == [0xEF, 0xBF, 0xBF] && Encode(0x1_0000) == [0xF0, 0x90, 0x80, 0x80]
    ensures Encode(0x10_FFFF) == [0xF4, 0x8F, 0xBF, 0xBF]
  {
  }

  /** Overlong forms, surrogates and code points above U+10FFFF are no text, with whatever bytes
      they end (sections 3 and 10 of RFC 3629). */
  lemma ForbiddenForms(a: Byte, b: Byte, c: Byte, rest: seq<Byte>)
    ensures a == 0xC0 || a == 0xC1 || a > 0xF4 || 0x80 <= a < 0xC0 ==> !Valid([a] + rest)
    ensures b < 0xA0 ==> !Valid([0xE0, b, c] + rest)
    ensures b >= 0xA0 ==> !Valid([0xED, b, c] + rest)
    ensures b < 0x90 ==> !Valid([0xF0, b, c] + rest)
    ensures b > 0x8F ==> !Valid([0xF4, b, c] + rest)
  {
    assert ([0xE0, b, c] + rest)[1] == b && ([0xED, b, c] + rest)[1] == b;
    assert ([0xF0, b, c] + rest)[1] == b && ([0xF4, b, c] + rest)[1] == b;
  }

  /** The first example of section 7 of RFC 3629: A, not identical to, alpha, full stop. */
  lemma RfcExample()
    ensures EncodeAll([0x41, 0x2262, 0x391, 0x2E]) == [0x41, 0xE2, 0x89, 0xA2, 0xCE, 0x91, 0x2E]
    ensures Valid([0x41, 0xE2, 0x89, 0xA2, 0xCE, 0x91, 0x2E])
  {
    var cs: seq<Scalar> := [0x41, 0x2262, 0x391, 0x2E];
    assert cs[1..] == [0x2262, 0x391, 0x2E] && cs[1..][1..] == [0x391, 0x2E];
    assert cs[1..][1..][1..] == [0x2E] && cs[1..][1..][1..][1..] == [];
    assert EncodeAll([0x2E]) == [0x2E];
    assert EncodeAll([0x391, 0x2E]) == [0xCE, 0x91, 0x2E];
    assert EncodeAll([0x2262, 0x391, 0x2E]) == [0xE2, 0x89, 0xA2, 0xCE, 0x91, 0x2E];
    EncodedIsValid(cs);
  }
}
