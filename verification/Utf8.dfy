/** UTF-8 (section 4 of RFC 3629) and the validity scan of
    `std::str::from_utf8`: how far a byte string is valid, and how many bytes
    of the first bad sequence it skips. */
module Utf8 {
  import opened Prelude

  /** A Unicode scalar value: what a `char` holds. */
  type Scalar = c: int | 0 <= c < 0xD800 || 0xE000 <= c <= 0x10FFFF

  /** A `String`, character by character. */
  type Str = seq<Scalar>

  predicate Continuation(b: byte) { 0x80 <= b < 0xC0 }

  function EncodeChar(c: Scalar): (t: Text)
    ensures 1 <= |t| <= 4
  {
    if c < 0x80 then [c]
    else if c < 0x800 then [0xC0 + c / 0x40, 0x80 + c % 0x40]
    else if c < 0x1_0000 then [0xE0 + c / 0x1000, 0x80 + c / 0x40 % 0x40, 0x80 + c % 0x40]
    else [0xF0 + c / 0x4_0000, 0x80 + c / 0x1000 % 0x40, 0x80 + c / 0x40 % 0x40, 0x80 + c % 0x40]
  }

  /** One ASCII byte, or a lead byte and continuation bytes. */
  lemma CharShape(c: Scalar)
    ensures c < 0x80 <==> EncodeChar(c) == [c]
    ensures EncodeChar(c)[0] < 0x80 || 0xC2 <= EncodeChar(c)[0] <= 0xF4
    ensures forall i :: 1 <= i < |EncodeChar(c)| ==> Continuation(EncodeChar(c)[i])
  {
  }

  /** `s.as_bytes()`. */
  function AsBytes(s: Str): Text {
    if s == [] then [] else EncodeChar(s[0]) + AsBytes(s[1..])
  }

  /** What stands at the front of a non-empty byte string: a character, a bad
      sequence of which `skip` bytes are passed over, or the start of a
      sequence that the input ends inside. */
  datatype Front = Char(c: Scalar, len: nat) | Bad(skip: nat) | Cut

  /** The range the second byte of a sequence must lie in. */
  predicate SecondOk(b0: byte, b1: byte) {
    if b0 == 0xE0 then 0xA0 <= b1 < 0xC0
    else if b0 == 0xED then 0x80 <= b1 < 0xA0
    else if b0 == 0xF0 then 0x90 <= b1 < 0xC0
    else if b0 == 0xF4 then 0x80 <= b1 < 0x90
    else Continuation(b1)
  }

  /** Sequence length announced by a first byte; 0 for a byte that starts none. */
  function Width(b: byte): nat {
    if b < 0x80 then 1
    else if 0xC2 <= b <= 0xDF then 2
    else if 0xE0 <= b <= 0xEF then 3
    else if 0xF0 <= b <= 0xF4 then 4
    else 0
  }

  /** Six more bits from a continuation byte. */
  function Join(high: int, b: byte): int { high * 0x40 + (b - 0x80) }

  function FrontOf(t: Text): (f: Front)
    requires t != []
    ensures f.Char? ==> f.len == Width(t[0]) && 1 <= f.len <= |t|
    ensures f.Bad? ==> 1 <= f.skip <= 3 && f.skip <= |t|
    ensures f.Cut? ==> |t| <= 3
  {
    var w := Width(t[0]);
    if w == 1 then Char(t[0], 1)
    else if w == 0 then Bad(1)
    else if |t| == 1 then Cut
    else if !SecondOk(t[0], t[1]) then Bad(1)
    else if w == 2 then Char(Join(t[0] - 0xC0, t[1]), 2)
    else if |t| == 2 then Cut
    else if !Continuation(t[2]) then Bad(2)
    else if w == 3 then Char(Join(Join(t[0] - 0xE0, t[1]), t[2]), 3)
    else if |t| == 3 then Cut
    else if !Continuation(t[3]) then Bad(3)
    else Char(Join(Join(Join(t[0] - 0xF0, t[1]), t[2]), t[3]), 4)
  }

  /** The bytes passed over as bad are never ASCII. */
  lemma BadBytesHigh(t: Text)
    requires t != []
    ensures FrontOf(t).Bad? ==> forall i :: 0 <= i < FrontOf(t).skip ==> t[i] >= 0x80
    ensures FrontOf(t).Cut? ==> forall i :: 0 <= i < |t| ==> t[i] >= 0x80
  {
  }

  lemma EncodeTwo(b0: byte, b1: byte)
    requires Width(b0) == 2 && SecondOk(b0, b1)
    ensures EncodeChar(Join(b0 - 0xC0, b1)) == [b0, b1]
  {
  }

  lemma EncodeThree(b0: byte, b1: byte, b2: byte)
    requires Width(b0) == 3 && SecondOk(b0, b1) && Continuation(b2)
    ensures 0 <= Join(Join(b0 - 0xE0, b1), b2) < 0xD800 || 0xE000 <= Join(Join(b0 - 0xE0, b1), b2) < 0x1_0000
    ensures EncodeChar(Join(Join(b0 - 0xE0, b1), b2)) == [b0, b1, b2]
  {
    var c := Join(Join(b0 - 0xE0, b1), b2);
    assert c / 0x40 == Join(b0 - 0xE0, b1);
    assert c / 0x1000 == b0 - 0xE0;
  }

  lemma EncodeFour(b0: byte, b1: byte, b2: byte, b3: byte)
    requires Width(b0) == 4 && SecondOk(b0, b1) && Continuation(b2) && Continuation(b3)
    ensures 0x1_0000 <= Join(Join(Join(b0 - 0xF0, b1), b2), b3) <= 0x10_FFFF
    ensures EncodeChar(Join(Join(Join(b0 - 0xF0, b1), b2), b3)) == [b0, b1, b2, b3]
  {
    var high, middle := Join(b0 - 0xF0, b1), Join(Join(b0 - 0xF0, b1), b2);
    JoinParts(b0 - 0xF0, b1);
    JoinParts(high, b2);
    JoinParts(middle, b3);
    Quotients(Join(middle, b3));
  }

  lemma JoinParts(high: int, b: byte)
    requires high >= 0 && Continuation(b)
    ensures Join(high, b) / 0x40 == high && Join(high, b) % 0x40 == b - 0x80
  {
  }

  lemma Quotients(c: int)
    requires c >= 0
    ensures c / 0x1000 == c / 0x40 / 0x40 && c / 0x4_0000 == c / 0x40 / 0x40 / 0x40
  {
  }

  /** A character read at the front encodes back to the bytes it was read from. */
  lemma EncodeFront(t: Text)
    requires t != [] && FrontOf(t).Char?
    ensures EncodeChar(FrontOf(t).c) == t[..FrontOf(t).len]
  {
    var w := Width(t[0]);
    if w == 2 {
      EncodeTwo(t[0], t[1]);
    } else if w == 3 {
      EncodeThree(t[0], t[1], t[2]);
    } else if w == 4 {
      EncodeFour(t[0], t[1], t[2], t[3]);
    }
  }

  /** `std::str::from_utf8`. */
  datatype Validity = Valid(s: Str) | Invalid(validUpTo: nat, errorLen: Option<nat>)

  function FromUtf8(t: Text): (v: Validity)
    ensures v.Invalid? ==> v.validUpTo < |t|
    ensures v.Invalid? && v.errorLen.Some? ==> 1 <= v.errorLen.value <= |t| - v.validUpTo
  {
    if t == [] then Valid([])
    else match FrontOf(t)
      case Bad(n) => Invalid(0, Some(n))
      case Cut => Invalid(0, None)
      case Char(c, len) =>
        match FromUtf8(t[len..])
        case Valid(s) => Valid([c] + s)
        case Invalid(k, e) => Invalid(len + k, e)
  }

  /** A valid byte string is the bytes of the string read from it. */
  lemma {:induction false} ValidBytes(t: Text)
    ensures FromUtf8(t).Valid? ==> AsBytes(FromUtf8(t).s) == t
    decreases |t|
  {
    if t != [] && FrontOf(t).Char? {
      var f := FrontOf(t);
      ValidBytes(t[f.len..]);
      if FromUtf8(t[f.len..]).Valid? { ValidCons(t, f.c, f.len, FromUtf8(t[f.len..]).s); }
    }
  }

  lemma ValidCons(t: Text, c: Scalar, len: nat, s: Str)
    requires t != [] && FrontOf(t) == Char(c, len) && AsBytes(s) == t[len..]
    ensures AsBytes([c] + s) == t
  {
    EncodeFront(t);
    TakeDrop(t, len);
    assert ([c] + s)[1..] == s;
  }

  /** Reading back an encoded character gives the character, whatever follows. */
  lemma FrontOfChar(c: Scalar, rest: Text)
    ensures FrontOf(EncodeChar(c) + rest) == Char(c, |EncodeChar(c)|)
  {
    var e := EncodeChar(c);
    var t := e + rest;
    if |e| == 2 {
      assert t[0] == e[0] && t[1] == e[1];
      assert Join(e[0] - 0xC0, e[1]) == c;
    } else if |e| == 3 {
      assert t[0] == e[0] && t[1] == e[1] && t[2] == e[2];
      ThreeBytes(c);
    } else if |e| == 4 {
      assert t[0] == e[0] && t[1] == e[1] && t[2] == e[2] && t[3] == e[3];
      FourBytes(c);
    }
  }

  lemma ThreeBytes(c: Scalar)
    requires 0x800 <= c < 0x1_0000
    ensures var e := EncodeChar(c);
            SecondOk(e[0], e[1]) && Join(Join(e[0] - 0xE0, e[1]), e[2]) == c
  {
    assert Join(EncodeChar(c)[0] - 0xE0, EncodeChar(c)[1]) == c / 0x40;
  }

  lemma FourBytes(c: Scalar)
    requires 0x1_0000 <= c
    ensures var e := EncodeChar(c);
            SecondOk(e[0], e[1]) && Join(Join(Join(e[0] - 0xF0, e[1]), e[2]), e[3]) == c
  {
    var e := EncodeChar(c);
    assert Join(e[0] - 0xF0, e[1]) == c / 0x1000;
    assert Join(c / 0x1000, e[2]) == c / 0x40;
  }

  /** A character at the front depends on its own bytes only. */
  lemma FrontOfPrefix(t: Text, k: nat)
    requires t != [] && FrontOf(t).Char? && FrontOf(t).len <= k <= |t|
    ensures FrontOf(t[..k]) == FrontOf(t)
  {
  }

  lemma FrontOfWhole(t: Text, k: nat)
    requires 0 < k <= |t| && FrontOf(t[..k]).Char?
    ensures FrontOf(t) == FrontOf(t[..k])
  {
  }

  /** `valid_up_to` guarantees a valid chunk. */
  lemma {:induction false} ValidChunk(t: Text)
    requires FromUtf8(t).Invalid?
    ensures FromUtf8(t[..FromUtf8(t).validUpTo]).Valid?
  {
    var f := FrontOf(t);
    if f.Char? {
      var rest := t[f.len..];
      var k := FromUtf8(t).validUpTo;
      ValidChunk(rest);
      FrontOfPrefix(t, k);
      assert t[..k][f.len..] == rest[..k - f.len];
    }
  }

  lemma {:induction false} AsBytesConcat(s: Str, u: Str)
    ensures AsBytes(s + u) == AsBytes(s) + AsBytes(u)
  {
    if s == [] {
      assert s + u == u;
    } else {
      AsBytesConcat(s[1..], u);
      ConcatHead(s, u);
      Assoc(EncodeChar(s[0]), AsBytes(s[1..]), AsBytes(u));
    }
  }

  /** A `String` read back from its bytes: distinct strings have distinct bytes. */
  lemma {:induction false} FromUtf8OfString(s: Str)
    ensures FromUtf8(AsBytes(s)) == Valid(s)
  {
    if s != [] {
      var t := AsBytes(s);
      FrontOfChar(s[0], AsBytes(s[1..]));
      assert t[|EncodeChar(s[0])|..] == AsBytes(s[1..]);
      FromUtf8OfString(s[1..]);
      assert [s[0]] + s[1..] == s;
    }
  }
}
