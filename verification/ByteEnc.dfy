/** Lossless escaping of byte strings as `String`s (src/byteenc.rs). */
module ByteEnc {
  import opened Prelude
  import opened Utf8

  const ESCAPE_BASE := 0x10_FE00

  function EscapeChar(b: byte): Scalar { ESCAPE_BASE + b }

  function UnescapeChar(c: Scalar): Option<byte> {
    if ESCAPE_BASE <= c <= ESCAPE_BASE + 0xFF then Some(c - ESCAPE_BASE) else None
  }

  function EscapeAll(t: Text): (s: Str)
    ensures |s| == |t|
  {
    seq(|t|, i requires 0 <= i < |t| => EscapeChar(t[i]))
  }

  predicate HasEscapes(s: Str) { exists i :: 0 <= i < |s| && UnescapeChar(s[i]).Some? }

  // ----- what the two directions compute -----

  /** One character of valid input. */
  function EncodeValid(c: Scalar): Str {
    if UnescapeChar(c).Some? then EscapeAll(EncodeChar(c)) else [c]
  }

  function EncodeValids(s: Str): Str {
    if s == [] then [] else EncodeValid(s[0]) + EncodeValids(s[1..])
  }

  /** The encoded form of `t`, one front at a time. */
  function Encoded(t: Text): Str
    decreases |t|
  {
    if t == [] then []
    else match FrontOf(t)
      case Char(c, len) => EncodeValid(c) + Encoded(t[len..])
      case Bad(n) => EscapeAll(t[..n]) + Encoded(t[n..])
      case Cut => EscapeAll(t)
  }

  function DecodedChar(c: Scalar): (t: Text)
    ensures t != []
  {
    match UnescapeChar(c) case Some(b) => [b] case None => EncodeChar(c)
  }

  function Decoded(s: Str): Text {
    if s == [] then [] else DecodedChar(s[0]) + Decoded(s[1..])
  }

  // ----- the loops of the source -----

  /** `contains_escape_range_char`: the byte 0xF4 must occur before the
      characters are looked at. */
  method ContainsEscapeRangeChar(s: Str) returns (r: bool)
    ensures r == HasEscapes(s)
  {
    if !MayContainEscapes(s) {
      NoLeadNoEscapes(s);
      return false;
    }
    for i := 0 to |s|
      invariant forall k :: 0 <= k < i ==> UnescapeChar(s[k]).None?
    {
      if UnescapeChar(s[i]).Some? { return true; }
    }
    return false;
  }

  predicate MayContainEscapes(s: Str) { 0xF4 in AsBytes(s) }

  lemma {:induction false} NoLeadNoEscapes(s: Str)
    requires !MayContainEscapes(s)
    ensures !HasEscapes(s)
  {
    if s != [] {
      assert EncodeChar(s[0])[0] in AsBytes(s);
      assert forall b :: b in AsBytes(s[1..]) ==> b in AsBytes(s);
      NoLeadNoEscapes(s[1..]);
      assert forall i :: 1 <= i < |s| ==> s[i] == s[1..][i - 1];
    }
  }

  method EncodeBytes(t: Text) returns (s: Str)
    ensures s == Encoded(t)
  {
    match FromUtf8(t) {
      case Valid(v) =>
        var escapes := ContainsEscapeRangeChar(v);
        if !escapes {
          EncodedOfValid(t);
          EncodeValidsPlain(v);
          return v;
        }
      case Invalid(_, _) =>
    }
    s := EncodeBytesOwned(t);
  }

  method EncodeBytesOwned(t: Text) returns (out: Str)
    ensures out == Encoded(t)
  {
    out := [];
    var rest := t;
    while true
      invariant out + Encoded(rest) == Encoded(t)
      decreases |rest|
    {
      match FromUtf8(rest) {
        case Valid(s) =>
          out := PushValidChunk(out, s);
          EncodedOfValid(rest);
          return out;
        case Invalid(validUpTo, errorLen) =>
          var valid, after := rest[..validUpTo], rest[validUpTo..];
          var badLen := match errorLen case Some(n) => n case None => |after|;
          EncodedOfError(rest, validUpTo, badLen);
          Regroup(out, EncodeValids(FromUtf8(valid).s), EscapeAll(after[..badLen]), Encoded(after[badLen..]));
          out := PushValidChunk(out, FromUtf8(valid).s);
          out := PushEscaped(out, after[..badLen]);
          rest := after[badLen..];
      }
    }
  }

  /** The inner `for &b in bytes { out.push(escape_char(b)) }`. */
  method PushEscaped(out0: Str, t: Text) returns (out: Str)
    ensures out == out0 + EscapeAll(t)
  {
    out := out0;
    for k := 0 to |t|
      invariant out == out0 + EscapeAll(t)[..k]
    {
      out := out + [EscapeChar(t[k])];
    }
  }

  method PushValidChunk(out0: Str, s: Str) returns (out: Str)
    ensures out == out0 + EncodeValids(s)
  {
    var escapes := ContainsEscapeRangeChar(s);
    if !escapes {
      EncodeValidsPlain(s);
      return out0 + s;
    }
    out := out0;
    for i := 0 to |s|
      invariant out == out0 + EncodeValids(s[..i])
    {
      EncodeValidsSnoc(s[..i], s[i]);
      assert s[..i + 1] == s[..i] + [s[i]];
      if UnescapeChar(s[i]).Some? {
        out := PushEscaped(out, EncodeChar(s[i]));
      } else {
        out := out + [s[i]];
      }
    }
    assert s[..|s|] == s;
  }

  lemma {:induction false} EncodeValidsConcat(s: Str, u: Str)
    ensures EncodeValids(s + u) == EncodeValids(s) + EncodeValids(u)
  {
    if s == [] {
      assert s + u == u;
    } else {
      EncodeValidsConcat(s[1..], u);
      ConcatHead(s, u);
      Assoc(EncodeValid(s[0]), EncodeValids(s[1..]), EncodeValids(u));
    }
  }

  lemma EncodeValidsSnoc(s: Str, c: Scalar)
    ensures EncodeValids(s + [c]) == EncodeValids(s) + EncodeValid(c)
  {
    EncodeValidsConcat(s, [c]);
    assert EncodeValids([c]) == EncodeValid(c) + EncodeValids([]);
  }

  lemma DecodedSnoc(s: Str, c: Scalar)
    ensures Decoded(s + [c]) == Decoded(s) + DecodedChar(c)
  {
    DecodedConcat(s, [c]);
    assert Decoded([c]) == DecodedChar(c) + Decoded([]);
  }

  lemma DecodedNext(s: Str, i: nat)
    requires i < |s|
    ensures Decoded(s[..i + 1]) == Decoded(s[..i]) + DecodedChar(s[i])
  {
    DecodedSnoc(s[..i], s[i]);
    assert s[..i + 1] == s[..i] + [s[i]];
  }

  method DecodeBytes(s: Str) returns (t: Text)
    ensures t == Decoded(s)
  {
    if !MayContainEscapes(s) {
      NoLeadNoEscapes(s);
      DecodedPlain(s);
      return AsBytes(s);
    }
    t := [];
    var changed := false;
    for i := 0 to |s|
      invariant t == Decoded(s[..i])
      invariant !changed ==> forall k :: 0 <= k < i ==> UnescapeChar(s[k]).None?
    {
      DecodedNext(s, i);
      match UnescapeChar(s[i]) {
        case Some(b) =>
          t := t + [b];
          changed := true;
        case None =>
          t := t + EncodeChar(s[i]);
      }
    }
    assert s[..|s|] == s;
    if !changed {
      DecodedPlain(s);
      return AsBytes(s);
    }
  }

  // ----- the fast paths agree -----

  lemma {:induction false} EncodeValidsPlain(s: Str)
    requires !HasEscapes(s)
    ensures EncodeValids(s) == s
  {
    if s != [] {
      assert UnescapeChar(s[0]).None?;
      assert forall i :: 0 <= i < |s| - 1 ==> s[1..][i] == s[i + 1];
      EncodeValidsPlain(s[1..]);
    }
  }

  lemma {:induction false} DecodedPlain(s: Str)
    requires !HasEscapes(s)
    ensures Decoded(s) == AsBytes(s)
  {
    if s != [] {
      assert UnescapeChar(s[0]).None?;
      assert forall i :: 0 <= i < |s| - 1 ==> s[1..][i] == s[i + 1];
      DecodedPlain(s[1..]);
    }
  }

  lemma EncodedOfValid(t: Text)
    requires FromUtf8(t).Valid?
    ensures Encoded(t) == EncodeValids(FromUtf8(t).s)
  {
    ValidBytes(t);
    EncodedOfChunk(FromUtf8(t).s, []);
    assert t + [] == t;
  }

  lemma EncodedOfChar(c: Scalar, tail: Text)
    ensures Encoded(EncodeChar(c) + tail) == EncodeValid(c) + Encoded(tail)
  {
    FrontOfChar(c, tail);
    assert (EncodeChar(c) + tail)[|EncodeChar(c)|..] == tail;
  }

  /** A valid chunk is encoded character by character, whatever follows it. */
  lemma {:induction false} EncodedOfChunk(v: Str, rest: Text)
    ensures Encoded(AsBytes(v) + rest) == EncodeValids(v) + Encoded(rest)
  {
    if v == [] {
      assert AsBytes(v) + rest == rest;
    } else {
      var e, tail := EncodeChar(v[0]), AsBytes(v[1..]) + rest;
      Assoc(e, AsBytes(v[1..]), rest);
      EncodedOfChar(v[0], tail);
      EncodedOfChunk(v[1..], rest);
      Assoc(EncodeValid(v[0]), EncodeValids(v[1..]), Encoded(rest));
    }
  }

  /** What `from_utf8` reports as an error stands at the end of the valid chunk. */
  lemma {:induction false} ErrorAtFront(t: Text)
    requires FromUtf8(t).Invalid?
    ensures var rest := t[FromUtf8(t).validUpTo..];
            FrontOf(rest) == match FromUtf8(t).errorLen { case Some(n) => Bad(n) case None => Cut }
  {
    var f := FrontOf(t);
    if f.Char? {
      ErrorAtFront(t[f.len..]);
      assert t[f.len..][FromUtf8(t).validUpTo - f.len..] == t[FromUtf8(t).validUpTo..];
    }
  }

  /** An encoding error stands at the front of `t` and covers `bad` bytes. */
  predicate ErrorSpan(t: Text, bad: nat) {
    t != [] && bad <= |t| && FrontOf(t) == (if bad == |t| && FrontOf(t).Cut? then Cut else Bad(bad))
  }

  lemma EncodedAtError(t: Text, bad: nat)
    requires ErrorSpan(t, bad)
    ensures Encoded(t) == EscapeAll(t[..bad]) + Encoded(t[bad..])
  {
    assert t[..|t|] == t;
  }

  /** One round of the encode loop: valid chunk, escaped bytes, rest. */
  lemma EncodedOfRound(v: Str, after: Text, bad: nat)
    requires ErrorSpan(after, bad)
    ensures Encoded(AsBytes(v) + after) == EncodeValids(v) + EscapeAll(after[..bad]) + Encoded(after[bad..])
  {
    EncodedOfChunk(v, after);
    EncodedAtError(after, bad);
    Assoc(EncodeValids(v), EscapeAll(after[..bad]), Encoded(after[bad..]));
  }

  lemma EncodedOfError(rest: Text, k: nat, bad: nat)
    requires FromUtf8(rest).Invalid? && k == FromUtf8(rest).validUpTo
    requires bad == match FromUtf8(rest).errorLen case Some(n) => n case None => |rest| - k
    ensures FromUtf8(rest[..k]).Valid? && bad <= |rest| - k
    ensures Encoded(rest) ==
      EncodeValids(FromUtf8(rest[..k]).s) + EscapeAll(rest[k..][..bad]) + Encoded(rest[k..][bad..])
  {
    ValidChunk(rest);
    ValidBytes(rest[..k]);
    ErrorAtFront(rest);
    TakeDrop(rest, k);
    EncodedOfRound(FromUtf8(rest[..k]).s, rest[k..], bad);
  }

  // ----- the properties -----

  lemma {:induction false} DecodedConcat(s: Str, u: Str)
    ensures Decoded(s + u) == Decoded(s) + Decoded(u)
  {
    if s == [] {
      assert s + u == u;
    } else {
      DecodedConcat(s[1..], u);
      ConcatHead(s, u);
      Assoc(DecodedChar(s[0]), Decoded(s[1..]), Decoded(u));
    }
  }

  lemma {:induction false} DecodedOfEscapes(t: Text)
    ensures Decoded(EscapeAll(t)) == t
  {
    if t != [] {
      DecodedOfEscapes(t[1..]);
      assert EscapeAll(t)[1..] == EscapeAll(t[1..]);
    }
  }

  lemma DecodedOfValid(c: Scalar)
    ensures Decoded(EncodeValid(c)) == EncodeChar(c)
  {
    DecodedOfEscapes(EncodeChar(c));
    assert Decoded([c]) == DecodedChar(c) + Decoded([]);
  }

  /** Decoding undoes encoding, for every byte string. */
  lemma {:induction false} RoundTrip(t: Text)
    ensures Decoded(Encoded(t)) == t
    decreases |t|
  {
    if t != [] {
      match FrontOf(t)
      case Char(c, len) =>
        EncodeFront(t);
        DecodedOfValid(c);
        DecodedConcat(EncodeValid(c), Encoded(t[len..]));
        RoundTrip(t[len..]);
        TakeDrop(t, len);
      case Bad(n) =>
        DecodedOfEscapes(t[..n]);
        DecodedConcat(EscapeAll(t[..n]), Encoded(t[n..]));
        RoundTrip(t[n..]);
        TakeDrop(t, n);
      case Cut =>
        DecodedOfEscapes(t);
    }
  }

  lemma EncodedInjective(t: Text, u: Text)
    requires Encoded(t) == Encoded(u)
    ensures t == u
  {
    RoundTrip(t);
    RoundTrip(u);
  }

  /** Escape characters that stand only for bytes at or above 0x80: what every
      shell string holds. */
  predicate HighEscapes(s: Str) {
    forall i :: 0 <= i < |s| && UnescapeChar(s[i]).Some? ==> UnescapeChar(s[i]).value >= 0x80
  }

  lemma {:induction false} EncodedHighEscapes(t: Text)
    ensures HighEscapes(Encoded(t))
    decreases |t|
  {
    if t != [] {
      match FrontOf(t)
      case Char(c, len) =>
        EncodedHighEscapes(t[len..]);
      case Bad(n) =>
        BadBytesHigh(t);
        EncodedHighEscapes(t[n..]);
      case Cut =>
        BadBytesHigh(t);
    }
  }

  /** The characters set aside: one for each byte, from U+10FE00 on. */
  lemma EscapeRange(b: byte, c: Scalar)
    ensures EscapeChar(b) == 0x10_FE00 + b
    ensures UnescapeChar(c) == Some(b) <==> c == 0x10_FE00 + b
    ensures UnescapeChar(c).Some? <==> 0x10_FE00 <= c <= 0x10_FEFF
  {
  }

  /** Valid text without these characters is its own encoded form. */
  lemma TextKept(s: Str)
    requires !HasEscapes(s)
    ensures Encoded(AsBytes(s)) == s && Decoded(s) == AsBytes(s)
  {
    FromUtf8OfString(s);
    EncodedOfValid(AsBytes(s));
    EncodeValidsPlain(s);
    DecodedPlain(s);
  }

  /** A byte that starts no character is one escape; so is each byte of a
      character set aside. */
  lemma BytesEscaped(t: Text)
    requires t != []
    ensures FrontOf(t).Bad? ==> Encoded(t) == EscapeAll(t[..FrontOf(t).skip]) + Encoded(t[FrontOf(t).skip..])
    ensures FrontOf(t).Cut? ==> Encoded(t) == EscapeAll(t)
    ensures FrontOf(t).Char? && 0x10_FE00 <= FrontOf(t).c <= 0x10_FEFF ==>
              Encoded(t) == EscapeAll(t[..4]) + Encoded(t[4..])
  {
    if FrontOf(t).Char? {
      EncodeFront(t);
      CharShape(FrontOf(t).c);
    }
  }
}
