/** Quoting for re-input, and how a shell reads quoted words back. */
module Quote {
  import opened Prelude
  import opened Utf8

  // ----- characters -----

  const QUOTE: Scalar := 0x27
  const BACKSLASH: Scalar := 0x5C
  const SPACE: Scalar := 0x20
  const NEWLINE: Scalar := 0x0A

  predicate IsDigit(c: Scalar) { 0x30 <= c <= 0x39 }

  predicate IsUpper(c: Scalar) { 0x41 <= c <= 0x5A }

  /** `is_safe`: these stand for themselves outside quotes. */
  predicate IsPlain(c: Scalar) {
    IsDigit(c) || IsUpper(c) || 0x61 <= c <= 0x7A || c in {0x5F, 0x2E, 0x2F, 0x3A, 0x2D, 0x2B, 0x2C, 0x40, 0x25}
  }

  predicate AllPlain(s: Str) { forall i :: 0 <= i < |s| ==> IsPlain(s[i]) }

  // ----- quoting -----

  function QuotedBody(s: Str): Str {
    if s == [] then [] else (if s[0] == QUOTE then [QUOTE, BACKSLASH, QUOTE, QUOTE] else [s[0]]) + QuotedBody(s[1..])
  }

  function Quoted(s: Str): Str { [QUOTE] + QuotedBody(s) + [QUOTE] }

  method SingleQuote(value: Str) returns (out: Str)
    ensures out == Quoted(value)
  {
    out := [QUOTE];
    for i := 0 to |value|
      invariant out + QuotedBody(value[i..]) == [QUOTE] + QuotedBody(value)
    {
      var piece := if value[i] == QUOTE then [QUOTE, BACKSLASH, QUOTE, QUOTE] else [value[i]];
      assert value[i..][1..] == value[i + 1..];
      Assoc(out, piece, QuotedBody(value[i + 1..]));
      out := out + piece;
    }
    assert out == [QUOTE] + QuotedBody(value);
    out := out + [QUOTE];
  }

  // ----- how a shell reads words back (section 2.2 of POSIX XCU) -----

  datatype Mode = Open | InQuotes | Escaped

  /** Commands read so far, the words of this one, and the word begun. */
  datatype Reader = Reader(commands: seq<seq<Str>>, words: seq<Str>, word: Option<Str>, mode: Mode)

  function Begun(r: Reader): Str { if r.word.Some? then r.word.value else [] }

  function EndWord(r: Reader): Reader {
    if r.word.None? then r else r.(words := r.words + [r.word.value], word := None)
  }

  /** `None` for unquoted characters this reader gives no meaning. */
  function Next(r: Reader, c: Scalar): Option<Reader> {
    match r.mode
    case InQuotes => Some(if c == QUOTE then r.(mode := Open) else r.(word := Some(Begun(r) + [c])))
    case Escaped => if c == NEWLINE then None else Some(r.(mode := Open, word := Some(Begun(r) + [c])))
    case Open =>
      if c == QUOTE then Some(r.(mode := InQuotes, word := Some(Begun(r))))
      else if c == BACKSLASH then Some(r.(mode := Escaped))
      else if c == SPACE then Some(EndWord(r))
      else if c == NEWLINE then
        var e := EndWord(r);
        Some(Reader(if e.words == [] then e.commands else e.commands + [e.words], [], None, Open))
      else if IsPlain(c) then Some(r.(word := Some(Begun(r) + [c])))
      else None
  }

  function Feed(r: Option<Reader>, text: Str): Option<Reader>
    decreases |text|
  {
    if text == [] || r.None? then r else Feed(Next(r.value, text[0]), text[1..])
  }

  /** The commands of a text, as their words. */
  function ReadCommands(text: Str): Option<seq<seq<Str>>> {
    var r := Feed(Some(Reader([], [], None, Open)), text);
    if r.Some? && r.value.mode.Open? && r.value.words == [] && r.value.word.None? then Some(r.value.commands) else None
  }

  lemma {:induction false} FeedConcat(r: Option<Reader>, a: Str, b: Str)
    ensures Feed(r, a + b) == Feed(Feed(r, a), b)
    decreases |a|
  {
    if a == [] {
      assert a + b == b;
    } else if r.Some? {
      ConcatHead(a, b);
      FeedConcat(Next(r.value, a[0]), a[1..], b);
    }
  }

  lemma FeedOne(r: Reader, c: Scalar)
    ensures Feed(Some(r), [c]) == Next(r, c)
  {
    assert [c][1..] == [];
  }

  lemma {:induction false} FeedPlain(r: Reader, s: Str)
    requires r.mode.Open? && AllPlain(s) && s != []
    ensures Feed(Some(r), s) == Some(r.(word := Some(Begun(r) + s)))
    decreases |s|
  {
    var next := Next(r, s[0]);
    if |s| == 1 {
      assert s == [s[0]] && s[1..] == [];
    } else {
      FeedPlain(next.value, s[1..]);
      Assoc(Begun(r), [s[0]], s[1..]);
      assert [s[0]] + s[1..] == s;
    }
  }

  lemma {:induction false} FeedBody(r: Reader, s: Str)
    requires r.mode.InQuotes? && r.word.Some?
    ensures Feed(Some(r), QuotedBody(s)) == Some(r.(word := Some(r.word.value + s)))
    decreases |s|
  {
    if s == [] {
      assert r.word.value + s == r.word.value;
    } else {
      var piece := if s[0] == QUOTE then [QUOTE, BACKSLASH, QUOTE, QUOTE] else [s[0]];
      FeedConcat(Some(r), piece, QuotedBody(s[1..]));
      FeedPiece(r, s[0]);
      FeedBody(r.(word := Some(r.word.value + [s[0]])), s[1..]);
      Assoc(r.word.value, [s[0]], s[1..]);
      assert [s[0]] + s[1..] == s;
    }
  }

  lemma FeedPiece(r: Reader, c: Scalar)
    requires r.mode.InQuotes? && r.word.Some?
    ensures Feed(Some(r), if c == QUOTE then [QUOTE, BACKSLASH, QUOTE, QUOTE] else [c])
      == Some(r.(word := Some(r.word.value + [c])))
  {
    if c == QUOTE {
      var w := r.word.value;
      FeedConcat(Some(r), [QUOTE, BACKSLASH], [QUOTE, QUOTE]);
      FeedConcat(Some(r), [QUOTE], [BACKSLASH]);
      FeedOne(r, QUOTE);
      FeedOne(r.(mode := Open), BACKSLASH);
      assert [QUOTE] + [BACKSLASH] == [QUOTE, BACKSLASH] && [QUOTE] + [QUOTE] == [QUOTE, QUOTE];
      assert [QUOTE, BACKSLASH] + [QUOTE, QUOTE] == [QUOTE, BACKSLASH, QUOTE, QUOTE];
      var escaped := r.(mode := Escaped);
      FeedConcat(Some(escaped), [QUOTE], [QUOTE]);
      FeedOne(escaped, QUOTE);
      FeedOne(r.(mode := Open, word := Some(w + [QUOTE])), QUOTE);
    } else {
      FeedOne(r, c);
    }
  }

  /** A quoted value is read back as one word, whatever it contains. */
  lemma QuotedReadsBack(r: Reader, s: Str)
    requires r.mode.Open?
    ensures Feed(Some(r), Quoted(s)) == Some(r.(word := Some(Begun(r) + s)))
  {
    var inside := r.(mode := InQuotes, word := Some(Begun(r)));
    FeedConcat(Some(r), [QUOTE] + QuotedBody(s), [QUOTE]);
    FeedConcat(Some(r), [QUOTE], QuotedBody(s));
    FeedOne(r, QUOTE);
    FeedBody(inside, s);
    FeedOne(inside.(word := Some(Begun(r) + s)), QUOTE);
  }

  /** `quote_for_reinput` */
  function Reinput(value: Str): Str { if value != [] && AllPlain(value) then value else Quoted(value) }

  lemma ReinputReadsBack(r: Reader, value: Str)
    requires r.mode.Open?
    ensures Feed(Some(r), Reinput(value)) == Some(r.(word := Some(Begun(r) + value)))
  {
    if value != [] && AllPlain(value) { FeedPlain(r, value); } else { QuotedReadsBack(r, value); }
  }

  // ----- which characters need no quotes -----

  /** What the shell gives a meaning to somewhere (section 2.2 of POSIX XCU), but
      for `%`, which it does at the start of a job operand alone. */
  const SPECIAL: set<Scalar> := {
    0x7C, 0x26, 0x3B, 0x3C, 0x3E, 0x28, 0x29, 0x24, 0x60, 0x5C, 0x22, 0x27, 0x20, 0x09, 0x0A,
    0x2A, 0x3F, 0x5B, 0x5D, 0x5E, 0x21, 0x23, 0x7E, 0x3D, 0x7B, 0x7D
  }

  lemma PlainIsHarmless(c: Scalar)
    requires IsPlain(c)
    ensures c !in SPECIAL && 0x20 < c < 0x7F
  {
  }
}
