/** The bytes of a history file: one escaped entry a line under a header, or
    the legacy format of one entry a line. */
module HistoryFile {
  import opened Prelude
  import opened Utf8
  import opened ByteEnc

  const NEWLINE: byte := 0x0A
  const BACKSLASH: byte := 0x5C
  const LETTER_N: byte := 0x6E

  /** `#yosh-history-v2` */
  const HEADER: Text :=
    [0x23, 0x79, 0x6F, 0x73, 0x68, 0x2D, 0x68, 0x69, 0x73, 0x74, 0x6F, 0x72, 0x79, 0x2D, 0x76, 0x32]

  // ----- entries as strings: the loops of the source -----

  function EscapedChar(c: Scalar): Str {
    if c == BACKSLASH then [BACKSLASH, BACKSLASH] else if c == NEWLINE then [BACKSLASH, LETTER_N] else [c]
  }

  function Escaped(s: Str): Str { if s == [] then [] else EscapedChar(s[0]) + Escaped(s[1..]) }

  method EscapeEntry(entry: Str) returns (out: Str)
    ensures out == Escaped(entry)
  {
    out := [];
    for i := 0 to |entry|
      invariant out + Escaped(entry[i..]) == Escaped(entry)
    {
      var c := entry[i];
      var piece := EscapedChar(c);
      Assoc(out, piece, Escaped(entry[i + 1..]));
      assert entry[i..][1..] == entry[i + 1..];
      out := out + piece;
    }
  }

  /** What one step of `unescape_entry` pushes, and how much it takes. */
  function Unescape1(s: Str): (r: (Str, nat))
    requires s != []
    ensures 1 <= r.1 <= |s|
  {
    if s[0] != BACKSLASH then ([s[0]], 1)
    else if |s| == 1 then ([BACKSLASH], 1)
    else if s[1] == LETTER_N then ([NEWLINE], 2)
    else if s[1] == BACKSLASH then ([BACKSLASH], 2)
    else ([BACKSLASH, s[1]], 2)
  }

  function Unescaped(s: Str): Str {
    if s == [] then [] else Unescape1(s).0 + Unescaped(s[Unescape1(s).1..])
  }

  method UnescapeEntry(line: Str) returns (out: Str)
    ensures out == Unescaped(line)
  {
    out := [];
    var i := 0;
    while i < |line|
      invariant 0 <= i <= |line| && out + Unescaped(line[i..]) == Unescaped(line)
    {
      var (piece, n) := Unescape1(line[i..]);
      Assoc(out, piece, Unescaped(line[i + n..]));
      assert line[i..][n..] == line[i + n..];
      out := out + piece;
      i := i + n;
    }
  }

  // ----- entries as bytes -----

  function EscapedBytes(t: Text): Text {
    if t == [] then [] else
      (if t[0] == BACKSLASH then [BACKSLASH, BACKSLASH] else if t[0] == NEWLINE then [BACKSLASH, LETTER_N] else [t[0]])
      + EscapedBytes(t[1..])
  }

  function UnescapedBytes(t: Text): Text {
    if t == [] then []
    else if t[0] != BACKSLASH then [t[0]] + UnescapedBytes(t[1..])
    else if |t| == 1 then [BACKSLASH]
    else if t[1] == LETTER_N then [NEWLINE] + UnescapedBytes(t[2..])
    else if t[1] == BACKSLASH then [BACKSLASH] + UnescapedBytes(t[2..])
    else [BACKSLASH, t[1]] + UnescapedBytes(t[2..])
  }

  /** Backslashes and newlines survive, and no newline is left in a line. */
  lemma {:induction false} EscapeRoundTrip(t: Text)
    ensures UnescapedBytes(EscapedBytes(t)) == t
    ensures NEWLINE !in EscapedBytes(t) && (t != [] ==> EscapedBytes(t) != [])
  {
    if t != [] {
      EscapeRoundTrip(t[1..]);
      var rest := EscapedBytes(t[1..]);
      if t[0] == BACKSLASH {
        assert ([BACKSLASH, BACKSLASH] + rest)[2..] == rest;
      } else if t[0] == NEWLINE {
        assert ([BACKSLASH, LETTER_N] + rest)[2..] == rest;
      } else {
        assert ([t[0]] + rest)[1..] == rest;
      }
      assert [t[0]] + t[1..] == t;
    }
  }

  lemma UnescapedNonEmpty(t: Text)
    ensures t != [] ==> UnescapedBytes(t) != []
  {
  }

  predicate High(t: Text) { forall i :: 0 <= i < |t| ==> t[i] >= 0x80 }

  lemma DecodedCharIs(c: Scalar)
    requires UnescapeChar(c).Some? ==> UnescapeChar(c).value >= 0x80
    ensures if c < 0x80 then DecodedChar(c) == [c] else High(DecodedChar(c))
  {
  }

  lemma {:induction false} EscapedHigh(d: Text, rest: Text)
    requires High(d)
    ensures EscapedBytes(d + rest) == d + EscapedBytes(rest)
  {
    if d == [] {
      assert d + rest == rest;
    } else {
      ConcatHead(d, rest);
      EscapedHigh(d[1..], rest);
      Assoc([d[0]], d[1..], EscapedBytes(rest));
      assert [d[0]] + d[1..] == d;
    }
  }

  lemma {:induction false} UnescapedHigh(d: Text, rest: Text)
    requires High(d)
    ensures UnescapedBytes(d + rest) == d + UnescapedBytes(rest)
  {
    if d == [] {
      assert d + rest == rest;
    } else {
      ConcatHead(d, rest);
      UnescapedHigh(d[1..], rest);
      Assoc([d[0]], d[1..], UnescapedBytes(rest));
      assert [d[0]] + d[1..] == d;
    }
  }

  /** A backslash and a byte that is no escape letter stay as they are. */
  lemma TwoBytes(b: byte, rest: Text)
    requires b != BACKSLASH && b != LETTER_N
    ensures UnescapedBytes([BACKSLASH, b] + rest) == [BACKSLASH, b] + UnescapedBytes(rest)
  {
    assert ([BACKSLASH, b] + rest)[2..] == rest;
  }

  lemma Regrouped(d: Text, rest: Text)
    requires d != []
    ensures [BACKSLASH, d[0]] + (d[1..] + rest) == [BACKSLASH] + d + rest
  {
  }

  /** A character that is no escape sequence passes the byte decoder whole. */
  lemma UnescapedAfterBackslash(c: Scalar, rest: Text)
    requires UnescapeChar(c).Some? ==> UnescapeChar(c).value >= 0x80
    requires c != BACKSLASH && c != LETTER_N
    ensures UnescapedBytes([BACKSLASH] + DecodedChar(c) + rest) == [BACKSLASH] + DecodedChar(c) + UnescapedBytes(rest)
  {
    DecodedCharIs(c);
    var d := DecodedChar(c);
    UnescapedHigh(d[1..], rest);
    TwoBytes(d[0], d[1..] + rest);
    Regrouped(d, rest);
    Regrouped(d, UnescapedBytes(rest));
  }

  /** One character's escape decodes to the escape of its bytes. */
  lemma EscapedPiece(c: Scalar, rest: Text)
    requires UnescapeChar(c).Some? ==> UnescapeChar(c).value >= 0x80
    ensures EscapedBytes(DecodedChar(c) + rest) == Decoded(EscapedChar(c)) + EscapedBytes(rest)
  {
    DecodedCharIs(c);
    ShortDecoded(EscapedChar(c));
    if c < 0x80 {
      assert ([c as byte] + rest)[1..] == rest;
    } else {
      EscapedHigh(DecodedChar(c), rest);
    }
  }

  /** Escaping the characters of an entry escapes its bytes. */
  lemma {:induction false} DecodedEscaped(s: Str)
    requires HighEscapes(s)
    ensures Decoded(Escaped(s)) == EscapedBytes(Decoded(s))
  {
    if s != [] {
      HighTail(s, 1);
      DecodedEscaped(s[1..]);
      DecodedConcat(EscapedChar(s[0]), Escaped(s[1..]));
      EscapedPiece(s[0], Decoded(s[1..]));
    }
  }

  lemma HighTail(s: Str, n: nat)
    requires HighEscapes(s) && n <= |s|
    ensures HighEscapes(s[n..])
  {
  }

  lemma ShortDecoded(p: Str)
    requires 1 <= |p| <= 2
    ensures Decoded(p) == if |p| == 1 then DecodedChar(p[0]) else DecodedChar(p[0]) + DecodedChar(p[1])
  {
    assert Decoded(p[1..]) == if |p| == 1 then [] else DecodedChar(p[1]) + [] by {
      if |p| == 2 { assert p[1..][1..] == []; }
    }
  }

  /** Undoing the escapes of a line's characters undoes those of its bytes. */
  lemma {:induction false} DecodedUnescaped(s: Str)
    requires HighEscapes(s)
    ensures Decoded(Unescaped(s)) == UnescapedBytes(Decoded(s))
  {
    if s != [] {
      var (piece, n) := Unescape1(s);
      HighTail(s, n);
      DecodedUnescaped(s[n..]);
      DecodedConcat(piece, Unescaped(s[n..]));
      ShortDecoded(piece);
      DecodedCharIs(s[0]);
      var rest := Decoded(s[n..]);
      if s[0] != BACKSLASH {
        PlainStep(s[0], rest);
      } else if |s| == 1 {
        assert Decoded(s) == [BACKSLASH] && Decoded(s[1..]) == [];
      } else {
        DecodedCharIs(s[1]);
        assert s[1..][1..] == s[2..];
        assert Decoded(s) == [BACKSLASH] + (DecodedChar(s[1]) + rest);
        Assoc([BACKSLASH], DecodedChar(s[1]), rest);
        EscapeStep(s[1], rest);
      }
    }
  }

  lemma PlainStep(c: Scalar, rest: Text)
    requires UnescapeChar(c).Some? ==> UnescapeChar(c).value >= 0x80
    requires c != BACKSLASH
    ensures UnescapedBytes(DecodedChar(c) + rest) == DecodedChar(c) + UnescapedBytes(rest)
  {
    DecodedCharIs(c);
    if c < 0x80 {
      assert (DecodedChar(c) + rest)[1..] == rest;
    } else {
      UnescapedHigh(DecodedChar(c), rest);
    }
  }

  lemma EscapeStep(c: Scalar, rest: Text)
    requires UnescapeChar(c).Some? ==> UnescapeChar(c).value >= 0x80
    ensures UnescapedBytes([BACKSLASH] + DecodedChar(c) + rest) ==
      (if c == LETTER_N then [NEWLINE] else if c == BACKSLASH then [BACKSLASH] else [BACKSLASH] + DecodedChar(c))
      + UnescapedBytes(rest)
  {
    DecodedCharIs(c);
    if c == LETTER_N || c == BACKSLASH {
      assert ([BACKSLASH] + DecodedChar(c) + rest)[2..] == rest;
    } else {
      UnescapedAfterBackslash(c, rest);
    }
  }

  lemma {:induction false} UnescapedStorable(s: Str)
    requires HighEscapes(s)
    ensures HighEscapes(Unescaped(s)) && (s != [] ==> Unescaped(s) != [])
  {
    if s != [] {
      var (piece, n) := Unescape1(s);
      HighTail(s, n);
      UnescapedStorable(s[n..]);
    }
  }

  // ----- lines and files -----

  /** The pieces of `split(b'\n')`; a final newline ends the last one. */
  function Lines(t: Text): seq<Text> {
    if t == [] then [] else
      var i := FirstIndex(t, NEWLINE);
      if i == |t| then [t] else [t[..i]] + Lines(t[i + 1..])
  }

  function NonEmpty(ts: seq<Text>): seq<Text> {
    if ts == [] then [] else (if ts[0] == [] then [] else [ts[0]]) + NonEmpty(ts[1..])
  }

  function UnescapedEach(ts: seq<Text>): seq<Text> {
    if ts == [] then [] else [UnescapedBytes(ts[0])] + UnescapedEach(ts[1..])
  }

  /** The entries a file holds, as bytes. */
  function EntriesOf(file: Text): seq<Text> {
    var lines := Lines(file);
    if lines != [] && lines[0] == HEADER then UnescapedEach(NonEmpty(lines[1..])) else NonEmpty(lines)
  }

  function LinesOf(entries: seq<Text>): Text {
    if entries == [] then [] else EscapedBytes(entries[0]) + [NEWLINE] + LinesOf(entries[1..])
  }

  /** The file that holds these entries. */
  function FileOf(entries: seq<Text>): Text { HEADER + [NEWLINE] + LinesOf(entries) }

  predicate NoneEmpty(entries: seq<Text>) { forall i :: 0 <= i < |entries| ==> entries[i] != [] }

  lemma LineAtFront(line: Text, rest: Text)
    requires NEWLINE !in line
    ensures Lines(line + [NEWLINE] + rest) == [line] + Lines(rest)
  {
    var t := line + [NEWLINE] + rest;
    assert t[..|line|] == line;
    FirstIndexIs(t, NEWLINE, |line|);
    assert t[|line| + 1..] == rest;
  }

  lemma {:induction false} LinesReadBack(entries: seq<Text>)
    requires NoneEmpty(entries)
    ensures UnescapedEach(NonEmpty(Lines(LinesOf(entries)))) == entries
  {
    if entries != [] {
      var line := EscapedBytes(entries[0]);
      EscapeRoundTrip(entries[0]);
      LinesReadBack(entries[1..]);
      LineAtFront(line, LinesOf(entries[1..]));
      ReadOne(line, Lines(LinesOf(entries[1..])));
      assert [entries[0]] + entries[1..] == entries;
    }
  }

  lemma ReadOne(line: Text, lines: seq<Text>)
    requires line != []
    ensures UnescapedEach(NonEmpty([line] + lines)) == [UnescapedBytes(line)] + UnescapedEach(NonEmpty(lines))
  {
    assert ([line] + lines)[1..] == lines;
    assert ([line] + NonEmpty(lines))[1..] == NonEmpty(lines);
  }

  /** A written file reads back as the entries written. */
  lemma FileRoundTrip(entries: seq<Text>)
    requires NoneEmpty(entries)
    ensures EntriesOf(FileOf(entries)) == entries
  {
    LineAtFront(HEADER, LinesOf(entries));
    LinesReadBack(entries);
    var rest := Lines(LinesOf(entries));
    assert ([HEADER] + rest)[1..] == rest;
  }

  lemma {:induction false} NonEmptyHasNone(ts: seq<Text>)
    ensures NoneEmpty(NonEmpty(ts))
  {
    if ts != [] { NonEmptyHasNone(ts[1..]); }
  }

  lemma {:induction false} UnescapedEachHasNone(ts: seq<Text>)
    requires NoneEmpty(ts)
    ensures NoneEmpty(UnescapedEach(ts))
  {
    if ts != [] {
      UnescapedNonEmpty(ts[0]);
      assert forall i :: 0 <= i < |ts| - 1 ==> ts[1..][i] == ts[i + 1];
      UnescapedEachHasNone(ts[1..]);
    }
  }

  lemma EntriesNoneEmpty(file: Text)
    ensures NoneEmpty(EntriesOf(file))
  {
    var lines := Lines(file);
    NonEmptyHasNone(lines);
    if lines != [] {
      NonEmptyHasNone(lines[1..]);
      UnescapedEachHasNone(NonEmpty(lines[1..]));
    }
  }

  // ----- what several shells leave in one file -----

  /** The last `n`, or all of them when there are fewer. */
  function LastN<T>(s: seq<T>, n: nat): seq<T> { if |s| <= n then s else s[|s| - n..] }

  /** What saving `added` under the limit `n` makes of a file. */
  function Saved(file: Text, added: seq<Text>, n: nat): Text { FileOf(LastN(EntriesOf(file) + added, n)) }

  /** Shells that share a file save one after the other. */
  function SavedAll(file: Text, sessions: seq<seq<Text>>, n: nat): Text {
    if sessions == [] then file else Saved(SavedAll(file, sessions[..|sessions| - 1], n), sessions[|sessions| - 1], n)
  }

  function Joined(sessions: seq<seq<Text>>): seq<Text> {
    if sessions == [] then [] else Joined(sessions[..|sessions| - 1]) + sessions[|sessions| - 1]
  }

  lemma LastNTwice<T>(a: seq<T>, b: seq<T>, n: nat)
    ensures LastN(LastN(a, n) + b, n) == LastN(a + b, n)
  {
  }

  lemma LastNNoneEmpty(a: seq<Text>, b: seq<Text>, n: nat)
    requires NoneEmpty(a) && NoneEmpty(b)
    ensures NoneEmpty(LastN(a + b, n))
  {
  }

  lemma LastNCommutes<T>(s: seq<T>, m: nat, n: nat)
    ensures LastN(LastN(s, m), n) == LastN(LastN(s, n), m)
  {
  }

  lemma SavedEntries(file: Text, added: seq<Text>, n: nat)
    requires NoneEmpty(added)
    ensures EntriesOf(Saved(file, added, n)) == LastN(EntriesOf(file) + added, n)
  {
    EntriesNoneEmpty(file);
    LastNNoneEmpty(EntriesOf(file), added, n);
    FileRoundTrip(LastN(EntriesOf(file) + added, n));
  }

  /** Whatever the order of the saves, the file ends with the last `n` of its
      first entries followed by each session's, in the order they were saved. */
  lemma {:induction false} SavesMerge(file: Text, sessions: seq<seq<Text>>, n: nat)
    requires sessions != [] && forall i :: 0 <= i < |sessions| ==> NoneEmpty(sessions[i])
    ensures EntriesOf(SavedAll(file, sessions, n)) == LastN(EntriesOf(file) + Joined(sessions), n)
  {
    var init, last := sessions[..|sessions| - 1], sessions[|sessions| - 1];
    SavedEntries(SavedAll(file, init, n), last, n);
    if init == [] {
      assert Joined(sessions) == [] + last == last;
    } else {
      SavesMerge(file, init, n);
      LastNTwice(EntriesOf(file) + Joined(init), last, n);
      Assoc(EntriesOf(file), Joined(init), last);
    }
  }

  // ----- the format -----

  /** What the escapes look like, and that what is none is kept. */
  lemma Escapes(b: byte, rest: Text)
    ensures EscapedBytes([0x0A] + rest) == [0x5C, 0x6E] + EscapedBytes(rest)
    ensures EscapedBytes([0x5C] + rest) == [0x5C, 0x5C] + EscapedBytes(rest)
    ensures b != 0x0A && b != 0x5C ==> EscapedBytes([b] + rest) == [b] + EscapedBytes(rest)
    ensures b != 0x6E && b != 0x5C ==> UnescapedBytes([0x5C, b] + rest) == [0x5C, b] + UnescapedBytes(rest)
    ensures b != 0x5C ==> UnescapedBytes([b] + rest) == [b] + UnescapedBytes(rest)
    ensures UnescapedBytes([0x5C]) == [0x5C]
  {
    assert ([b] + rest)[1..] == rest && ([0x0A] + rest)[1..] == rest && ([0x5C] + rest)[1..] == rest;
    assert ([0x5C, b] + rest)[2..] == rest;
  }

  /** The lines of the legacy format, as they are. */
  function LegacyOf(entries: seq<Text>): Text {
    if entries == [] then [] else entries[0] + [NEWLINE] + LegacyOf(entries[1..])
  }

  predicate OneLiners(entries: seq<Text>) {
    forall i :: 0 <= i < |entries| ==> entries[i] != [] && NEWLINE !in entries[i]
  }

  lemma {:induction false} LegacyLines(entries: seq<Text>)
    requires OneLiners(entries)
    ensures Lines(LegacyOf(entries)) == entries && NonEmpty(entries) == entries
  {
    if entries != [] {
      LegacyLines(entries[1..]);
      LineAtFront(entries[0], LegacyOf(entries[1..]));
      assert [entries[0]] + entries[1..] == entries;
    }
  }

  /** Without the header every line is an entry, backslashes and all. */
  lemma LegacyReads(entries: seq<Text>)
    requires OneLiners(entries) && (entries != [] ==> entries[0] != HEADER)
    ensures EntriesOf(LegacyOf(entries)) == entries
  {
    LegacyLines(entries);
  }
}
