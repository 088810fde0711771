/** Where characters begin in a field's bytes: splitting slices between them
    only (the comments of src/expand/field_split.rs call this an invariant). */
module Chars {
  import opened Prelude
  import opened Utf8
  import opened ByteEnc
  import opened Fields
  import opened SplitSpec
  import opened SplitProps
  import opened Ifs

  /** The bytes of a `String`. */
  predicate IsString(t: Text) { FromUtf8(t).Valid? }

  /** `is_char_boundary` */
  predicate Boundary(t: Text, i: nat) { i <= |t| && (i == 0 || i == |t| || !Continuation(t[i])) }

  // ----- strings and their slices -----

  lemma FirstByte(t: Text)
    requires IsString(t) && t != []
    ensures !Continuation(t[0])
  {
    assert FrontOf(t).Char?;
  }

  /** No character begins inside the one at the front. */
  lemma PastFront(t: Text, i: nat)
    requires IsString(t) && Boundary(t, i) && 0 < i
    ensures FrontOf(t).Char? && FrontOf(t).len <= i && IsString(t[FrontOf(t).len..])
  {
    var f := FrontOf(t);
    EncodeFront(t);
    CharShape(f.c);
    assert forall k :: 0 <= k < f.len ==> t[..f.len][k] == t[k];
  }

  lemma {:induction false} SuffixString(t: Text, i: nat)
    requires IsString(t) && Boundary(t, i)
    ensures IsString(t[i..])
    decreases |t|
  {
    if i == 0 {
      assert t[0..] == t;
    } else {
      PastFront(t, i);
      var len := FrontOf(t).len;
      assert t[len..][i - len..] == t[i..];
      if i < |t| { assert t[len..][i - len] == t[i]; }
      SuffixString(t[len..], i - len);
    }
  }

  lemma {:induction false} PrefixString(t: Text, k: nat)
    requires IsString(t) && Boundary(t, k)
    ensures IsString(t[..k])
    decreases |t|
  {
    if k > 0 {
      PastFront(t, k);
      var len := FrontOf(t).len;
      if k < |t| { assert t[len..][k - len] == t[k]; }
      PrefixString(t[len..], k - len);
      FrontOfPrefix(t, k);
      assert t[..k][len..] == t[len..][..k - len];
    }
  }

  lemma SliceString(t: Text, i: nat, j: nat)
    requires IsString(t) && Boundary(t, i) && Boundary(t, j) && i <= j
    ensures IsString(t[i..j])
  {
    SuffixString(t, i);
    if j < |t| && i < j { assert t[i..][j - i] == t[j]; }
    PrefixString(t[i..], j - i);
    assert t[i..][..j - i] == t[i..j];
  }

  /** A string behind a string makes a string, and conversely. */
  lemma {:induction false} BehindString(m: Text, rest: Text)
    requires IsString(m)
    ensures IsString(m + rest) <==> IsString(rest)
    decreases |m|
  {
    if m == [] {
      assert m + rest == rest;
    } else {
      var len := FrontOf(m).len;
      assert (m + rest)[..|m|] == m;
      FrontOfWhole(m + rest, |m|);
      assert (m + rest)[len..] == m[len..] + rest;
      BehindString(m[len..], rest);
    }
  }

  /** Behind a whole string found at a boundary there is a boundary. */
  lemma BoundaryBehind(t: Text, i: nat, m: Text)
    requires IsString(t) && Boundary(t, i) && IsString(m) && i + |m| <= |t| && t[i..i + |m|] == m
    ensures Boundary(t, i + |m|)
  {
    SuffixString(t, i);
    var rest := t[i + |m|..];
    assert t[i..] == m + rest;
    BehindString(m, rest);
    if rest != [] { FirstByte(rest); }
  }

  // ----- fields -----

  predicate SameLook(a: Cell, b: Cell) { a.split == b.split && a.glob == b.glob }

  /** The bytes are a string, and attributes change between characters only. */
  predicate Whole(cells: seq<Cell>) {
    && IsString(Bytes(cells))
    && forall k :: 0 < k < |cells| && !SameLook(cells[k - 1], cells[k]) ==> !Continuation(cells[k].b)
  }

  /** Pushing a string keeps a field whole. */
  lemma PushKeepsWhole(cells: seq<Cell>, s: Text, split: bool, glob: bool)
    requires Whole(cells) && IsString(s)
    ensures Whole(CellsOf(s, split, glob)) && Whole(cells + CellsOf(s, split, glob))
  {
    assert Bytes(CellsOf(s, split, glob)) == s;
    AppendKeepsWhole(cells, CellsOf(s, split, glob));
  }

  lemma AppendKeepsWhole(a: seq<Cell>, b: seq<Cell>)
    requires Whole(a) && Whole(b)
    ensures Whole(a + b)
  {
    assert Bytes(a + b) == Bytes(a) + Bytes(b);
    BehindString(Bytes(a), Bytes(b));
    if b != [] {
      FirstByte(Bytes(b));
      assert Bytes(b)[0] == b[0].b;
    }
  }

  lemma SliceWhole(cells: seq<Cell>, i: nat, j: nat)
    requires Whole(cells) && i <= j <= |cells| && Boundary(Bytes(cells), i) && Boundary(Bytes(cells), j)
    ensures Whole(cells[i..j])
  {
    SliceString(Bytes(cells), i, j);
    assert Bytes(cells[i..j]) == Bytes(cells)[i..j];
  }

  // ----- delimiters -----

  /** Only ASCII bytes and the first bytes of characters start a delimiter. */
  predicate WholeEntry(c: Class, b: byte) {
    (c in {WsDelim, NwsDelim} ==> b < 0x80) && (c == MbLead ==> !Continuation(b))
  }

  predicate WholeTexts(multi: seq<Text>) { forall k :: 0 <= k < |multi| ==> IsString(multi[k]) && multi[k] != [] }

  /** Delimiters are whole characters, and what starts one starts a character. */
  predicate WholeDelims(d: Delims) {
    ValidDelims(d) && (forall b: byte :: WholeEntry(d.table[b], b)) && WholeTexts(d.multi)
  }

  /** Every IFS value makes such delimiters. */
  lemma IfsDelimsWhole(ifs: Str)
    ensures WholeDelims(IfsDelims(ifs))
  {
    var units := if IsAscii(AsBytes(ifs)) then [] else Units(Decoded(ifs));
    SortedWhole(units);
    TableWhole(AsBytes(ifs), SortLongest(Spellings(units)));
  }

  lemma TableWhole(bytes: Text, multi: seq<Text>)
    requires WholeTexts(multi)
    ensures WholeDelims(Delims(TableOf(bytes, multi), multi))
  {
    var table := TableOf(bytes, multi);
    forall b: byte ensures WholeEntry(table[b], b) {
      assert table[b] == TableEntry(bytes, multi, b);
      EntryWhole(bytes, multi, b);
    }
  }

  lemma EntryWhole(bytes: Text, multi: seq<Text>, b: byte)
    requires WholeTexts(multi)
    ensures WholeEntry(TableEntry(bytes, multi, b), b)
  {
    if k :| 0 <= k < |multi| && multi[k] != [] && multi[k][0] == b { FirstByte(multi[k]); }
  }

  lemma SortedWhole(units: seq<Text>)
    ensures WholeTexts(SortLongest(Spellings(units)))
  {
    var multi := SortLongest(Spellings(units));
    SortKeeps(Spellings(units));
    forall k | 0 <= k < |multi| ensures IsString(multi[k]) && multi[k] != [] {
      assert multi[k] in Spellings(units);
      SpellingsStrings(units, multi[k]);
    }
  }

  lemma {:induction false} SpellingsStrings(units: seq<Text>, m: Text)
    requires m in Spellings(units)
    ensures IsString(m) && m != []
  {
    var init, u := units[..|units| - 1], units[|units| - 1];
    if m in Spellings(init) {
      SpellingsStrings(init, m);
    } else {
      FromUtf8OfString(EscapeAll(u));
      if m != u { assert m == AsBytes(EscapeAll(u)) && EscapeAll(u) != []; }
    }
  }

  /** Whether position `i` may be sliced at, for a whole field and delimiters. */
  predicate Sliceable(d: Delims, cells: seq<Cell>, i: nat) {
    Whole(cells) && WholeDelims(d) ==> Boundary(Bytes(cells), i)
  }

  /** A run ends at the end, where attributes change, or at a lead byte. */
  lemma RunEndSliceable(d: Delims, cells: seq<Cell>, j: nat)
    requires ValidDelims(d) && 0 < j <= |cells|
    requires j == |cells| || !SameLook(cells[j - 1], cells[j]) || d.table[cells[j].b] != NotDelim
    ensures Sliceable(d, cells, j)
  {
    if j < |cells| { assert Bytes(cells)[j] == cells[j].b; }
  }

  lemma DelimiterStart(d: Delims, cells: seq<Cell>, i: nat)
    requires ValidDelims(d) && i < |cells| && IsDelimAt(d, cells, i)
    ensures Sliceable(d, cells, i)
  {
    assert Bytes(cells)[i] == cells[i].b;
  }

  lemma DelimiterEndSliceable(d: Delims, cells: seq<Cell>, i: nat)
    requires ValidDelims(d) && i < |cells| && IsDelimAt(d, cells, i)
    ensures Sliceable(d, cells, i + ClassAt(d, cells, i).1)
  {
    if Whole(cells) && WholeDelims(d) {
      DelimiterStart(d, cells, i);
      DelimiterString(d, cells, i);
      BoundaryBehind(Bytes(cells), i, DelimiterText(d, cells, i));
    }
  }

  /** The bytes of the delimiter at `i`. */
  ghost function DelimiterText(d: Delims, cells: seq<Cell>, i: nat): Text
    requires ValidDelims(d) && i < |cells|
  {
    Bytes(cells)[i..i + ClassAt(d, cells, i).1]
  }

  lemma DelimiterString(d: Delims, cells: seq<Cell>, i: nat)
    requires WholeDelims(d) && i < |cells| && IsDelimAt(d, cells, i)
    ensures IsString(DelimiterText(d, cells, i))
  {
    var t := DelimiterText(d, cells, i);
    if d.table[cells[i].b] == MbLead {
      FirstMatchFinds(d.multi, cells, i);
      var k :| 0 <= k < |d.multi| && MatchesAt(cells, i, d.multi[k]) && |d.multi[k]| == |t|;
      assert t == d.multi[k];
    } else {
      assert WholeEntry(d.table[cells[i].b], cells[i].b);
      assert t == [cells[i].b];
      AsciiString(cells[i].b);
    }
  }

  lemma AsciiString(b: byte)
    requires b < 0x80
    ensures IsString([b])
  {
    assert FrontOf([b]) == Char(b, 1) && [b][1..] == [];
  }

  // ----- the fields that come out -----

  lemma {:induction false} WsEndSliceable(d: Delims, cells: seq<Cell>, ts: Tokens, i: nat)
    requires ValidDelims(d) && Tiles(ts, i, |cells|) && Sound(d, cells, ts) && Sliceable(d, cells, i)
    ensures Sliceable(d, cells, WsEnd(ts, i)) && Sound(d, cells, SkipWs(ts))
  {
    if ts.Tok? && ts.head.Ws? {
      DelimiterEndSliceable(d, cells, i);
      WsEndSliceable(d, cells, ts.tail, ts.head.End());
    }
  }

  lemma {:induction false} RunEndIsSliceable(d: Delims, cells: seq<Cell>, ts: Tokens, i: nat)
    requires ValidDelims(d) && Tiles(ts, i, |cells|) && Sound(d, cells, ts)
    ensures Sliceable(d, cells, RunEnd(ts, i)) && Sound(d, cells, AfterRun(ts))
  {
    if ts.Tok? && !ts.head.Delimiter() {
      RunEndIsSliceable(d, cells, ts.tail, ts.head.End());
    } else if ts.Tok? {
      DelimiterStart(d, cells, i);
    }
  }

  lemma SkippedSliceable(d: Delims, cells: seq<Cell>, ts: Tokens, i: nat)
    requires ValidDelims(d) && Tiles(ts, i, |cells|) && Sound(d, cells, ts) && Sliceable(d, cells, i)
    ensures Sliceable(d, cells, DelimiterEnd(ts, i)) && Sound(d, cells, SkipDelimiter(ts))
  {
    WsEndSliceable(d, cells, ts, i);
    WsTiles(ts, i, |cells|);
    NwsSliceable(d, cells, SkipWs(ts), WsEnd(ts, i));
  }

  lemma NwsSliceable(d: Delims, cells: seq<Cell>, ts: Tokens, i: nat)
    requires ValidDelims(d) && Tiles(ts, i, |cells|) && Sound(d, cells, ts)
    ensures ts.Tok? && ts.head.Nws? ==> Sliceable(d, cells, ts.head.End()) && Sound(d, cells, ts.tail)
  {
    if ts.Tok? && ts.head.Nws? { DelimiterEndSliceable(d, cells, i); }
  }

  predicate SpanSliceable(d: Delims, cells: seq<Cell>, s: Span) {
    Sliceable(d, cells, s.from) && Sliceable(d, cells, s.to)
  }

  lemma {:induction false} SpansSliceable(d: Delims, cells: seq<Cell>, ts: Tokens, i: nat)
    requires ValidDelims(d) && Tiles(ts, i, |cells|) && Sound(d, cells, ts) && Sliceable(d, cells, i)
    ensures forall k :: 0 <= k < |Spans(ts, i)| ==> SpanSliceable(d, cells, Spans(ts, i)[k])
    decreases Count(ts)
  {
    WsEndSliceable(d, cells, ts, i);
    WsTiles(ts, i, |cells|);
    var s, a := SkipWs(ts), WsEnd(ts, i);
    if s.Tok? {
      RunEndIsSliceable(d, cells, s, a);
      RunTiles(cells, s, a);
      var r, b := AfterRun(s), RunEnd(s, a);
      SkippedSliceable(d, cells, r, b);
      DelimiterTiles(r, b, |cells|);
      ReadShrinks(ts);
      SpansSliceable(d, cells, SkipDelimiter(r), DelimiterEnd(r, b));
    }
  }

  /** Splitting a whole field gives whole fields: no character is cut. */
  lemma SplitFieldsWhole(d: Delims, f: Field, k: nat)
    requires WholeDelims(d) && Whole(f.cells) && k < |SplitOne(d, f)|
    ensures Whole(SplitOne(d, f)[k].cells)
  {
    SplitConserves(d, f);
    var spans := FieldSpans(d, f);
    if f.cells != [] || !f.wasQuoted {
      var ts := Tokenize(d, f, 0, 0);
      TokenizeTiles(d, f, 0, 0);
      TokenizeSound(d, f, 0, 0);
      SpansSliceable(d, f.cells, ts, 0);
      assert SpanSliceable(d, f.cells, spans[k]);
    }
    SliceWhole(f.cells, spans[k].from, spans[k].to);
  }
}
