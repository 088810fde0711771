/** What field splitting promises, proved of the reading in `SplitSpec`. */
module SplitProps {
  import opened Prelude
  import opened Fields
  import opened SplitSpec

  // ----- tokens tile the input -----

  predicate Tiles(ts: Tokens, i: nat, len: nat) {
    match ts
    case End => i == len
    case Tok(t, rest) => t.Start() == i && (t.Mark? || i < t.End()) && t.End() <= len && Tiles(rest, t.End(), len)
  }

  /** Byte tokens stand where no delimiter starts, delimiter tokens where one does. */
  predicate Sound(d: Delims, cells: seq<Cell>, ts: Tokens)
    requires ValidDelims(d)
  {
    match ts
    case End => true
    case Tok(t, rest) =>
      && (t.Byte? ==> t.at < |cells| && !IsDelimAt(d, cells, t.at))
      && (t.Delimiter() ==> t.Start() < |cells| && IsDelimAt(d, cells, t.Start())
                            && t.End() == t.Start() + ClassAt(d, cells, t.Start()).1)
      && Sound(d, cells, rest)
  }

  lemma {:induction false} TokenizeTiles(d: Delims, f: Field, i: nat, q: nat)
    requires ValidDelims(d) && i <= |f.cells| && q <= |f.emptyQuotes|
    ensures Tiles(Tokenize(d, f, i, q), i, |f.cells|)
    decreases |f.cells| - i, |f.emptyQuotes| - q
  {
    if q < |f.emptyQuotes| && f.emptyQuotes[q] <= i {
      TokenizeTiles(d, f, i, q + 1);
    } else if i < |f.cells| {
      TokenizeTiles(d, f, i + ClassAt(d, f.cells, i).1, q);
    }
  }

  lemma {:induction false} TokenizeSound(d: Delims, f: Field, i: nat, q: nat)
    requires ValidDelims(d) && i <= |f.cells| && q <= |f.emptyQuotes|
    ensures Sound(d, f.cells, Tokenize(d, f, i, q))
    decreases |f.cells| - i, |f.emptyQuotes| - q
  {
    if q < |f.emptyQuotes| && f.emptyQuotes[q] <= i {
      TokenizeSound(d, f, i, q + 1);
    } else if i < |f.cells| {
      TokenizeSound(d, f, i + ClassAt(d, f.cells, i).1, q);
    }
  }

  /** `p` lies in a delimiter. */
  predicate InDelimiter(ts: Tokens, p: nat) {
    match ts
    case End => false
    case Tok(t, rest) => (t.Delimiter() && t.Start() <= p < t.End()) || InDelimiter(rest, p)
  }

  // ----- where each field lies -----

  datatype Span = Span(from: nat, to: nat)

  function WsEnd(ts: Tokens, i: nat): nat {
    if ts.Tok? && ts.head.Ws? then WsEnd(ts.tail, ts.head.End()) else i
  }

  function DelimiterEnd(ts: Tokens, i: nat): nat {
    var r := SkipWs(ts);
    if r.Tok? && r.head.Nws? then r.head.End() else WsEnd(ts, i)
  }

  function RunEnd(ts: Tokens, i: nat): nat {
    if ts.End? || ts.head.Delimiter() then i else RunEnd(ts.tail, ts.head.End())
  }

  /** The stretch of input each field of `ReadFields` is. */
  function Spans(ts: Tokens, i: nat): seq<Span>
    decreases Count(ts)
  {
    var s := SkipWs(ts);
    if s.End? then [] else
      ReadShrinks(ts);
      var a, r := WsEnd(ts, i), AfterRun(s);
      [Span(a, RunEnd(s, a))] + Spans(SkipDelimiter(r), DelimiterEnd(r, RunEnd(s, a)))
  }

  predicate InSpans(spans: seq<Span>, p: nat) {
    spans != [] && (spans[0].from <= p < spans[0].to || InSpans(spans[1..], p))
  }

  /** Spans in order, none before `i` or past `len`. */
  predicate InOrder(spans: seq<Span>, i: nat, len: nat) {
    if spans == [] then i <= len
    else i <= spans[0].from <= spans[0].to <= len && InOrder(spans[1..], spans[0].to, len)
  }

  lemma {:induction false} WsTiles(ts: Tokens, i: nat, len: nat)
    requires Tiles(ts, i, len)
    ensures i <= WsEnd(ts, i) <= len && Tiles(SkipWs(ts), WsEnd(ts, i), len)
    ensures forall p | i <= p < WsEnd(ts, i) :: InDelimiter(ts, p)
    ensures forall p | WsEnd(ts, i) <= p :: InDelimiter(ts, p) == InDelimiter(SkipWs(ts), p)
  {
    if ts.Tok? && ts.head.Ws? { WsTiles(ts.tail, ts.head.End(), len); } else { TilesBound(ts, i, len); }
  }

  lemma {:induction false} TilesBound(ts: Tokens, i: nat, len: nat)
    requires Tiles(ts, i, len)
    ensures i <= len && forall p: nat | p < i :: !InDelimiter(ts, p)
  {
    if ts.Tok? { TilesBound(ts.tail, ts.head.End(), len); }
  }

  lemma {:induction false} RunTiles(cells: seq<Cell>, ts: Tokens, i: nat)
    requires Tiles(ts, i, |cells|)
    ensures i <= RunEnd(ts, i) <= |cells| && Tiles(AfterRun(ts), RunEnd(ts, i), |cells|)
    ensures RunContents(cells, ts) == cells[i..RunEnd(ts, i)]
    ensures forall p | i <= p < RunEnd(ts, i) :: !InDelimiter(ts, p)
    ensures forall p | RunEnd(ts, i) <= p :: InDelimiter(ts, p) == InDelimiter(AfterRun(ts), p)
  {
    TilesBound(ts, i, |cells|);
    if ts.Tok? && !ts.head.Delimiter() {
      RunTiles(cells, ts.tail, ts.head.End());
      TilesBound(ts.tail, ts.head.End(), |cells|);
      if ts.head.Byte? {
        assert cells[i..RunEnd(ts, i)] == [cells[i]] + cells[i + 1..RunEnd(ts, i)];
      }
    }
  }

  lemma DelimiterTiles(ts: Tokens, i: nat, len: nat)
    requires Tiles(ts, i, len)
    ensures i <= DelimiterEnd(ts, i) <= len && Tiles(SkipDelimiter(ts), DelimiterEnd(ts, i), len)
    ensures forall p | i <= p < DelimiterEnd(ts, i) :: InDelimiter(ts, p)
    ensures forall p | DelimiterEnd(ts, i) <= p :: InDelimiter(ts, p) == InDelimiter(SkipDelimiter(ts), p)
  {
    WsTiles(ts, i, len);
    var r := SkipWs(ts);
    if r.Tok? && r.head.Nws? {
      TilesBound(r.tail, r.head.End(), len);
    }
  }

  /** The fields are in-order slices of the input, and exactly the delimiter
      bytes are missing. */
  lemma {:induction false} ReadFieldsAreSlices(cells: seq<Cell>, ts: Tokens, i: nat)
    requires Tiles(ts, i, |cells|)
    ensures var spans := Spans(ts, i);
            && |spans| == |ReadFields(cells, ts)| && InOrder(spans, i, |cells|)
            && (forall k :: 0 <= k < |spans| ==>
                  spans[k].from <= spans[k].to <= |cells| &&
                  ReadFields(cells, ts)[k].cells == cells[spans[k].from..spans[k].to])
            && forall p :: i <= p < |cells| ==> InSpans(spans, p) == !InDelimiter(ts, p)
    decreases Count(ts)
  {
    WsTiles(ts, i, |cells|);
    var s, a := SkipWs(ts), WsEnd(ts, i);
    if s.Tok? {
      RunTiles(cells, s, a);
      var r, b := AfterRun(s), RunEnd(s, a);
      DelimiterTiles(r, b, |cells|);
      ReadShrinks(ts);
      var rest, c := SkipDelimiter(r), DelimiterEnd(r, b);
      ReadFieldsAreSlices(cells, rest, c);
      var spans := Spans(ts, i);
      assert spans[1..] == Spans(rest, c);
      LaterSpans(Spans(rest, c), c, |cells|, b);
    }
  }

  /** Spans that start at `c` hold nothing before it. */
  lemma {:induction false} LaterSpans(spans: seq<Span>, c: nat, len: nat, b: nat)
    requires InOrder(spans, c, len) && b <= c
    ensures InOrder(spans, b, len) && forall p: nat | p < c :: !InSpans(spans, p)
  {
    if spans != [] { LaterSpans(spans[1..], spans[0].to, len, spans[0].to); }
  }

  // ----- what the delimiters are -----

  /** Byte `p` is in a delimiter that starts at it or before. */
  predicate DelimitedAt(d: Delims, cells: seq<Cell>, p: nat)
    requires ValidDelims(d) && p < |cells|
  {
    exists s :: 0 <= s <= p && IsDelimAt(d, cells, s) && p < s + ClassAt(d, cells, s).1
  }

  /** A byte in a delimiter is unprotected and one in none starts none. */
  lemma {:induction false} SoundTokens(d: Delims, cells: seq<Cell>, ts: Tokens, i: nat, p: nat)
    requires ValidDelims(d) && Tiles(ts, i, |cells|) && Sound(d, cells, ts) && i <= p < |cells|
    ensures InDelimiter(ts, p) ==>
            !cells[p].split && DelimitedAt(d, cells, p)
    ensures !InDelimiter(ts, p) ==> !IsDelimAt(d, cells, p)
    decreases ts
  {
    var t := ts.head;
    if p < t.End() {
      TilesBound(ts.tail, t.End(), |cells|);
      assert !InDelimiter(ts.tail, p);
      if t.Delimiter() {
        var s := t.Start();
        DelimiterUnprotected(d, cells, s);
        assert s <= p && IsDelimAt(d, cells, s) && p < s + ClassAt(d, cells, s).1;
      }
    } else {
      SoundTokens(d, cells, ts.tail, t.End(), p);
    }
  }

  /** Where the fields of `f` lie in it. */
  function FieldSpans(d: Delims, f: Field): seq<Span>
    requires ValidDelims(d)
  {
    if f.cells == [] && f.wasQuoted then [Span(0, 0)] else Spans(Tokenize(d, f, 0, 0), 0)
  }

  /** Splitting conserves text: the fields are disjoint slices of the input in
      order, with every byte's attributes, and exactly the bytes of delimiters,
      none of them protected, are missing. */
  lemma SplitConserves(d: Delims, f: Field)
    requires ValidDelims(d)
    ensures var spans, fs := FieldSpans(d, f), SplitOne(d, f);
            && |spans| == |fs| && InOrder(spans, 0, |f.cells|)
            && (forall k :: 0 <= k < |fs| ==>
                  spans[k].from <= spans[k].to <= |f.cells| && fs[k].cells == f.cells[spans[k].from..spans[k].to])
            && (forall p: nat :: p < |f.cells| && InSpans(spans, p) ==> !IsDelimAt(d, f.cells, p))
            && (forall p: nat :: p < |f.cells| && !InSpans(spans, p) ==>
                  !f.cells[p].split && DelimitedAt(d, f.cells, p))
  {
    if f.cells != [] || !f.wasQuoted {
      var ts := Tokenize(d, f, 0, 0);
      TokenizeTiles(d, f, 0, 0);
      TokenizeSound(d, f, 0, 0);
      ReadFieldsAreSlices(f.cells, ts, 0);
      forall p: nat | p < |f.cells|
        ensures InDelimiter(ts, p) ==>
                !f.cells[p].split && DelimitedAt(d, f.cells, p)
        ensures !InDelimiter(ts, p) ==> !IsDelimAt(d, f.cells, p)
      {
        SoundTokens(d, f.cells, ts, 0, p);
      }
    }
  }

  // ----- splitting again -----

  /** A slice holds no delimiter where the whole holds none. */
  lemma SliceHasNoDelimiter(d: Delims, cells: seq<Cell>, a: nat, b: nat, i: nat)
    requires ValidDelims(d) && a + i < b <= |cells| && !IsDelimAt(d, cells, a + i)
    ensures !IsDelimAt(d, cells[a..b], i)
  {
    var slice := cells[a..b];
    FirstMatchFinds(d.multi, cells, a + i);
    FirstMatchFinds(d.multi, slice, i);
    if FirstMatch(d.multi, slice, i) > 0 {
      var k :| 0 <= k < |d.multi| && MatchesAt(slice, i, d.multi[k]);
      assert forall j :: a + i <= j < a + i + |d.multi[k]| ==> cells[j] == slice[j - a];
      assert MatchesAt(cells, a + i, d.multi[k]);
    }
  }

  lemma {:induction false} SpanOfField(spans: seq<Span>, k: nat, p: nat)
    requires k < |spans| && spans[k].from <= p < spans[k].to
    ensures InSpans(spans, p)
  {
    if k > 0 { SpanOfField(spans[1..], k - 1, p); }
  }

  /** No field that splitting produces needs splitting. */
  lemma SplitFieldsAreDone(d: Delims, f: Field, k: nat)
    requires ValidDelims(d) && k < |SplitOne(d, f)|
    ensures !NeedsSplitting(d, SplitOne(d, f)[k])
  {
    SplitConserves(d, f);
    var span := FieldSpans(d, f)[k];
    forall p | span.from <= p < span.to ensures !IsDelimAt(d, f.cells, p) {
      SpanOfField(FieldSpans(d, f), k, p);
    }
    SliceDone(d, f.cells, span.from, span.to, SplitOne(d, f)[k]);
  }

  lemma SliceDone(d: Delims, cells: seq<Cell>, a: nat, b: nat, g: Field)
    requires ValidDelims(d) && a <= b <= |cells| && g.cells == cells[a..b]
    requires forall p :: a <= p < b ==> !IsDelimAt(d, cells, p)
    ensures !NeedsSplitting(d, g)
  {
    forall i | 0 <= i < |g.cells| ensures !IsDelimAt(d, g.cells, i) {
      SliceHasNoDelimiter(d, cells, a, b, i);
    }
  }

  lemma {:induction false} SplitEachDone(d: Delims, fs: seq<Field>)
    requires ValidDelims(d)
    ensures forall g :: g in SplitEach(d, fs) ==> !NeedsSplitting(d, g) && Kept(g)
  {
    if fs != [] {
      var one := SplitOne(d, fs[0]);
      forall k | 0 <= k < |one| ensures !NeedsSplitting(d, one[k]) && Kept(one[k]) {
        SplitFieldsAreDone(d, fs[0], k);
        SplitFieldsKept(d, fs[0]);
      }
      SplitEachDone(d, fs[1..]);
    }
  }

  /** Every field the machine emits is non-empty or counts as quoted. */
  lemma SplitFieldsKept(d: Delims, f: Field)
    requires ValidDelims(d)
    ensures forall k :: 0 <= k < |SplitOne(d, f)| ==> Kept(SplitOne(d, f)[k])
  {
    TokenizeTiles(d, f, 0, 0);
    ReadFieldsKept(f.cells, Tokenize(d, f, 0, 0), 0);
  }

  lemma {:induction false} ReadFieldsKept(cells: seq<Cell>, ts: Tokens, i: nat)
    requires Tiles(ts, i, |cells|)
    ensures forall k :: 0 <= k < |ReadFields(cells, ts)| ==> Kept(ReadFields(cells, ts)[k])
    decreases Count(ts)
  {
    WsTiles(ts, i, |cells|);
    var s, a := SkipWs(ts), WsEnd(ts, i);
    if s.Tok? {
      RunTiles(cells, s, a);
      DelimiterTiles(AfterRun(s), RunEnd(s, a), |cells|);
      ReadShrinks(ts);
      if s.head.Byte? { TilesBound(s.tail, s.head.End(), |cells|); }
      ReadFieldsKept(cells, SkipDelimiter(AfterRun(s)), DelimiterEnd(AfterRun(s), RunEnd(s, a)));
    }
  }

  lemma KeepCons(f: Field, rest: seq<Field>)
    ensures KeepFields([f] + rest) == if Kept(f) then [f] + KeepFields(rest) else KeepFields(rest)
    ensures Values([f] + rest) == [f.cells] + Values(rest)
  {
    assert ([f] + rest)[1..] == rest;
    assert [] + KeepFields(rest) == KeepFields(rest);
  }

  lemma {:induction false} KeepFieldsTwice(fs: seq<Field>)
    ensures KeepFields(KeepFields(fs)) == KeepFields(fs)
  {
    if fs != [] {
      KeepFieldsTwice(fs[1..]);
      assert fs == [fs[0]] + fs[1..];
      KeepCons(fs[0], fs[1..]);
      KeepCons(fs[0], KeepFields(fs[1..]));
    }
  }

  /** Splitting what has been split changes nothing. */
  lemma SplitTwice(ifsEmpty: bool, d: Delims, fs: seq<Field>)
    requires ValidDelims(d)
    ensures Split(ifsEmpty, d, Split(ifsEmpty, d, fs)) == Split(ifsEmpty, d, fs)
  {
    if ifsEmpty {
      KeepFieldsTwice(fs);
    } else {
      SplitEachDone(d, fs);
    }
  }

  // ----- the shortcut -----

  function Values(fs: seq<Field>): seq<seq<Cell>> {
    if fs == [] then [] else [fs[0].cells] + Values(fs[1..])
  }

  /** Without delimiters the machine emits the field it was given, if kept. */
  lemma UnsplitField(d: Delims, f: Field)
    requires ValidDelims(d) && WellFormed(f) && !NeedsSplitting(d, f)
    ensures Values(SplitOne(d, f)) == if Kept(f) then [f.cells] else []
    ensures forall g :: g in SplitOne(d, f) ==> Kept(g)
  {
    if f.cells != [] || !f.wasQuoted {
      var ts := Tokenize(d, f, 0, 0);
      TokenizeTiles(d, f, 0, 0);
      TokenizeSound(d, f, 0, 0);
      NoDelimiterTokens(d, f.cells, ts);
      if ts.Tok? {
        RunTiles(f.cells, ts, 0);
        assert ReadFields(f.cells, ts) == [KeptField(!ts.head.Byte?, f.cells[0..|f.cells|])] + ReadFields(f.cells, End);
        assert f.cells[0..|f.cells|] == f.cells;
        var kept := KeptField(!ts.head.Byte?, f.cells);
        KeepCons(kept, []);
        assert [kept] + [] == [kept];
      }
    }
  }

  lemma {:induction false} NoDelimiterTokens(d: Delims, cells: seq<Cell>, ts: Tokens)
    requires ValidDelims(d) && Sound(d, cells, ts)
    requires forall i :: 0 <= i < |cells| ==> !IsDelimAt(d, cells, i)
    ensures AfterRun(ts).End? && SkipWs(ts) == ts
  {
    if ts.Tok? { NoDelimiterTokens(d, cells, ts.tail); }
  }

  lemma {:induction false} KeepConcat(a: seq<Field>, b: seq<Field>)
    ensures KeepFields(a + b) == KeepFields(a) + KeepFields(b)
  {
    if a == [] {
      assert a + b == b;
    } else {
      KeepConcat(a[1..], b);
      ConcatHead(a, b);
      Assoc(if Kept(a[0]) then [a[0]] else [], KeepFields(a[1..]), KeepFields(b));
    }
  }

  lemma {:induction false} ValuesConcat(a: seq<Field>, b: seq<Field>)
    ensures Values(a + b) == Values(a) + Values(b)
  {
    if a == [] {
      assert a + b == b;
    } else {
      ValuesConcat(a[1..], b);
      ConcatHead(a, b);
      Assoc([a[0].cells], Values(a[1..]), Values(b));
    }
  }

  /** Passing the list through instead of splitting gives the same bytes and
      attributes once empty unquoted fields are dropped. */
  lemma {:induction false} ShortcutAgrees(d: Delims, fs: seq<Field>)
    requires ValidDelims(d)
    requires forall f :: f in fs ==> WellFormed(f) && !NeedsSplitting(d, f)
    ensures Values(KeepFields(SplitEach(d, fs))) == Values(KeepFields(fs))
  {
    if fs != [] {
      UnsplitField(d, fs[0]);
      ShortcutAgrees(d, fs[1..]);
      var one := SplitOne(d, fs[0]);
      KeepAll(one);
      KeepConcat(one, SplitEach(d, fs[1..]));
      ValuesConcat(one, KeepFields(SplitEach(d, fs[1..])));
      assert fs == [fs[0]] + fs[1..];
      KeepCons(fs[0], fs[1..]);
      KeepCons(fs[0], KeepFields(fs[1..]));
    }
  }

  lemma {:induction false} KeepAll(fs: seq<Field>)
    requires forall g :: g in fs ==> Kept(g)
    ensures KeepFields(fs) == fs
  {
    if fs != [] { KeepAll(fs[1..]); }
  }
}
