/** Field splitting as POSIX.1-2024 XCU section 2.6.5 reads: a field's bytes
    become a list of tokens, and the token list is cut into fields. */
module SplitSpec {
  import opened Prelude
  import opened Fields

  // ----- delimiters -----

  datatype Class = NotDelim | WsDelim | NwsDelim | MbLead

  /** A class for every byte value, and the non-ASCII delimiters in the order
      they are tried. */
  datatype Delims = Delims(table: seq<Class>, multi: seq<Text>)

  predicate NoneEmpty(multi: seq<Text>) { forall k :: 0 <= k < |multi| ==> multi[k] != [] }

  predicate ValidDelims(d: Delims) { |d.table| == 256 && NoneEmpty(d.multi) }

  /** `m` stands at `i` and no byte of it after the first is protected. */
  predicate MatchesAt(cells: seq<Cell>, i: nat, m: Text) {
    i + |m| <= |cells| && forall j :: i <= j < i + |m| ==> cells[j].b == m[j - i] && (j > i ==> !cells[j].split)
  }

  /** Length of the first entry of `multi` that matches at `i`; 0 if none does. */
  function FirstMatch(multi: seq<Text>, cells: seq<Cell>, i: nat): (n: nat)
    ensures i <= |cells| ==> i + n <= |cells|
  {
    if multi == [] then 0
    else if MatchesAt(cells, i, multi[0]) then |multi[0]|
    else FirstMatch(multi[1..], cells, i)
  }

  lemma {:induction false} FirstMatchFinds(multi: seq<Text>, cells: seq<Cell>, i: nat)
    requires NoneEmpty(multi)
    ensures FirstMatch(multi, cells, i) > 0 <==> exists k :: 0 <= k < |multi| && MatchesAt(cells, i, multi[k])
    ensures var n := FirstMatch(multi, cells, i);
            n > 0 ==> exists k :: 0 <= k < |multi| && MatchesAt(cells, i, multi[k]) && |multi[k]| == n
                                  && forall j :: 0 <= j < k ==> !MatchesAt(cells, i, multi[j])
  {
    if multi != [] {
      if MatchesAt(cells, i, multi[0]) {
      } else {
        var rest := multi[1..];
        FirstMatchFinds(rest, cells, i);
        forall k | 0 <= k < |multi| ensures k > 0 ==> multi[k] == rest[k - 1] {}
        if FirstMatch(rest, cells, i) > 0 {
          var k :| 0 <= k < |rest| && MatchesAt(cells, i, rest[k]) && |rest[k]| == FirstMatch(rest, cells, i)
                   && forall j :: 0 <= j < k ==> !MatchesAt(cells, i, rest[j]);
          assert MatchesAt(cells, i, multi[k + 1]);
        }
      }
    }
  }

  /** `Delims::class`: the class of the text at byte `i` and its length. */
  function ClassAt(d: Delims, cells: seq<Cell>, i: nat): (r: (Class, nat))
    requires ValidDelims(d) && i < |cells|
    ensures r.0 != MbLead && 1 <= r.1 <= |cells| - i
  {
    var c := d.table[cells[i].b];
    if c == NotDelim || cells[i].split then (NotDelim, 1)
    else if c == MbLead then
      var n := FirstMatch(d.multi, cells, i);
      if n == 0 then (NotDelim, 1) else (NwsDelim, n)
    else (c, 1)
  }

  /** No byte of a delimiter is protected. */
  lemma DelimiterUnprotected(d: Delims, cells: seq<Cell>, i: nat)
    requires ValidDelims(d) && i < |cells| && IsDelimAt(d, cells, i)
    ensures forall k :: i <= k < i + ClassAt(d, cells, i).1 ==> !cells[k].split
  {
    FirstMatchFinds(d.multi, cells, i);
    var n := ClassAt(d, cells, i).1;
    if n > 1 {
      var k :| 0 <= k < |d.multi| && MatchesAt(cells, i, d.multi[k]) && |d.multi[k]| == n;
    }
  }

  predicate IsDelimAt(d: Delims, cells: seq<Cell>, i: nat)
    requires ValidDelims(d) && i < |cells|
  {
    ClassAt(d, cells, i).0 != NotDelim
  }

  // ----- tokens -----

  /** Stretches of the input, in order. A `Mark` is a quoted empty string: it
      has no width. */
  datatype Token = Ws(from: nat, to: nat) | Nws(from: nat, to: nat) | Mark(at: nat) | Byte(at: nat) {
    predicate Delimiter() { Ws? || Nws? }
    function Start(): nat { match this case Ws(a, _) => a case Nws(a, _) => a case Mark(a) => a case Byte(a) => a }
    function End(): nat { match this case Ws(_, b) => b case Nws(_, b) => b case Mark(a) => a case Byte(a) => a + 1 }
  }

  datatype Tokens = End | Tok(head: Token, tail: Tokens)

  function Count(ts: Tokens): nat { match ts case End => 0 case Tok(_, rest) => 1 + Count(rest) }

  /** The tokens from byte `i` on, `q` quoted empty strings having been passed.
      One that sits inside a multi-byte delimiter comes just after it. */
  function Tokenize(d: Delims, f: Field, i: nat, q: nat): Tokens
    requires ValidDelims(d) && i <= |f.cells| && q <= |f.emptyQuotes|
    decreases |f.cells| - i, |f.emptyQuotes| - q
  {
    if q < |f.emptyQuotes| && f.emptyQuotes[q] <= i then Tok(Mark(i), Tokenize(d, f, i, q + 1))
    else if i == |f.cells| then End
    else
      var (c, n) := ClassAt(d, f.cells, i);
      if c == NotDelim then Tok(Byte(i), Tokenize(d, f, i + 1, q))
      else Tok(if c == WsDelim then Ws(i, i + n) else Nws(i, i + n), Tokenize(d, f, i + n, q))
  }

  // ----- the reading -----

  function SkipWs(ts: Tokens): Tokens {
    if ts.Tok? && ts.head.Ws? then SkipWs(ts.tail) else ts
  }

  /** One delimiter: IFS white space, or one other delimiter with the white
      space before it. */
  function SkipDelimiter(ts: Tokens): Tokens {
    var r := SkipWs(ts);
    if r.Tok? && r.head.Nws? then r.tail else r
  }

  /** The tokens from the next delimiter on: what follows a run. */
  function AfterRun(ts: Tokens): Tokens {
    if ts.End? || ts.head.Delimiter() then ts else AfterRun(ts.tail)
  }

  /** The bytes of the run at the front. */
  function RunContents(cells: seq<Cell>, ts: Tokens): seq<Cell> {
    if ts.End? || ts.head.Delimiter() then []
    else (if ts.head.Byte? && ts.head.at < |cells| then [cells[ts.head.at]] else []) + RunContents(cells, ts.tail)
  }

  lemma {:induction false} SkipWsShrinks(ts: Tokens)
    ensures Count(SkipWs(ts)) <= Count(ts)
    ensures SkipWs(ts).Tok? ==> !SkipWs(ts).head.Ws?
  {
    if ts.Tok? && ts.head.Ws? { SkipWsShrinks(ts.tail); }
  }

  lemma {:induction false} AfterRunShrinks(ts: Tokens)
    ensures Count(AfterRun(ts)) <= Count(ts)
    ensures ts.Tok? && !ts.head.Delimiter() ==> Count(AfterRun(ts)) < Count(ts)
  {
    if ts.Tok? && !ts.head.Delimiter() { AfterRunShrinks(ts.tail); }
  }

  /** Reading one field and its delimiter consumes a token. */
  lemma ReadShrinks(ts: Tokens)
    requires SkipWs(ts).Tok?
    ensures Count(SkipDelimiter(AfterRun(SkipWs(ts)))) < Count(ts)
  {
    SkipWsShrinks(ts);
    AfterRunShrinks(SkipWs(ts));
    SkipWsShrinks(AfterRun(SkipWs(ts)));
  }

  predicate AnyQuoted(cells: seq<Cell>) { exists i :: 0 <= i < |cells| && cells[i].split && cells[i].glob }

  /** A field with these bytes; `marked` when it counts as quoted even if none
      of them is. */
  function KeptField(marked: bool, content: seq<Cell>): Field {
    Field(content, marked || AnyQuoted(content), None, AnyQuoted(content), [])
  }

  /** Drop leading IFS white space, take a run, drop one delimiter, repeat. The
      field is kept even when empty if the run is empty by its delimiters or
      starts with a quoted empty string. */
  function ReadFields(cells: seq<Cell>, ts: Tokens): seq<Field>
    decreases Count(ts)
  {
    match SkipWs(ts)
    case End => []
    case Tok(t, rest) =>
      var s := Tok(t, rest);
      ReadShrinks(ts);
      [KeptField(!t.Byte?, RunContents(cells, s))] + ReadFields(cells, SkipDelimiter(AfterRun(s)))
  }

  const QUOTED_EMPTY := EMPTY_FIELD.(wasQuoted := true)

  /** One input field. */
  function SplitOne(d: Delims, f: Field): seq<Field>
    requires ValidDelims(d)
  {
    if f.cells == [] && f.wasQuoted then [QUOTED_EMPTY]
    else ReadFields(f.cells, Tokenize(d, f, 0, 0))
  }

  function SplitEach(d: Delims, fs: seq<Field>): seq<Field>
    requires ValidDelims(d)
  {
    if fs == [] then [] else SplitOne(d, fs[0]) + SplitEach(d, fs[1..])
  }

  predicate NeedsSplitting(d: Delims, f: Field)
    requires ValidDelims(d)
  {
    exists i :: 0 <= i < |f.cells| && IsDelimAt(d, f.cells, i)
  }

  predicate Kept(f: Field) { f.cells != [] || f.wasQuoted }

  function KeepFields(fs: seq<Field>): seq<Field> {
    if fs == [] then [] else (if Kept(fs[0]) then [fs[0]] else []) + KeepFields(fs[1..])
  }

  /** The whole stage: nothing is split by an empty IFS, and a list none of
      whose fields holds a delimiter is passed through. */
  function Split(ifsEmpty: bool, d: Delims, fs: seq<Field>): seq<Field>
    requires ValidDelims(d)
  {
    if ifsEmpty then KeepFields(fs)
    else if forall f :: f in fs ==> !NeedsSplitting(d, f) then fs
    else SplitEach(d, fs)
  }

  /** Quote removal. */
  function Texts(fs: seq<Field>): (r: seq<Text>)
    ensures |r| == |fs|
  {
    seq(|fs|, i requires 0 <= i < |fs| => Bytes(fs[i].cells))
  }

  // ----- a run that is still open -----

  /** The fields from an open field and the tokens after it. */
  function FinishRun(cells: seq<Cell>, marked: bool, content: seq<Cell>, ts: Tokens): seq<Field> {
    [KeptField(marked, content + RunContents(cells, ts))] + ReadFields(cells, SkipDelimiter(AfterRun(ts)))
  }

  /** Going from `before` to `after` puts `content` into the open run. */
  predicate Passes(cells: seq<Cell>, before: Tokens, after: Tokens, content: seq<Cell>) {
    RunContents(cells, before) == content + RunContents(cells, after) && AfterRun(before) == AfterRun(after)
  }

  lemma PassToken(cells: seq<Cell>, t: Token, ts: Tokens)
    requires !t.Delimiter()
    ensures t.Mark? ==> Passes(cells, Tok(t, ts), ts, []) && Passes(cells, ts, Tok(t, ts), [])
    ensures t.Byte? && t.at < |cells| ==> Passes(cells, Tok(t, ts), ts, [cells[t.at]])
  {
  }

  lemma PassBoth(cells: seq<Cell>, a: Tokens, b: Tokens, c: Tokens, x: seq<Cell>, y: seq<Cell>)
    requires Passes(cells, a, b, x) && Passes(cells, b, c, y)
    ensures Passes(cells, a, c, x + y)
  {
    assert x + (y + RunContents(cells, c)) == x + y + RunContents(cells, c);
  }

  lemma OpenRun(cells: seq<Cell>, ts: Tokens)
    requires ts.Tok? && !ts.head.Delimiter()
    ensures ReadFields(cells, ts) == FinishRun(cells, ts.head.Mark?, [], ts)
  {
    assert [] + RunContents(cells, ts) == RunContents(cells, ts);
  }

  lemma CloseRun(cells: seq<Cell>, marked: bool, content: seq<Cell>, ts: Tokens)
    requires ts.End? || ts.head.Delimiter()
    ensures FinishRun(cells, marked, content, ts) == [KeptField(marked, content)] + ReadFields(cells, SkipDelimiter(ts))
  {
    assert content + RunContents(cells, ts) == content;
  }

  lemma FinishPass(cells: seq<Cell>, marked: bool, content: seq<Cell>, before: Tokens, after: Tokens, more: seq<Cell>)
    requires Passes(cells, before, after, more)
    ensures FinishRun(cells, marked, content, before) == FinishRun(cells, marked, content + more, after)
  {
    assert content + (more + RunContents(cells, after)) == content + more + RunContents(cells, after);
  }

  /** The field under construction after more bytes. */
  function Extended(f: Field, more: seq<Cell>): Field {
    f.(cells := f.cells + more,
       wasQuoted := f.wasQuoted || AnyQuoted(more),
       quotedContent := f.quotedContent || AnyQuoted(more))
  }

  lemma ExtendKept(marked: bool, content: seq<Cell>, more: seq<Cell>)
    ensures Extended(KeptField(marked, content), more) == KeptField(marked, content + more)
  {
    var all := content + more;
    assert forall k :: 0 <= k < |content| ==> all[k] == content[k];
    assert forall k :: 0 <= k < |more| ==> all[|content| + k] == more[k];
  }
}
