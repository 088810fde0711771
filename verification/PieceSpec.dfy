/** Field splitting over bytes: what an unquoted value splits into, by recursion
    on the value and the bytes of IFS alone. */
module PieceSpec {
  import opened Prelude
  import opened Utf8
  import opened ByteEnc
  import opened Fields
  import opened SplitSpec
  import opened Ifs

  // ----- the pieces of a text -----

  /** What separates fields: white space, and the length of the other separator
      that stands at a byte of a text, 0 without one. */
  datatype Seps = Seps(blank: byte -> bool, mark: (Text, nat) -> nat)

  predicate StopsAt(p: Seps, t: Text, i: nat)
    requires i < |t|
  {
    p.blank(t[i]) || p.mark(t, i) > 0
  }

  /** Where the white space from `i` on ends. */
  function PastBlanks(p: Seps, t: Text, i: nat): (j: nat)
    requires i <= |t|
    ensures i <= j <= |t| && (j < |t| ==> !p.blank(t[j]))
    decreases |t| - i
  {
    if i < |t| && p.blank(t[i]) then PastBlanks(p, t, i + 1) else i
  }

  /** Where the run without separators from `i` on ends. */
  function PastRun(p: Seps, t: Text, i: nat): (j: nat)
    requires i <= |t|
    ensures i <= j <= |t| && (j < |t| ==> StopsAt(p, t, j))
    decreases |t| - i
  {
    if i < |t| && !StopsAt(p, t, i) then PastRun(p, t, i + 1) else i
  }

  /** Where one delimiter from `i` on ends: white space, and at most one other
      separator with the white space before it. */
  function PastDelim(p: Seps, t: Text, i: nat): (j: nat)
    requires i <= |t|
    ensures i <= j <= |t| && (i < |t| && StopsAt(p, t, i) ==> i < j)
  {
    var k := PastBlanks(p, t, i);
    if k == |t| then k else if k + p.mark(t, k) <= |t| then k + p.mark(t, k) else |t|
  }

  /** The fields of an unquoted `t` from `i` on, with the quoted text `tail`, if
      there is one, right behind it. */
  function PiecesFrom(p: Seps, t: Text, i: nat, tail: Option<Text>): seq<Text>
    requires i <= |t|
    decreases |t| - i
  {
    var a := PastBlanks(p, t, i);
    if a == |t| then if tail.Some? then [tail.value] else [] else RunPieces(p, t, a, PastRun(p, t, a), tail)
  }

  /** A field that starts at `a` and runs up to `b`, and those behind it. */
  function RunPieces(p: Seps, t: Text, a: nat, b: nat, tail: Option<Text>): seq<Text>
    requires a <= b <= |t| && (a < b || (b < |t| && StopsAt(p, t, b)))
    decreases |t| - a, 0
  {
    if b == |t| then [t[a..] + TailText(tail)] else [t[a..b]] + PiecesFrom(p, t, PastDelim(p, t, b), tail)
  }

  function TailText(tail: Option<Text>): Text { if tail.Some? then tail.value else [] }

  // ----- the separators that IFS stands for -----

  /** The length of the longest of these that `t` starts with, 0 without one. */
  function Longest(ms: seq<Text>, t: Text): (n: nat)
    ensures n <= |t|
  {
    if ms == [] then 0 else
      var n, m := Longest(ms[..|ms| - 1], t), ms[|ms| - 1];
      if m <= t && |m| > n then |m| else n
  }

  predicate IsBlank(ifs: Str, b: byte) { b in AsBytes(ifs) && b in [0x20, 0x09, 0x0A] }

  /** The length of the IFS character `t` starts with, white space aside. */
  function MarkLen(ifs: Str, t: Text): (n: nat)
    ensures n <= |t|
  {
    if t == [] then 0
    else if t[0] < 0x80 then if t[0] in AsBytes(ifs) && !IsBlank(ifs, t[0]) then 1 else 0
    else Longest(Spellings(Units(Decoded(ifs))), t)
  }

  function SepsOf(ifs: Str): Seps {
    Seps((b: byte) => IsBlank(ifs, b), (t: Text, i: nat) => if i <= |t| then MarkLen(ifs, t[i..]) else 0)
  }

  /** The fields an unquoted value splits into. */
  function Pieces(ifs: Str, t: Text): seq<Text> { PiecesFrom(SepsOf(ifs), t, 0, None) }

  /** The same with quoted text around it: right before, which makes a field even
      when it is empty, and behind if there is any. */
  function PiecesAround(p: Seps, head: Text, t: Text, tail: Option<Text>): seq<Text> {
    var all := head + t;
    var b := PastRun(p, all, |head|);
    if b == |all| then [all + TailText(tail)] else [all[..b]] + PiecesFrom(p, all, PastDelim(p, all, b), tail)
  }

  // ----- the class of what stands at a byte -----

  /** `t` stands unprotected at `i`, and what is behind it is protected. */
  predicate Stretch(cells: seq<Cell>, i: nat, t: Text) {
    && i + |t| <= |cells| && (i + |t| < |cells| ==> cells[i + |t|].split)
    && forall k :: 0 <= k < |t| ==> cells[i + k].b == t[k] && !cells[i + k].split
  }

  lemma StretchFrom(cells: seq<Cell>, i: nat, t: Text, n: nat)
    requires Stretch(cells, i, t) && n <= |t|
    ensures Stretch(cells, i + n, t[n..])
  {
  }

  lemma MatchIsPrefix(cells: seq<Cell>, i: nat, t: Text, m: Text)
    requires Stretch(cells, i, t) && m != [] && t != []
    ensures MatchesAt(cells, i, m) <==> m <= t
  {
    forall j | m <= t && i <= j < i + |m| ensures cells[j].b == m[j - i] && !cells[j].split {
      assert cells[i + (j - i)] == cells[j] && t[j - i] == m[j - i];
    }
    if MatchesAt(cells, i, m) {
      assert forall j :: i < j < i + |m| ==> !cells[j].split;
      assert forall k :: 0 <= k < |m| ==> cells[i + k].b == t[k];
    }
  }

  lemma {:induction false} LongestIs(ms: seq<Text>, t: Text)
    ensures forall m :: m in ms && m <= t ==> |m| <= Longest(ms, t)
    ensures Longest(ms, t) > 0 ==> exists m :: m in ms && m <= t && |m| == Longest(ms, t)
  {
    if ms != [] {
      LongestIs(ms[..|ms| - 1], t);
      assert ms == ms[..|ms| - 1] + [ms[|ms| - 1]];
    }
  }

  /** Trying the spellings longest first finds the longest. */
  lemma FirstIsLongest(multi: seq<Text>, ms: seq<Text>, cells: seq<Cell>, i: nat, t: Text)
    requires LongestFirst(multi) && NoneEmpty(multi) && (forall m :: m in multi <==> m in ms)
    requires Stretch(cells, i, t) && t != []
    ensures FirstMatch(multi, cells, i) == Longest(ms, t)
  {
    forall k | 0 <= k < |multi| ensures MatchesAt(cells, i, multi[k]) <==> multi[k] <= t {
      MatchIsPrefix(cells, i, t, multi[k]);
    }
    var n := FirstMatch(multi, cells, i);
    FirstIsPrefix(multi, cells, i, t);
    LongestIs(ms, t);
    if Longest(ms, t) > 0 {
      var m :| m in ms && m <= t && |m| == Longest(ms, t);
      assert m in multi;
    }
    if n > 0 {
      var m :| m in multi && m <= t && |m| == n;
      assert m in ms;
    }
  }

  lemma FirstIsPrefix(multi: seq<Text>, cells: seq<Cell>, i: nat, t: Text)
    requires LongestFirst(multi) && NoneEmpty(multi)
    requires forall k :: 0 <= k < |multi| ==> (MatchesAt(cells, i, multi[k]) <==> multi[k] <= t)
    ensures var n := FirstMatch(multi, cells, i);
            && (n > 0 ==> exists m :: m in multi && m <= t && |m| == n)
            && forall m :: m in multi && m <= t ==> |m| <= n
  {
    FirstMatchFinds(multi, cells, i);
    var n := FirstMatch(multi, cells, i);
    if n > 0 {
      var k :| 0 <= k < |multi| && MatchesAt(cells, i, multi[k]) && |multi[k]| == n
               && forall j :: 0 <= j < k ==> !MatchesAt(cells, i, multi[j]);
      assert multi[k] in multi && multi[k] <= t;
    }
  }

  lemma {:induction false} AsciiDecodes(s: Str)
    requires IsAscii(AsBytes(s))
    ensures IsAscii(Decoded(s))
  {
    if s != [] {
      CharShape(s[0]);
      AsciiSplit(EncodeChar(s[0]), AsBytes(s[1..]));
      assert s[0] < 0x80 by { assert EncodeChar(s[0])[0] < 0x80; }
      AsciiDecodes(s[1..]);
      AsciiSplit(DecodedChar(s[0]), Decoded(s[1..]));
    }
  }

  /** The spellings tried are those of the characters of IFS. */
  lemma MultiIs(ifs: Str)
    ensures var ms, d := Spellings(Units(Decoded(ifs))), IfsDelims(ifs);
            && d.multi == SortLongest(ms) && LongestFirst(d.multi) && (forall m :: m in d.multi <==> m in ms)
            && HighLeads(d.multi) && ValidDelims(d)
  {
    var ms := Spellings(Units(Decoded(ifs)));
    if IsAscii(AsBytes(ifs)) {
      AsciiDecodes(ifs);
      AsciiUnits(Decoded(ifs));
    }
    SortKeeps(ms);
    SpellingsHigh(Units(Decoded(ifs)));
    SortedHigh(ms, SortLongest(ms));
  }

  lemma SortedHigh(ms: seq<Text>, multi: seq<Text>)
    requires HighLeads(ms) && forall m :: m in multi <==> m in ms
    ensures HighLeads(multi) && NoneEmpty(multi)
  {
    forall k | 0 <= k < |multi| ensures multi[k] != [] && multi[k][0] >= 0x80 {
      assert multi[k] in ms;
    }
  }

  /** What stands at the front of unprotected text: its class and length. */
  function StopAt(ifs: Str, t: Text): (Class, nat)
    requires t != []
  {
    if IsBlank(ifs, t[0]) then (WsDelim, 1)
    else if MarkLen(ifs, t) > 0 then (NwsDelim, MarkLen(ifs, t)) else (NotDelim, 1)
  }

  predicate HighLeads(multi: seq<Text>) { forall k :: 0 <= k < |multi| ==> multi[k] != [] && multi[k][0] >= 0x80 }

  predicate Leads(multi: seq<Text>, b: byte) { exists k :: 0 <= k < |multi| && multi[k] != [] && multi[k][0] == b }

  lemma EntryIs(bytes: Text, multi: seq<Text>, b: byte)
    requires HighLeads(multi)
    ensures TableEntry(bytes, multi, b) ==
            if b >= 0x80 then if Leads(multi, b) then MbLead else NotDelim
            else if b in bytes && b in [0x20, 0x09, 0x0A] then WsDelim else if b in bytes then NwsDelim else NotDelim
  {
  }

  lemma LowClass(d: Delims, ifs: Str, cells: seq<Cell>, i: nat, t: Text)
    requires Stretch(cells, i, t) && t != [] && t[0] < 0x80 && ValidDelims(d)
    requires HighLeads(d.multi) && d.table[t[0]] == TableEntry(AsBytes(ifs), d.multi, t[0])
    ensures ClassAt(d, cells, i) == StopAt(ifs, t)
  {
    EntryIs(AsBytes(ifs), d.multi, t[0]);
    assert cells[i + 0].b == t[0];
  }

  lemma HighClass(d: Delims, ms: seq<Text>, cells: seq<Cell>, i: nat, t: Text)
    requires Stretch(cells, i, t) && t != [] && ValidDelims(d)
    requires d.table[t[0]] == if Leads(d.multi, t[0]) then MbLead else NotDelim
    requires LongestFirst(d.multi) && (forall m :: m in d.multi <==> m in ms)
    ensures ClassAt(d, cells, i) == if Longest(ms, t) > 0 then (NwsDelim, Longest(ms, t)) else (NotDelim, 1)
  {
    assert cells[i + 0].b == t[0];
    FirstIsLongest(d.multi, ms, cells, i, t);
    if Longest(ms, t) > 0 {
      LongestIs(ms, t);
      var m :| m in ms && m <= t && |m| == Longest(ms, t);
      var k :| 0 <= k < |d.multi| && d.multi[k] == m;
      assert d.multi[k][0] == t[0];
    }
  }

  lemma ClassIs(ifs: Str, cells: seq<Cell>, i: nat, t: Text)
    requires Stretch(cells, i, t) && t != []
    ensures ValidDelims(IfsDelims(ifs)) && ClassAt(IfsDelims(ifs), cells, i) == StopAt(ifs, t)
  {
    var d := IfsDelims(ifs);
    MultiIs(ifs);
    EntryIs(AsBytes(ifs), d.multi, t[0]);
    assert d.table[t[0]] == TableEntry(AsBytes(ifs), d.multi, t[0]);
    if t[0] >= 0x80 {
      HighClass(d, Spellings(Units(Decoded(ifs))), cells, i, t);
      LowBlank(ifs, t[0]);
    } else {
      LowClass(d, ifs, cells, i, t);
    }
  }

  lemma LowBlank(ifs: Str, b: byte)
    requires b >= 0x80
    ensures !IsBlank(ifs, b)
  {
  }

  // ----- reading the tokens -----

  type Scan = nat -> Tokens

  /** The tokens from byte `i` of `t` on. */
  function TokenAt(p: Seps, toks: Scan, t: Text, i: nat): Tokens
    requires i < |t|
  {
    if p.blank(t[i]) then Tok(Ws(i, i + 1), toks(i + 1))
    else if p.mark(t, i) > 0 then Tok(Nws(i, i + p.mark(t, i)), toks(i + p.mark(t, i)))
    else Tok(Byte(i), toks(i + 1))
  }

  /** `toks(i)` are the tokens of the unprotected `t` from `i` on, and behind it
      no delimiter starts. */
  ghost predicate Scans(p: Seps, toks: Scan, t: Text, from: nat) {
    && from <= |t| && Ends(toks(|t|))
    && (forall i: nat {:trigger TokenAt(p, toks, t, i)} :: from <= i < |t| ==>
          toks(i) == TokenAt(p, toks, t, i) && i + p.mark(t, i) <= |t|)
  }

  /** No delimiter starts these tokens. */
  predicate Ends(ts: Tokens) { ts.End? || !ts.head.Delimiter() }

  lemma TokenHere(p: Seps, toks: Scan, t: Text, from: nat, i: nat)
    requires Scans(p, toks, t, from) && from <= i < |t|
    ensures toks(i) == TokenAt(p, toks, t, i) && i + p.mark(t, i) <= |t|
  {
  }

  lemma {:induction false} BlankTokens(p: Seps, toks: Scan, t: Text, from: nat, i: nat)
    requires Scans(p, toks, t, from) && from <= i <= |t|
    ensures SkipWs(toks(i)) == toks(PastBlanks(p, t, i))
    decreases |t| - i
  {
    if i < |t| {
      TokenHere(p, toks, t, from, i);
      if p.blank(t[i]) { BlankTokens(p, toks, t, from, i + 1); }
    }
  }

  lemma DelimTokens(p: Seps, toks: Scan, t: Text, from: nat, i: nat)
    requires Scans(p, toks, t, from) && from <= i <= |t|
    ensures SkipDelimiter(toks(i)) == toks(PastDelim(p, t, i))
  {
    BlankTokens(p, toks, t, from, i);
    var k := PastBlanks(p, t, i);
    if k < |t| { TokenHere(p, toks, t, from, k); }
  }

  lemma {:induction false} RunTokens(p: Seps, toks: Scan, cells: seq<Cell>, t: Text, from: nat, i: nat)
    requires Scans(p, toks, t, from) && from <= i <= |t| <= |cells|
    ensures var j := PastRun(p, t, i);
            && AfterRun(toks(i)) == AfterRun(toks(j))
            && RunContents(cells, toks(i)) == cells[i..j] + RunContents(cells, toks(j))
    decreases |t| - i
  {
    var j := PastRun(p, t, i);
    if i < j {
      TokenHere(p, toks, t, from, i);
      RunTokens(p, toks, cells, t, from, i + 1);
      CellsCons(cells, i, j, RunContents(cells, toks(j)));
    } else {
      assert cells[i..i] == [];
    }
  }

  lemma CellsCons(cells: seq<Cell>, i: nat, j: nat, rest: seq<Cell>)
    requires i < j <= |cells|
    ensures [cells[i]] + (cells[i + 1..j] + rest) == cells[i..j] + rest
  {
  }

  /** These tokens are one run with this text, or none. */
  predicate Closes(cells: seq<Cell>, ts: Tokens, tail: Option<Text>) {
    && AfterRun(ts).End? && (ts.End? <==> tail.None?) && Bytes(RunContents(cells, ts)) == TailText(tail)
  }

  lemma BytesConcat(a: seq<Cell>, b: seq<Cell>)
    ensures Bytes(a + b) == Bytes(a) + Bytes(b)
  {
  }

  /** The field begins with these bytes. */
  predicate Holds(cells: seq<Cell>, t: Text) {
    |t| <= |cells| && forall k :: 0 <= k < |t| ==> cells[k].b == t[k]
  }

  lemma HoldsSlice(cells: seq<Cell>, t: Text, i: nat, j: nat)
    requires Holds(cells, t) && i <= j <= |t|
    ensures Bytes(cells[i..j]) == t[i..j]
  {
  }

  /** The first run of some tokens that go on with those from `i` on. */
  lemma RunText(p: Seps, toks: Scan, cells: seq<Cell>, t: Text, from: nat, i: nat, tail: Option<Text>)
    requires Scans(p, toks, t, from) && from <= i <= |t| && Holds(cells, t) && Closes(cells, toks(|t|), tail)
    ensures var j, run := PastRun(p, t, i), Bytes(RunContents(cells, toks(i)));
            if j == |t| then AfterRun(toks(i)).End? && run == t[i..] + TailText(tail)
            else run == t[i..j] && SkipDelimiter(AfterRun(toks(i))) == toks(PastDelim(p, t, j))
  {
    var j := PastRun(p, t, i);
    RunTokens(p, toks, cells, t, from, i);
    BytesConcat(cells[i..j], RunContents(cells, toks(j)));
    HoldsSlice(cells, t, i, j);
    if j < |t| {
      TokenHere(p, toks, t, from, j);
      DelimTokens(p, toks, t, from, j);
      assert t[i..j] + [] == t[i..j];
    } else {
      assert t[i..j] == t[i..];
    }
  }

  lemma TextsCons(f: Field, fs: seq<Field>)
    ensures Texts([f] + fs) == [Bytes(f.cells)] + Texts(fs)
  {
  }

  lemma FirstRead(cells: seq<Cell>, ts: Tokens)
    requires ts.Tok? && !ts.head.Ws?
    ensures ReadFields(cells, ts)
         == [KeptField(!ts.head.Byte?, RunContents(cells, ts))] + ReadFields(cells, SkipDelimiter(AfterRun(ts)))
  {
  }

  lemma OneField(cells: seq<Cell>, ts: Tokens, rest: Tokens)
    requires ts.Tok? && !ts.head.Ws? && SkipDelimiter(AfterRun(ts)) == rest
    ensures Texts(ReadFields(cells, ts)) == [Bytes(RunContents(cells, ts))] + Texts(ReadFields(cells, rest))
  {
    FirstRead(cells, ts);
    TextsCons(KeptField(!ts.head.Byte?, RunContents(cells, ts)), ReadFields(cells, rest));
  }

  lemma SkippedWs(cells: seq<Cell>, ts: Tokens, us: Tokens)
    requires SkipWs(ts) == SkipWs(us)
    ensures ReadFields(cells, ts) == ReadFields(cells, us)
  {
  }

  /** What the tokens from `i` on read as is what `t` splits into from there. */
  lemma {:induction false} ReadPieces(p: Seps, toks: Scan, cells: seq<Cell>, t: Text, from: nat, i: nat,
                                      tail: Option<Text>)
    requires Scans(p, toks, t, from) && from <= i <= |t| && Holds(cells, t) && Closes(cells, toks(|t|), tail)
    ensures Texts(ReadFields(cells, toks(i))) == PiecesFrom(p, t, i, tail)
    decreases |t| - i, 1
  {
    var a := PastBlanks(p, t, i);
    BlankTokens(p, toks, t, from, i);
    BlankTokens(p, toks, t, from, a);
    SkippedWs(cells, toks(i), toks(a));
    if a < |t| {
      TokenHere(p, toks, t, from, a);
      ReadRun(p, toks, cells, t, from, a, toks(a), a, tail);
    } else if tail.Some? {
      OneField(cells, toks(a), End);
    }
  }

  /** The same for a run that starts at `a` and comes to `i`. */
  lemma {:induction false} ReadRun(p: Seps, toks: Scan, cells: seq<Cell>, t: Text, from: nat, a: nat, ts: Tokens,
                                   i: nat, tail: Option<Text>)
    requires Scans(p, toks, t, from) && from <= i <= |t| && Holds(cells, t) && Closes(cells, toks(|t|), tail)
    requires ts.Tok? && !ts.head.Ws? && AfterRun(ts) == AfterRun(toks(i)) && a <= i
    requires Bytes(RunContents(cells, ts)) == t[a..i] + Bytes(RunContents(cells, toks(i)))
    ensures Texts(ReadFields(cells, ts)) == var b := PastRun(p, t, i);
            if b == |t| then [t[a..] + TailText(tail)] else [t[a..b]] + PiecesFrom(p, t, PastDelim(p, t, b), tail)
    decreases |t| - i, 0
  {
    var b := PastRun(p, t, i);
    FirstField(p, toks, cells, t, from, a, ts, i, tail, b);
    if b < |t| { ReadPieces(p, toks, cells, t, from, PastDelim(p, t, b), tail); }
  }

  lemma FirstField(p: Seps, toks: Scan, cells: seq<Cell>, t: Text, from: nat, a: nat, ts: Tokens, i: nat,
                   tail: Option<Text>, b: nat)
    requires Scans(p, toks, t, from) && from <= i <= |t| && Holds(cells, t) && Closes(cells, toks(|t|), tail)
    requires ts.Tok? && !ts.head.Ws? && AfterRun(ts) == AfterRun(toks(i)) && a <= i && b == PastRun(p, t, i)
    requires Bytes(RunContents(cells, ts)) == t[a..i] + Bytes(RunContents(cells, toks(i)))
    ensures Texts(ReadFields(cells, ts)) ==
            if b == |t| then [t[a..] + TailText(tail)]
            else [t[a..b]] + Texts(ReadFields(cells, toks(PastDelim(p, t, b))))
  {
    RunText(p, toks, cells, t, from, i, tail);
    TwoSlices(t, a, i, b, TailText(tail));
    OneField(cells, ts, if b == |t| then End else toks(PastDelim(p, t, b)));
  }

  lemma TwoSlices(t: Text, a: nat, i: nat, b: nat, q: Text)
    requires a <= i <= b <= |t|
    ensures t[a..i] + t[i..b] == t[a..b] && t[a..i] + (t[i..] + q) == t[a..] + q
  {
  }

  // ----- fields -----

  predicate Protected(cells: seq<Cell>, i: nat, j: nat) { j <= |cells| && forall k :: i <= k < j ==> cells[k].split }

  predicate MarksUpTo(marks: seq<nat>, q: nat, i: nat) { q <= |marks| && forall k :: 0 <= k < q ==> marks[k] <= i }

  predicate MarksFrom(marks: seq<nat>, q: nat, i: nat) { q < |marks| ==> marks[q] >= i }

  /** Protected bytes and quoted empty strings are read into one run. */
  lemma {:induction false} HeldTokens(d: Delims, f: Field, i: nat, q: nat, j: nat, p: nat)
    requires ValidDelims(d) && i <= j && q <= p && Protected(f.cells, i, j)
    requires MarksUpTo(f.emptyQuotes, p, j) && MarksFrom(f.emptyQuotes, p, j)
    ensures var ts, us := Tokenize(d, f, i, q), Tokenize(d, f, j, p);
            && AfterRun(ts) == AfterRun(us) && RunContents(f.cells, ts) == f.cells[i..j] + RunContents(f.cells, us)
            && (i < j || q < p ==> ts.Tok? && !ts.head.Delimiter())
    decreases j - i, p - q
  {
    if q < p && f.emptyQuotes[q] <= i {
      HeldTokens(d, f, i, q + 1, j, p);
    } else if i < j {
      HeldTokens(d, f, i + 1, q, j, p);
      CellsCons(f.cells, i, j, RunContents(f.cells, Tokenize(d, f, j, p)));
    } else {
      assert f.cells[i..j] == [];
    }
  }

  /** The unquoted `v` behind `q` quoted empty strings and the quoted bytes of
      `head`, and before those of `tail`. */
  predicate Shape(f: Field, head: Text, q: nat, v: Text, tail: Option<Text>) {
    var h, e := |head|, |head| + |v|;
    && Bytes(f.cells) == head + v + TailText(tail)
    && Protected(f.cells, 0, h) && Protected(f.cells, e, |f.cells|) && (forall k :: h <= k < e ==> !f.cells[k].split)
    && MarksUpTo(f.emptyQuotes, q, h) && MarksFrom(f.emptyQuotes, q, e)
    && MarksUpTo(f.emptyQuotes, |f.emptyQuotes|, |f.cells|)
    && (tail.Some? <==> e < |f.cells| || q < |f.emptyQuotes|)
  }

  function ToksOf(d: Delims, f: Field, q: nat): Scan
    requires ValidDelims(d)
  {
    (i: nat) => if i <= |f.cells| && q <= |f.emptyQuotes| then Tokenize(d, f, i, q) else End
  }

  lemma ShapeHolds(f: Field, head: Text, q: nat, v: Text, tail: Option<Text>)
    requires Shape(f, head, q, v, tail)
    ensures Holds(f.cells, head + v) && Bytes(f.cells[|head + v|..]) == TailText(tail)
    ensures forall i :: |head| <= i < |head + v| ==> Stretch(f.cells, i, (head + v)[i..])
  {
    var all := head + v + TailText(tail);
    forall k | 0 <= k < |f.cells| ensures f.cells[k].b == all[k] { assert Bytes(f.cells)[k] == f.cells[k].b; }
  }

  /** These delimiters class the bytes of `t` from `from` on as `p` does. */
  ghost predicate Agree(d: Delims, p: Seps, cells: seq<Cell>, t: Text, from: nat) {
    && ValidDelims(d) && |t| <= |cells|
    && (forall i: nat {:trigger ClassAt(d, cells, i)} :: from <= i < |t| ==>
          ClassAt(d, cells, i) == if p.blank(t[i]) then (WsDelim, 1)
                                  else if p.mark(t, i) > 0 then (NwsDelim, p.mark(t, i)) else (NotDelim, 1))
    && (forall i: nat {:trigger p.mark(t, i)} :: from <= i < |t| ==> i + p.mark(t, i) <= |t|)
  }

  lemma IfsAgrees(ifs: Str, cells: seq<Cell>, t: Text, from: nat)
    requires |t| <= |cells| && forall i :: from <= i < |t| ==> Stretch(cells, i, t[i..])
    ensures Agree(IfsDelims(ifs), SepsOf(ifs), cells, t, from)
  {
    MultiIs(ifs);
    forall i: nat | from <= i < |t| ensures ClassAt(IfsDelims(ifs), cells, i) == StopAt(ifs, t[i..]) {
      ClassIs(ifs, cells, i, t[i..]);
    }
  }

  lemma FieldScan(d: Delims, p: Seps, f: Field, t: Text, q: nat, i: nat)
    requires Agree(d, p, f.cells, t, i) && i < |t| && q <= |f.emptyQuotes| && MarksFrom(f.emptyQuotes, q, |t|)
    ensures ToksOf(d, f, q)(i) == TokenAt(p, ToksOf(d, f, q), t, i) && i + p.mark(t, i) <= |t|
  {
    var c := ClassAt(d, f.cells, i);
  }

  lemma ShapeScans(d: Delims, p: Seps, f: Field, head: Text, q: nat, v: Text, tail: Option<Text>)
    requires Shape(f, head, q, v, tail) && Agree(d, p, f.cells, head + v, |head|)
    ensures Scans(p, ToksOf(d, f, q), head + v, |head|)
  {
    ShapeHolds(f, head, q, v, tail);
    var toks, t := ToksOf(d, f, q), head + v;
    forall i: nat | |head| <= i < |t|
      ensures toks(i) == TokenAt(p, toks, t, i) && i + p.mark(t, i) <= |t|
    {
      FieldScan(d, p, f, t, q, i);
    }
  }

  lemma ShapeCloses(d: Delims, f: Field, head: Text, q: nat, v: Text, tail: Option<Text>)
    requires Shape(f, head, q, v, tail) && ValidDelims(d)
    ensures Closes(f.cells, ToksOf(d, f, q)(|head + v|), tail)
  {
    ShapeHolds(f, head, q, v, tail);
    var e, n, m := |head + v|, |f.cells|, |f.emptyQuotes|;
    HeldTokens(d, f, e, q, n, m);
    assert Tokenize(d, f, n, m) == End;
    assert f.cells[e..n] + [] == f.cells[e..];
  }

  lemma HeadedPieces(d: Delims, p: Seps, f: Field, head: Text, q: nat, v: Text, tail: Option<Text>)
    requires Shape(f, head, q, v, tail) && Agree(d, p, f.cells, head + v, |head|) && (head != [] || q > 0)
    ensures Texts(ReadFields(f.cells, Tokenize(d, f, 0, 0))) == PiecesAround(p, head, v, tail)
  {
    var t, h := head + v, |head|;
    ShapeScans(d, p, f, head, q, v, tail);
    ShapeCloses(d, f, head, q, v, tail);
    ShapeHolds(f, head, q, v, tail);
    HeldTokens(d, f, 0, 0, h, q);
    BytesConcat(f.cells[0..h], RunContents(f.cells, Tokenize(d, f, h, q)));
    HoldsSlice(f.cells, t, 0, h);
    ReadRun(p, ToksOf(d, f, q), f.cells, t, h, 0, Tokenize(d, f, 0, 0), h, tail);
    var b := PastRun(p, t, h);
    assert t[0..b] == t[..b] && t[0..] == t;
  }

  /** A field of one unquoted text, quoted text around it or not, splits into
      the pieces of that text. */
  lemma SplitPieces(ifs: Str, f: Field, head: Text, q: nat, v: Text, tail: Option<Text>)
    requires Shape(f, head, q, v, tail) && (f.cells == [] && f.wasQuoted ==> q > 0 || tail.Some?)
    ensures ValidDelims(IfsDelims(ifs))
    ensures Texts(SplitOne(IfsDelims(ifs), f)) ==
            if head != [] || q > 0 then PiecesAround(SepsOf(ifs), head, v, tail)
            else PiecesFrom(SepsOf(ifs), v, 0, tail)
  {
    ShapeHolds(f, head, q, v, tail);
    IfsAgrees(ifs, f.cells, head + v, |head|);
    ShapePieces(IfsDelims(ifs), SepsOf(ifs), f, head, q, v, tail);
  }

  lemma ShapePieces(d: Delims, p: Seps, f: Field, head: Text, q: nat, v: Text, tail: Option<Text>)
    requires Shape(f, head, q, v, tail) && Agree(d, p, f.cells, head + v, |head|)
    requires f.cells == [] && f.wasQuoted ==> q > 0 || tail.Some?
    ensures Texts(SplitOne(d, f)) ==
            if head != [] || q > 0 then PiecesAround(p, head, v, tail) else PiecesFrom(p, v, 0, tail)
  {
    if f.cells == [] && f.wasQuoted {
      assert head + v == [];
    } else if head != [] || q > 0 {
      HeadedPieces(d, p, f, head, q, v, tail);
    } else {
      ShapeScans(d, p, f, head, q, v, tail);
      ShapeCloses(d, f, head, q, v, tail);
      ShapeHolds(f, head, q, v, tail);
      assert head + v == v;
      ReadPieces(p, ToksOf(d, f, 0), f.cells, v, 0, 0, tail);
    }
  }

  /** Unprotected bytes split into their pieces. */
  lemma UnquotedPieces(ifs: Str, f: Field, t: Text)
    requires f.cells == CellsOf(t, false, false) && f.emptyQuotes == [] && !f.wasQuoted
    ensures ValidDelims(IfsDelims(ifs)) && Texts(SplitOne(IfsDelims(ifs), f)) == Pieces(ifs, t)
  {
    assert Bytes(f.cells) == [] + t + [];
    SplitPieces(ifs, f, [], 0, t, None);
  }
}
