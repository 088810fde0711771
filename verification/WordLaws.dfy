/** What words expand to, as texts: unquoted values are split and matched
    against pathnames, quoted ones are not. */
module WordLaws {
  import opened Prelude
  import opened Utf8
  import opened Fields
  import opened SplitSpec
  import opened SplitProps
  import opened Ifs
  import opened PieceSpec
  import opened PieceLaws
  import FieldSplit
  import opened Pathname
  import opened ExpandSpec
  import opened ScalarProps
  import opened WordProps

  // ----- pathname expansion of a piece -----

  /** An unquoted text that pathname expansion takes for a pattern. */
  predicate IsPattern(t: Text) { HasGlob(CellsOf(t, false, false)) }

  /** `*`, `?`, or a bracket expression that closes: with a member, which a
      leading `!` is not. */
  lemma PatternIs(t: Text)
    ensures IsPattern(t) <==> exists i :: 0 <= i < |t| && (t[i] == STAR || t[i] == QUESTION || Bracket(t, i))
  {
    var cells := CellsOf(t, false, false);
    forall i | 0 <= i < |t| && t[i] == OPEN_BRACKET ensures Bracket(t, i) <==> BracketCloses(cells, i) {
      var from := CloserFrom(cells, i);
      if BracketCloses(cells, i) {
        var k :| from <= k < |cells| && cells[k].b == CLOSE_BRACKET;
        assert ClosesAt(t, i, k);
      }
      if Bracket(t, i) {
        var k :| 0 <= k < |t| && ClosesAt(t, i, k);
        assert from <= k < |cells| && cells[k].b == CLOSE_BRACKET && !cells[k].glob;
      }
    }
    forall i | 0 <= i < |t| ensures GlobAt(cells, i) <==> t[i] == STAR || t[i] == QUESTION || Bracket(t, i) {
      assert cells[i].b == t[i];
    }
  }

  predicate ClosesAt(t: Text, i: nat, k: nat)
    requires k < |t|
  {
    t[k] == CLOSE_BRACKET && i + 2 <= k && (t[i + 1] == BANG ==> i + 3 <= k)
  }

  predicate Bracket(t: Text, i: nat)
    requires i < |t|
  {
    t[i] == OPEN_BRACKET && exists k :: 0 <= k < |t| && ClosesAt(t, i, k)
  }

  /** Each text, or what it matches as a pattern. */
  function GlobTexts(o: Oracle, env: Env, ts: seq<Text>): seq<Text> {
    if ts == [] then [] else GlobTexts(o, env, ts[..|ts| - 1]) + GlobText(o, env, ts[|ts| - 1])
  }

  function GlobText(o: Oracle, env: Env, t: Text): seq<Text> {
    if !o.noglob && IsPattern(t) && o.glob(env, t) != [] then NonEmpty(o.glob(env, t)) else [t]
  }

  lemma {:induction false} GlobOff(o: Oracle, env: Env, ts: seq<Text>)
    requires o.noglob
    ensures GlobTexts(o, env, ts) == ts
  {
    if ts != [] { GlobOff(o, env, ts[..|ts| - 1]); }
  }

  lemma {:induction false} PlainPattern(t: Text)
    ensures EscapedPattern(CellsOf(t, false, false)) == t
  {
    if t != [] {
      PlainPattern(t[..|t| - 1]);
      assert CellsOf(t, false, false)[..|t| - 1] == CellsOf(t[..|t| - 1], false, false);
      assert t[..|t| - 1] + [t[|t| - 1]] == t;
    }
  }

  function PlainCells(ts: seq<Text>): (r: seq<seq<Cell>>)
    ensures |r| == |ts|
  {
    seq(|ts|, i requires 0 <= i < |ts| => CellsOf(ts[i], false, false))
  }

  lemma PlainText(o: Oracle, env: Env, t: Text)
    ensures CellTexts(o, env, CellsOf(t, false, false)) == GlobText(o, env, t)
  {
    PlainPattern(t);
    assert Bytes(CellsOf(t, false, false)) == t;
  }

  lemma {:induction false} PlainTexts(o: Oracle, env: Env, ts: seq<Text>)
    ensures AllTexts(o, env, PlainCells(ts)) == GlobTexts(o, env, ts)
  {
    if ts != [] {
      PlainTexts(o, env, ts[..|ts| - 1]);
      PlainText(o, env, ts[|ts| - 1]);
      assert PlainCells(ts)[..|ts| - 1] == PlainCells(ts[..|ts| - 1]);
    }
  }

  // ----- splitting unquoted fields -----

  /** A field of nothing but the unquoted `t`. */
  predicate Unquoted(f: Field, t: Text) {
    f.cells == CellsOf(t, false, false) && f.emptyQuotes == [] && !f.wasQuoted && !f.quotedContent
  }

  lemma {:induction false} ValuesAre(fs: seq<Field>, values: seq<seq<Cell>>)
    requires |fs| == |values| && forall k :: 0 <= k < |fs| ==> fs[k].cells == values[k]
    ensures Values(fs) == values
  {
    if fs != [] {
      ValuesAre(fs[1..], values[1..]);
      assert [values[0]] + values[1..] == values;
    }
  }

  /** Slices of unprotected cells are unprotected. */
  lemma UnquotedValues(ifs: Str, f: Field, t: Text)
    requires Unquoted(f, t)
    ensures ValidDelims(IfsDelims(ifs)) && Values(SplitOne(IfsDelims(ifs), f)) == PlainCells(Pieces(ifs, t))
  {
    UnquotedPieces(ifs, f, t);
    var fs := SplitOne(IfsDelims(ifs), f);
    SplitConserves(IfsDelims(ifs), f);
    forall k | 0 <= k < |fs| ensures fs[k].cells == CellsOf(Pieces(ifs, t)[k], false, false) {
      assert Texts(fs)[k] == Bytes(fs[k].cells);
      PlainSlice(fs[k].cells, Texts(fs)[k]);
    }
    ValuesAre(fs, PlainCells(Pieces(ifs, t)));
  }

  lemma PlainSlice(cells: seq<Cell>, t: Text)
    requires Bytes(cells) == t && forall k :: 0 <= k < |cells| ==> !cells[k].split && !cells[k].glob
    ensures cells == CellsOf(t, false, false)
  {
    forall k | 0 <= k < |cells| ensures cells[k] == CellsOf(t, false, false)[k] {
      assert Bytes(cells)[k] == cells[k].b;
    }
  }

  /** The pieces of each text in turn. */
  function PiecesEach(ifs: Str, ts: seq<Text>): seq<Text> {
    if ts == [] then [] else Pieces(ifs, ts[0]) + PiecesEach(ifs, ts[1..])
  }

  predicate EachUnquoted(fs: seq<Field>, ts: seq<Text>) {
    |fs| == |ts| && forall k :: 0 <= k < |fs| ==> Unquoted(fs[k], ts[k])
  }

  lemma PlainConcat(a: seq<Text>, b: seq<Text>)
    ensures PlainCells(a + b) == PlainCells(a) + PlainCells(b)
  {
  }

  lemma EmptyIfs(t: Text)
    ensures Pieces([], t) == if t == [] then [] else [t]
  {
    OneWord((b: byte) => b in [], t, 0);
    WhiteSpaceOnly([], t);
    assert t[0..] == t;
  }

  lemma {:induction false} OneWord(blank: byte -> bool, t: Text, i: nat)
    requires i <= |t| && forall k :: 0 <= k < |t| ==> !blank(t[k])
    ensures Words(blank, t, i) == if i == |t| then [] else [t[i..]]
    decreases |t| - i
  {
    if i < |t| {
      OneWord(blank, t, i + 1);
      assert [t[i]] + t[i + 1..] == t[i..];
      if i + 1 == |t| { assert t[i..] == [t[i]]; } else { assert [t[i + 1..]][1..] == []; }
    }
  }

  lemma KeptUnquoted(ifs: Str, f: Field, t: Text)
    requires Unquoted(f, t)
    ensures ValidDelims(IfsDelims(ifs))
    ensures Values(KeepFields(SplitAlways(ifs == [], IfsDelims(ifs), [f]))) == PlainCells(Pieces(ifs, t))
  {
    UnquotedValues(ifs, f, t);
    var d := IfsDelims(ifs);
    assert [f][1..] == [] && SplitEach(d, [f]) == SplitOne(d, f) + [] == SplitOne(d, f);
    if ifs == [] {
      EmptyIfs(t);
      KeptOne(f);
      KeepFieldsTwice([f]);
      assert t == [] ==> PlainCells(Pieces(ifs, t)) == [];
      assert t != [] ==> PlainCells(Pieces(ifs, t)) == [f.cells];
    } else {
      SplitFieldsKept(d, f);
      KeepAll(SplitOne(d, f));
    }
  }

  lemma {:induction false} KeptEach(ifs: Str, fs: seq<Field>, ts: seq<Text>)
    requires EachUnquoted(fs, ts)
    ensures ValidDelims(IfsDelims(ifs))
    ensures Values(KeepFields(SplitAlways(ifs == [], IfsDelims(ifs), fs))) == PlainCells(PiecesEach(ifs, ts))
    decreases |fs|
  {
    FieldSplit.IfsDelimsValid(ifs);
    if fs != [] {
      KeptUnquoted(ifs, fs[0], ts[0]);
      KeptEach(ifs, fs[1..], ts[1..]);
      SplitCons(ifs == [], IfsDelims(ifs), fs);
      PlainConcat(Pieces(ifs, ts[0]), PiecesEach(ifs, ts[1..]));
    }
  }

  /** The fields kept of a list are those of its first and those of the rest. */
  lemma SplitCons(ifsEmpty: bool, d: Delims, fs: seq<Field>)
    requires ValidDelims(d) && fs != []
    ensures Values(KeepFields(SplitAlways(ifsEmpty, d, fs))) ==
            Values(KeepFields(SplitAlways(ifsEmpty, d, [fs[0]])))
            + Values(KeepFields(SplitAlways(ifsEmpty, d, fs[1..])))
  {
    var one, rest := SplitAlways(ifsEmpty, d, [fs[0]]), SplitAlways(ifsEmpty, d, fs[1..]);
    assert [fs[0]][1..] == [] && [fs[0]] + fs[1..] == fs;
    if ifsEmpty {
      KeepConcat([fs[0]], fs[1..]);
    } else {
      assert SplitEach(d, [fs[0]]) == SplitOne(d, fs[0]) + [] == SplitOne(d, fs[0]);
    }
    assert SplitAlways(ifsEmpty, d, fs) == one + rest;
    KeepConcat(one, rest);
    ValuesConcat(KeepFields(one), KeepFields(rest));
  }

  /** The stages on unquoted fields: pieces, and what they match. */
  lemma FinishUnquoted(o: Oracle, env: Env, fs: seq<Field>, ts: seq<Text>)
    requires EachUnquoted(fs, ts) && fs != []
    ensures Finish(o, env, fs) == GlobTexts(o, env, PiecesEach(FieldSplit.IfsValue(env.ifs), ts))
  {
    var ifs := FieldSplit.IfsValue(env.ifs);
    assert Good(fs);
    ShortcutInvisible(o, env, fs);
    KeptEach(ifs, fs, ts);
    GlobKeepsValues(o, env, SplitAlways(ifs == [], Delimiters(env), fs));
    PlainTexts(o, env, PiecesEach(ifs, ts));
  }

  // ----- words of one part -----

  lemma OnePart(o: Oracle, env: Env, part: WordPart)
    ensures WordFields(o, env, Word([part])) == ExpandPart(o, env, part, [EMPTY_FIELD], false)
  {
    var r := ExpandPart(o, env, part, [EMPTY_FIELD], false);
    assert [part][1..] == [] && ExpandParts(o, r.env, [], r.fields, false) == Out(None, r.env, r.fields);
  }

  lemma Finished(o: Oracle, env: Env, word: Word, env': Env, fs: seq<Field>)
    requires WordFields(o, env, word) == Out(None, env', fs)
    ensures ExpandWord(o, env, word) == Expansion(None, env', Finish(o, env', fs))
  {
    FastPathAgrees(o, env, word);
  }

  /** Value, error and environment of a word that is one unquoted value. */
  function Unquotes(o: Oracle, env: Env, v: Text): Expansion {
    Expansion(None, env, GlobTexts(o, env, Pieces(FieldSplit.IfsValue(env.ifs), v)))
  }

  lemma OneUnquoted(o: Oracle, env: Env, word: Word, env': Env, v: Text)
    requires WordFields(o, env, word) == Out(None, env', [AddExpanded(EMPTY_FIELD, v)])
    ensures ExpandWord(o, env, word) == Unquotes(o, env', v)
  {
    Finished(o, env, word, env', [AddExpanded(EMPTY_FIELD, v)]);
    FinishExpanded(o, env', v);
  }

  lemma FinishExpanded(o: Oracle, env: Env, v: Text)
    ensures Finish(o, env, [AddExpanded(EMPTY_FIELD, v)])
         == GlobTexts(o, env, Pieces(FieldSplit.IfsValue(env.ifs), v))
  {
    assert [] + CellsOf(v, false, false) == CellsOf(v, false, false);
    FinishUnquoted(o, env, [AddExpanded(EMPTY_FIELD, v)], [v]);
    EachOne(FieldSplit.IfsValue(env.ifs), v);
  }

  lemma EachOne(ifs: Str, v: Text)
    ensures PiecesEach(ifs, [v]) == Pieces(ifs, v)
  {
    assert [v][1..] == [] && Pieces(ifs, v) + [] == Pieces(ifs, v);
  }

  /** `$x` of a set parameter: its value is split and its pieces are patterns. */
  lemma UnquotedParameter(o: Oracle, env: Env, x: Text, v: Text)
    requires o.lookup(env, x) == Some(v)
    ensures ExpandWord(o, env, Word([Parameter(Simple(x))])) == Unquotes(o, env, v)
  {
    OnePart(o, env, Parameter(Simple(x)));
    OneUnquoted(o, env, Word([Parameter(Simple(x))]), env, v);
  }

  /** `$1`, `$2` and so on. */
  lemma UnquotedPositional(o: Oracle, env: Env, n: nat)
    requires 0 < n <= |env.params|
    ensures ExpandWord(o, env, Word([Parameter(Positional(n))])) == Unquotes(o, env, env.params[n - 1])
  {
    OnePart(o, env, Parameter(Positional(n)));
    OneUnquoted(o, env, Word([Parameter(Positional(n))]), env, env.params[n - 1]);
  }

  /** `$(…)`: under the IFS that its run leaves. */
  lemma UnquotedCommand(o: Oracle, env: Env, c: int)
    ensures var (t, env') := o.command(env, c);
            ExpandWord(o, env, Word([CommandSub(c)])) == Unquotes(o, env', t)
  {
    var (t, env') := o.command(env, c);
    OnePart(o, env, CommandSub(c));
    OneUnquoted(o, env, Word([CommandSub(c)]), env', t);
  }

  /** `$((…))` */
  lemma UnquotedArithmetic(o: Oracle, env: Env, e: Text)
    ensures ExpandWord(o, env, Word([ArithSub(e)])) ==
            match o.arith(env, e)
            case (Ok(t), env') => Unquotes(o, env', t)
            case (Err(x), env') => Expansion(Some(x), env', [])
  {
    OnePart(o, env, ArithSub(e));
    match o.arith(env, e)
    case (Ok(t), env') => OneUnquoted(o, env, Word([ArithSub(e)]), env', t);
    case (Err(x), env') => FastPathAgrees(o, env, Word([ArithSub(e)]));
  }

  /** Under `set -f` the texts are the pieces. */
  lemma UnquotedUnderNoglob(o: Oracle, env: Env, x: Text, v: Text)
    requires o.lookup(env, x) == Some(v) && o.noglob
    ensures ExpandWord(o, env, Word([Parameter(Simple(x))]))
         == Expansion(None, env, Pieces(FieldSplit.IfsValue(env.ifs), v))
  {
    UnquotedParameter(o, env, x, v);
    GlobOff(o, env, Pieces(FieldSplit.IfsValue(env.ifs), v));
  }

  // ----- quoted words -----

  /** A quoted text is the one text of its word, whatever it is. */
  lemma QuotedWhole(o: Oracle, env: Env, word: Word, env': Env, f: Field, v: Text)
    requires WordFields(o, env, word) == Out(None, env', [f]) && f.cells == CellsOf(v, true, true) && f.wasQuoted
    ensures ExpandWord(o, env, word) == Expansion(None, env', [v])
  {
    Finished(o, env, word, env', [f]);
    FinishHolds(o, env', [f], [v]);
  }

  lemma PushedQuoted(f: Field, v: Text)
    requires f.cells == []
    ensures AddQuoted(f, v).cells == CellsOf(v, true, true) && AddQuoted(f, v).wasQuoted
    ensures AddQuoted(AddQuoted(f, v), []).cells == CellsOf(v, true, true)
  {
  }

  predicate IsQuotedText(part: WordPart, s: Text) {
    part == SingleQuoted(s) || part == DollarSingleQuoted(s) || part == EscapedLiteral(s)
  }

  /** `'s'` and its like. */
  lemma QuotedText(o: Oracle, env: Env, part: WordPart, s: Text)
    requires IsQuotedText(part, s)
    ensures ExpandWord(o, env, Word([part])) == Expansion(None, env, [s])
  {
    OnePart(o, env, part);
    PushedQuoted(EMPTY_FIELD, s);
    QuotedWhole(o, env, Word([part]), env, AddQuoted(EMPTY_FIELD, s), s);
  }

  /** What a part that stands for one text gives inside double quotes. */
  predicate Gives(o: Oracle, env: Env, part: WordPart, env': Env, v: Text) {
    match part
    case Literal(s) => v == s && env' == env
    case SingleQuoted(s) => v == s && env' == env
    case EscapedLiteral(s) => v == s && env' == env
    case DollarSingleQuoted(s) => v == s && env' == env
    case Parameter(Simple(x)) => o.lookup(env, x) == Some(v) && env' == env
    case CommandSub(c) => o.command(env, c) == (v, env')
    case ArithSub(e) => o.arith(env, e) == (Ok(v), env')
    case _ => false
  }

  /** Inside double quotes nothing is split and nothing is a pattern. */
  lemma DoubleQuotedWhole(o: Oracle, env: Env, part: WordPart, env': Env, v: Text)
    requires Gives(o, env, part, env', v)
    ensures ExpandWord(o, env, Word([DoubleQuoted([part])])) == Expansion(None, env', [v])
  {
    var marked := EMPTY_FIELD.(wasQuoted := true);
    var f := AddQuoted(marked, v);
    OnePart(o, env, DoubleQuoted([part]));
    PushedQuoted(marked, v);
    assert [part][1..] == [] && SetLast([EMPTY_FIELD], marked) == [marked];
    assert ExpandPart(o, env, part, [marked], true) == Out(None, env', [f]);
    assert ExpandParts(o, env, [part], [marked], true) == Out(None, env', [f]);
    assert !ExpandedToNoField(env', part);
    QuotedWhole(o, env, Word([DoubleQuoted([part])]), env', if v == [] then AddQuoted(f, []) else f, v);
  }

  /** Unquoted text of the word itself is not split; it can be a pattern. */
  lemma LiteralText(o: Oracle, env: Env, s: Text)
    ensures ExpandWord(o, env, Word([Literal(s)])) ==
            Expansion(None, env, if s == [] then [] else GlobText(o, env, s))
  {
    var f := AddLiteral(EMPTY_FIELD, s);
    OnePart(o, env, Literal(s));
    Finished(o, env, Word([Literal(s)]), env, [f]);
    assert [] + CellsOf(s, true, false) == CellsOf(s, true, false);
    LiteralFinish(o, env, f, s);
  }

  lemma LiteralFinish(o: Oracle, env: Env, f: Field, s: Text)
    requires f.cells == CellsOf(s, true, false) && !f.wasQuoted
    ensures Finish(o, env, [f]) == if s == [] then [] else GlobText(o, env, s)
  {
    SplitInert(FieldSplit.IfsValue(env.ifs) == [], Delimiters(env), [f], true);
    KeptOne(f);
    KeepFieldsTwice([f]);
    GlobKeepsValues(o, env, [f]);
    GlobKeepsValues(o, env, KeepFields([f]));
    LiteralTexts(o, env, s);
  }

  lemma LiteralTexts(o: Oracle, env: Env, s: Text)
    ensures AllTexts(o, env, []) == [] && AllTexts(o, env, [CellsOf(s, true, false)]) == GlobText(o, env, s)
  {
    var cells := CellsOf(s, true, false);
    SameGlob(cells, CellsOf(s, false, false));
    PlainPattern(s);
    SamePattern(cells, CellsOf(s, false, false));
    assert Bytes(cells) == s && [cells][..0] == [];
  }

  lemma SameGlob(a: seq<Cell>, b: seq<Cell>)
    requires |a| == |b| && forall k :: 0 <= k < |a| ==> a[k].b == b[k].b && a[k].glob == b[k].glob
    ensures HasGlob(a) == HasGlob(b)
  {
    forall i | 0 <= i < |a| ensures GlobAt(a, i) == GlobAt(b, i) {
      assert CloserFrom(a, i) == CloserFrom(b, i);
      forall k | 0 <= k < |a| ensures a[k].b == b[k].b && a[k].glob == b[k].glob {}
      assert BracketCloses(a, i) == BracketCloses(b, i);
    }
  }

  lemma {:induction false} SamePattern(a: seq<Cell>, b: seq<Cell>)
    requires |a| == |b| && forall k :: 0 <= k < |a| ==> a[k].b == b[k].b && a[k].glob == b[k].glob
    ensures EscapedPattern(a) == EscapedPattern(b)
  {
    if a != [] { SamePattern(a[..|a| - 1], b[..|b| - 1]); }
  }

  // ----- the parameter list -----

  lemma {:induction false} PushEachUnquoted(ts: seq<Text>, sep: Option<Text>)
    requires ts != []
    ensures EachUnquoted(PushEach([EMPTY_FIELD], ts, sep, false), ts)
  {
    var init, t := ts[..|ts| - 1], ts[|ts| - 1];
    assert [] + CellsOf(t, false, false) == CellsOf(t, false, false);
    if |ts| > 1 {
      PushEachUnquoted(init, sep);
      var before := PushEach([EMPTY_FIELD], init, sep, false);
      var next := EMPTY_FIELD.(joinSep := sep);
      assert PushEach([EMPTY_FIELD], ts, sep, false) == before + [AddExpanded(next, t)];
      assert ts == init + [t];
    } else {
      assert PushEach([EMPTY_FIELD], init, sep, false) == [EMPTY_FIELD];
      assert PushEach([EMPTY_FIELD], ts, sep, false) == [AddExpanded(EMPTY_FIELD, t)];
    }
  }

  /** `$@` and `$*`: every parameter by itself is split and matched. */
  lemma UnquotedList(o: Oracle, env: Env, sp: SpecialParam)
    requires sp == At || sp == Star
    ensures ExpandWord(o, env, Word([Parameter(Special(sp))])) ==
            Expansion(None, env, GlobTexts(o, env, PiecesEach(FieldSplit.IfsValue(env.ifs), env.params)))
  {
    var ifs, sep := FieldSplit.IfsValue(env.ifs), if sp == Star then Some(JoinSeparator(env)) else None;
    OnePart(o, env, Parameter(Special(sp)));
    if env.params == [] {
      Finished(o, env, Word([Parameter(Special(sp))]), env, [EMPTY_FIELD]);
      assert Unquoted(EMPTY_FIELD, []);
      FinishUnquoted(o, env, [EMPTY_FIELD], [[]]);
      EachOne(ifs, []);
    } else {
      PushEachUnquoted(env.params, sep);
      var fs := PushEach([EMPTY_FIELD], env.params, sep, false);
      Finished(o, env, Word([Parameter(Special(sp))]), env, fs);
      FinishUnquoted(o, env, fs, env.params);
    }
  }

  /** Texts in a row, each after the first behind `sep`. */
  function Strung(ts: seq<Text>, sep: Text): Text {
    if ts == [] then [] else if |ts| == 1 then ts[0] else ts[0] + (sep + Strung(ts[1..], sep))
  }

  lemma {:induction false} StrungSnoc(ts: seq<Text>, sep: Text, t: Text)
    requires ts != []
    ensures Strung(ts + [t], sep) == Strung(ts, sep) + sep + t
  {
    if |ts| == 1 {
      assert (ts + [t])[1..] == [t];
      Assoc(ts[0], sep, t);
    } else {
      StrungSnoc(ts[1..], sep, t);
      ConcatHead(ts, [t]);
      Regrouped(ts[0], sep, Strung(ts[1..], sep), t);
    }
  }

  lemma Regrouped(a: Text, sep: Text, b: Text, t: Text)
    ensures a + (sep + (b + sep + t)) == a + (sep + b) + sep + t
  {
  }

  lemma {:induction false} JoinIsStrung(ts: seq<Text>, sep: Text)
    ensures JoinWith(ts, sep) == Strung(ts, sep)
  {
    if |ts| > 1 {
      JoinIsStrung(ts[..|ts| - 1], sep);
      StrungSnoc(ts[..|ts| - 1], sep, ts[|ts| - 1]);
      assert ts[..|ts| - 1] + [ts[|ts| - 1]] == ts;
    }
  }

  /** What `"$*"` puts between the parameters. */
  lemma SeparatorIs(env: Env, c: Scalar, rest: Str)
    ensures env.ifs == None ==> JoinSeparator(env) == [0x20]
    ensures env.ifs == Some([]) ==> JoinSeparator(env) == []
    ensures env.ifs == Some([c] + rest) ==> JoinSeparator(env) == AsBytes([c])
  {
    assert [c][1..] == [];
  }

  /** `"$*"` is one text: the parameters in a row. */
  lemma QuotedStar(o: Oracle, env: Env)
    ensures ExpandWord(o, env, Word([DoubleQuoted([Parameter(Special(Star))])])) ==
            Expansion(None, env, [Strung(env.params, JoinSeparator(env))])
  {
    var part, v := Parameter(Special(Star)), JoinWith(env.params, JoinSeparator(env));
    var marked := EMPTY_FIELD.(wasQuoted := true);
    var f := AddQuoted(marked, v);
    OnePart(o, env, DoubleQuoted([part]));
    PushedQuoted(marked, v);
    JoinIsStrung(env.params, JoinSeparator(env));
    assert [part][1..] == [] && SetLast([EMPTY_FIELD], marked) == [marked];
    assert ExpandPart(o, env, part, [marked], true) == Out(None, env, [f]);
    assert ExpandParts(o, env, [part], [marked], true) == Out(None, env, [f]);
    assert !ExpandedToNoField(env, part);
    QuotedWhole(o, env, Word([DoubleQuoted([part])]), env, if v == [] then AddQuoted(f, []) else f, v);
  }

  // ----- quoted and unquoted text side by side -----

  lemma FinishShape(o: Oracle, env: Env, f: Field, head: Text, q: nat, v: Text, tail: Option<Text>)
    requires Shape(f, head, q, v, tail) && WellFormed(f) && o.noglob && Kept(f)
    requires head != [] || q > 0 || tail.Some?
    ensures Finish(o, env, [f]) ==
            var p := SepsOf(FieldSplit.IfsValue(env.ifs));
            if head != [] || q > 0 then PiecesAround(p, head, v, tail) else PiecesFrom(p, v, 0, tail)
  {
    var ifs := FieldSplit.IfsValue(env.ifs);
    var d := IfsDelims(ifs);
    FieldSplit.IfsDelimsValid(ifs);
    SplitPieces(ifs, f, head, q, v, tail);
    ShortcutInvisible(o, env, [f]);
    assert [f][1..] == [] && SplitEach(d, [f]) == SplitOne(d, f) + [] == SplitOne(d, f);
    SplitFieldsKept(d, f);
    KeepAll(SplitOne(d, f));
    if ifs == [] { UnsplitShape(f, head, q, v, tail); }
  }

  /** Nothing is split under an empty IFS. */
  lemma UnsplitShape(f: Field, head: Text, q: nat, v: Text, tail: Option<Text>)
    requires Shape(f, head, q, v, tail) && Kept(f) && (head != [] || q > 0 || tail.Some?)
    ensures Texts(KeepFields(KeepFields([f]))) ==
            if head != [] || q > 0 then PiecesAround(SepsOf([]), head, v, tail) else PiecesFrom(SepsOf([]), v, 0, tail)
  {
    KeptOne(f);
    KeepFieldsTwice([f]);
    assert Texts([f]) == [Bytes(f.cells)];
    NoSeps(head + v, |head|);
    NoSeps(v, 0);
    assert v[0..] == v && [] + v + TailText(tail) == v + TailText(tail);
    assert v == [] ==> v + TailText(tail) == TailText(tail);
  }

  lemma {:induction false} NoSeps(t: Text, i: nat)
    requires i <= |t|
    ensures PastRun(SepsOf([]), t, i) == |t| && PastBlanks(SepsOf([]), t, i) == i
    decreases |t| - i
  {
    if i < |t| {
      AsciiSeps([], t, i);
      NoSeps(t, i + 1);
    }
  }

  /** The field of one text of the word itself. */
  function TextField(part: WordPart, a: Text): Field {
    if part.Literal? then AddLiteral(EMPTY_FIELD, a) else AddQuoted(EMPTY_FIELD, a)
  }

  lemma HeadShape(part: WordPart, a: Text, v: Text)
    requires part.Literal? ==> a != []
    ensures var f := AddExpanded(TextField(part, a), v);
            Shape(f, a, if a == [] then 1 else 0, v, None) && WellFormed(f) && Kept(f)
  {
    var f := AddExpanded(TextField(part, a), v);
    assert Bytes(f.cells) == a + v + [];
    PushKeepsWellFormed(EMPTY_FIELD, a);
    PushKeepsWellFormed(TextField(part, a), v);
  }

  lemma TailShape(v: Text, b: Text)
    ensures var f := AddQuoted(AddExpanded(EMPTY_FIELD, v), b);
            Shape(f, [], 0, v, Some(b)) && WellFormed(f) && Kept(f)
  {
    var f := AddQuoted(AddExpanded(EMPTY_FIELD, v), b);
    assert Bytes(f.cells) == [] + v + b;
    PushKeepsWellFormed(EMPTY_FIELD, v);
    PushKeepsWellFormed(AddExpanded(EMPTY_FIELD, v), b);
  }

  /** `a$x` and `'a'$x`: quoted text goes on with the first piece, unless the
      value begins with a separator. */
  lemma TextThenValue(o: Oracle, env: Env, part: WordPart, a: Text, x: Text, v: Text)
    requires o.lookup(env, x) == Some(v) && o.noglob
    requires IsQuotedText(part, a) || (part == Literal(a) && a != [])
    ensures ExpandWord(o, env, Word([part, Parameter(Simple(x))])) ==
            Expansion(None, env, PiecesAround(SepsOf(FieldSplit.IfsValue(env.ifs)), a, v, None))
  {
    var f := TextField(part, a);
    var g := AddExpanded(f, v);
    TwoParts(o, env, part, env, Parameter(Simple(x)), env, [f], [g]);
    Finished(o, env, Word([part, Parameter(Simple(x))]), env, [g]);
    HeadShape(part, a, v);
    FinishShape(o, env, g, a, if a == [] then 1 else 0, v, None);
  }

  /** `$x'b'`: quoted text goes on with the last piece, unless the value ends
      with a separator. */
  lemma ValueThenText(o: Oracle, env: Env, part: WordPart, b: Text, x: Text, v: Text)
    requires o.lookup(env, x) == Some(v) && o.noglob && IsQuotedText(part, b)
    ensures ExpandWord(o, env, Word([Parameter(Simple(x)), part])) ==
            Expansion(None, env, PiecesFrom(SepsOf(FieldSplit.IfsValue(env.ifs)), v, 0, Some(b)))
  {
    var f := AddExpanded(EMPTY_FIELD, v);
    var g := AddQuoted(f, b);
    TwoParts(o, env, Parameter(Simple(x)), env, part, env, [f], [g]);
    Finished(o, env, Word([Parameter(Simple(x)), part]), env, [g]);
    TailShape(v, b);
    FinishShape(o, env, g, [], 0, v, Some(b));
  }

  /** `$x$y`: the values are split as one. */
  lemma ValueThenValue(o: Oracle, env: Env, x: Text, v: Text, y: Text, w: Text)
    requires o.lookup(env, x) == Some(v) && o.lookup(env, y) == Some(w)
    ensures ExpandWord(o, env, Word([Parameter(Simple(x)), Parameter(Simple(y))])) == Unquotes(o, env, v + w)
  {
    var f := AddExpanded(EMPTY_FIELD, v);
    var g := AddExpanded(f, w);
    TwoParts(o, env, Parameter(Simple(x)), env, Parameter(Simple(y)), env, [f], [g]);
    assert g == AddExpanded(EMPTY_FIELD, v + w);
    OneUnquoted(o, env, Word([Parameter(Simple(x)), Parameter(Simple(y))]), env, v + w);
  }

  lemma TwoParts(o: Oracle, env: Env, a: WordPart, env': Env, b: WordPart, env'': Env, fs: seq<Field>, gs: seq<Field>)
    requires fs != [] && ExpandPart(o, env, a, [EMPTY_FIELD], false) == Out(None, env', fs)
    requires ExpandPart(o, env', b, fs, false) == Out(None, env'', gs)
    ensures WordFields(o, env, Word([a, b])) == Out(None, env'', gs)
  {
    assert [a, b][1..] == [b] && [b][1..] == [];
    assert ExpandParts(o, env'', [], gs, false) == Out(None, env'', gs);
    assert ExpandParts(o, env', [b], fs, false) == Out(None, env'', gs);
  }
}
