/** Every field an expansion builds is well formed, so passing undelimited
    fields through instead of splitting them never shows in the result. */
module WordProps {
  import opened Prelude
  import opened Fields
  import opened SplitSpec
  import opened SplitProps
  import FieldSplit
  import opened Pathname
  import opened ExpandSpec

  // ----- well-formedness -----

  predicate Good(fields: seq<Field>) { fields != [] && forall k :: 0 <= k < |fields| ==> WellFormed(fields[k]) }

  lemma PushLastGood(kind: Kind, fields: seq<Field>, s: Text)
    requires Good(fields)
    ensures Good(PushLast(kind, fields, s))
  {
    PushKeepsWellFormed(Last(fields), s);
  }

  lemma {:induction false} PushEachGood(fields: seq<Field>, ts: seq<Text>, sep: Option<Text>, dq: bool)
    requires Good(fields)
    ensures Good(PushEach(fields, ts, sep, dq))
  {
    if ts != [] {
      PushEachGood(fields, ts[..|ts| - 1], sep, dq);
      var before := PushEach(fields, ts[..|ts| - 1], sep, dq);
      var ready := if |ts| > 1 then before + [EMPTY_FIELD.(joinSep := sep)] else before;
      assert Good(ready);
      PushLastGood(ValueKind(dq), ready, ts[|ts| - 1]);
    }
  }

  lemma PositionalsGood(env: Env, fields: seq<Field>, ts: seq<Text>, star: bool, dq: bool)
    requires Good(fields)
    ensures Good(PushPositionals(env, fields, ts, star, dq))
  {
    PushLastGood(Quoted, fields, JoinWith(ts, JoinSeparator(env)));
    PushEachGood(fields, ts, if star then Some(JoinSeparator(env)) else None, dq);
  }

  lemma TildeGood(o: Oracle, env: Env, user: Option<Text>, fields: seq<Field>, inModifier: bool)
    requires Good(fields)
    ensures Good(ExpandTilde(o, env, user, fields, inModifier))
  {
    match (match user case None => env.home case Some(name) => o.homeOf(env, name)) {
      case Some(dir) => PushLastGood(Quoted, fields, dir);
      case None =>
        PushLastGood(if inModifier then Expanded else Lit, fields,
            TILDE + match user case None => [] case Some(n) => n);
    }
  }

  lemma ValueGood(env: Env, name: Text, v: Text, fields: seq<Field>, dq: bool)
    requires Good(fields)
    ensures Good(PushValue(env, name, v, fields, dq))
  {
    match PositionalSpecial(name)
    case Some(star) => PositionalsGood(env, fields, env.params, star, dq);
    case None => PushLastGood(ValueKind(dq), fields, v);
  }

  lemma ScalarGood(o: Oracle, env: Env, p: ParamExpr, fields: seq<Field>, dq: bool)
    requires Good(fields)
    ensures Good(ExpandScalar(o, env, p, fields, dq).fields)
  {
    match ScalarValue(o, env, p).0 {
      case Ok(t) => PushLastGood(ValueKind(dq), fields, t);
      case Err(_) =>
    }
  }

  lemma AssignGood(o: Oracle, env: Env, name: Text, sub: seq<Field>, fields: seq<Field>)
    requires Good(fields) && Good(sub)
    ensures Good(AssignResult(o, env, name, sub, fields).fields)
  {
    AppendKeepsWellFormed(Last(fields), sub[0]);
  }

  lemma {:induction false} PartsGood(o: Oracle, env: Env, parts: seq<WordPart>, fields: seq<Field>, dq: bool)
    requires Good(fields)
    ensures Good(ExpandParts(o, env, parts, fields, dq).fields)
    decreases parts, 0
  {
    if parts != [] {
      PartGood(o, env, parts[0], fields, dq);
      var r := ExpandPart(o, env, parts[0], fields, dq);
      if r.err.None? { PartsGood(o, r.env, parts[1..], r.fields, dq); }
    }
  }

  lemma {:induction false} PartGood(o: Oracle, env: Env, part: WordPart, fields: seq<Field>, dq: bool)
    requires Good(fields)
    ensures Good(ExpandPart(o, env, part, fields, dq).fields)
    decreases part, 1
  {
    match part
    case Literal(s) => PushLastGood(if dq then Quoted else Lit, fields, s);
    case EscapedLiteral(s) => PushLastGood(Quoted, fields, s);
    case SingleQuoted(s) => PushLastGood(Quoted, fields, s);
    case DollarSingleQuoted(s) => PushLastGood(Quoted, fields, s);
    case DoubleQuoted(parts) => DoubleQuotedGood(o, env, parts, fields);
    case Tilde(user) => TildeGood(o, env, user, fields, false);
    case Parameter(p) => ParamGood(o, env, p, fields, dq);
    case CommandSub(c) => PushLastGood(ValueKind(dq), fields, o.command(env, c).0);
    case ArithSub(e) =>
      var r := o.arith(env, e).0;
      if r.Ok? { PushLastGood(ValueKind(dq), fields, r.value); }
  }

  lemma {:induction false} DoubleQuotedGood(o: Oracle, env: Env, parts: seq<WordPart>, fields: seq<Field>)
    requires Good(fields)
    ensures Good(ExpandDoubleQuoted(o, env, parts, fields).fields)
    decreases parts, 1
  {
    var marked := SetLast(fields, Last(fields).(wasQuoted := true));
    assert Good(marked);
    PartsGood(o, env, parts, marked, true);
    PushLastGood(Quoted, ExpandParts(o, env, parts, marked, true).fields, []);
  }

  lemma {:induction false} ParamGood(o: Oracle, env: Env, p: ParamExpr, fields: seq<Field>, dq: bool)
    requires Good(fields)
    ensures Good(ExpandParam(o, env, p, fields, dq).fields)
    decreases p, 1
  {
    PositionalsGood(env, fields, env.params, false, dq);
    PositionalsGood(env, fields, env.params, true, dq);
    ScalarGood(o, env, p, fields, dq);
    match p {
      case Default(name, word, nullCheck) =>
        var v := o.lookup(env, name);
        if !UnsetOrNull(v, nullCheck) { ValueGood(env, name, v.value, fields, dq); }
        else if word.Some? { ModifierGood(o, env, word.value.parts, fields, dq); }
      case Alt(name, word, nullCheck) =>
        if word.Some? { ModifierGood(o, env, word.value.parts, fields, dq); }
      case Assign(name, word, nullCheck) =>
        AssignFormGood(o, env, name, word, nullCheck, fields, dq);
      case Strip(kind, name, pattern) =>
        var r := WordToPattern(o, env, pattern);
        if PositionalSpecial(name).Some? && r.0.Ok? {
          PositionalsGood(r.1, fields, StripEach(o, kind, r.1.params, r.0.value), PositionalSpecial(name).value, dq);
        }
      case _ =>
    }
  }

  lemma {:induction false} AssignFormGood(o: Oracle, env: Env, name: Text, word: Option<Word>, nullCheck: bool,
      fields: seq<Field>, dq: bool)
    requires Good(fields)
    ensures Good(ExpandParam(o, env, Assign(name, word, nullCheck), fields, dq).fields)
    decreases word, 3
  {
    var v := o.lookup(env, name);
    if !UnsetOrNull(v, nullCheck) {
      ValueGood(env, name, v.value, fields, dq);
    } else {
      var r := match word
        case Some(w) => ExpandModifier(o, env, w.parts, [EMPTY_FIELD], dq)
        case None => Out(None, env, [EMPTY_FIELD]);
      if word.Some? { ModifierGood(o, env, word.value.parts, [EMPTY_FIELD], dq); }
      AssignGood(o, r.env, name, r.fields, fields);
    }
  }

  lemma {:induction false} ModifierGood(o: Oracle, env: Env, parts: seq<WordPart>, fields: seq<Field>, dq: bool)
    requires Good(fields)
    ensures Good(ExpandModifier(o, env, parts, fields, dq).fields)
    decreases parts, 2
  {
    if parts != [] {
      if parts[0].Literal? && !dq {
        PushLastGood(Expanded, fields, parts[0].s);
        ModifierGood(o, env, parts[1..], PushLast(Expanded, fields, parts[0].s), dq);
      } else if parts[0].Tilde? && !dq {
        TildeGood(o, env, parts[0].user, fields, true);
        ModifierGood(o, env, parts[1..], ExpandTilde(o, env, parts[0].user, fields, true), dq);
      } else {
        PartGood(o, env, parts[0], fields, dq);
        var r := ExpandPart(o, env, parts[0], fields, dq);
        if r.err.None? { ModifierGood(o, r.env, parts[1..], r.fields, dq); }
      }
    }
  }

  /** Every field a word expands to is well formed. */
  lemma WordFieldsGood(o: Oracle, env: Env, word: Word)
    ensures Good(WordFields(o, env, word).fields)
  {
    PartsGood(o, env, word.parts, [EMPTY_FIELD], false);
  }

  // ----- the pass-through of undelimited fields -----

  /** What the stages give for one field's bytes: its matches, or its text. */
  function CellTexts(o: Oracle, env: Env, cells: seq<Cell>): seq<Text> {
    if !o.noglob && HasGlob(cells) && o.glob(env, EscapedPattern(cells)) != []
    then NonEmpty(o.glob(env, EscapedPattern(cells)))
    else [Bytes(cells)]
  }

  function NonEmpty(ts: seq<Text>): seq<Text> {
    if ts == [] then [] else NonEmpty(ts[..|ts| - 1]) + if ts[|ts| - 1] != [] then [ts[|ts| - 1]] else []
  }

  function AllTexts(o: Oracle, env: Env, values: seq<seq<Cell>>): seq<Text> {
    if values == [] then [] else AllTexts(o, env, values[..|values| - 1]) + CellTexts(o, env, values[|values| - 1])
  }

  lemma {:induction false} MatchTexts(ts: seq<Text>)
    ensures Texts(KeepFields(AllQuotedFields(ts))) == NonEmpty(ts)
  {
    if ts != [] {
      var t := ts[|ts| - 1];
      var f := EMPTY_FIELD.(cells := CellsOf(t, true, true));
      MatchTexts(ts[..|ts| - 1]);
      FieldSplit.KeepSnoc(AllQuotedFields(ts[..|ts| - 1]), f);
      assert Bytes(f.cells) == t;
    }
  }

  /** Globbing and dropping empty fields depends on the kept values alone. */
  lemma {:induction false} GlobKeepsValues(o: Oracle, env: Env, fs: seq<Field>)
    ensures Texts(KeepFields(Globbed(o, env, fs))) == AllTexts(o, env, Values(KeepFields(fs)))
  {
    if fs != [] {
      var init, f := fs[..|fs| - 1], fs[|fs| - 1];
      assert fs == init + [f];
      GlobKeepsValues(o, env, init);
      GlobbedTextsSnoc(o, env, init, f);
      KeptTextsSnoc(o, env, init, f);
    }
  }

  lemma GlobbedTextsSnoc(o: Oracle, env: Env, init: seq<Field>, f: Field)
    ensures Texts(KeepFields(Globbed(o, env, init + [f]))) ==
      Texts(KeepFields(Globbed(o, env, init))) + if Kept(f) then CellTexts(o, env, f.cells) else []
  {
    GlobFieldTexts(o, env, f);
    GlobbedSnoc(o, env, init, f);
    KeepConcat(Globbed(o, env, init), Globbed(o, env, [f]));
    TextsConcat(KeepFields(Globbed(o, env, init)), KeepFields(Globbed(o, env, [f])));
  }

  lemma KeptTextsSnoc(o: Oracle, env: Env, init: seq<Field>, f: Field)
    ensures AllTexts(o, env, Values(KeepFields(init + [f]))) ==
      AllTexts(o, env, Values(KeepFields(init))) + if Kept(f) then CellTexts(o, env, f.cells) else []
  {
    KeepConcat(init, [f]);
    ValuesConcat(KeepFields(init), KeepFields([f]));
    KeptOne(f);
    var values := Values(KeepFields(init));
    if Kept(f) {
      AllTextsSnoc(o, env, values, f.cells);
    } else {
      assert values + [] == values;
      assert AllTexts(o, env, values) + [] == AllTexts(o, env, values);
    }
  }

  lemma GlobbedSnoc(o: Oracle, env: Env, init: seq<Field>, f: Field)
    ensures Globbed(o, env, init + [f]) == Globbed(o, env, init) + Globbed(o, env, [f])
  {
    assert (init + [f])[..|init|] == init && [f][..0] == [];
    var m := Matches(o, env);
    assert GlobEach(m, [f]) == [] + GlobField(m, f) == GlobField(m, f);
  }

  lemma KeptOne(f: Field)
    ensures KeepFields([f]) == if Kept(f) then [f] else []
    ensures Values(KeepFields([f])) == if Kept(f) then [f.cells] else []
  {
    assert [f][1..] == [];
    assert [f] + [] == [f];
    if Kept(f) { assert Values([f]) == [f.cells] + []; }
  }

  lemma AllTextsSnoc(o: Oracle, env: Env, values: seq<seq<Cell>>, cells: seq<Cell>)
    ensures AllTexts(o, env, values + [cells]) == AllTexts(o, env, values) + CellTexts(o, env, cells)
  {
    assert (values + [cells])[..|values|] == values;
  }

  lemma TextsConcat(a: seq<Field>, b: seq<Field>)
    ensures Texts(a + b) == Texts(a) + Texts(b)
  {
  }

  lemma GlobFieldTexts(o: Oracle, env: Env, f: Field)
    ensures Texts(KeepFields(Globbed(o, env, [f]))) == if Kept(f) then CellTexts(o, env, f.cells) else []
  {
    KeptOne(f);
    var matches := Matches(o, env);
    assert GlobEach(matches, [f]) == [] + GlobField(matches, f) == GlobField(matches, f) by { assert [f][..0] == []; }
    if !o.noglob && HasGlob(f.cells) && o.glob(env, EscapedPattern(f.cells)) != [] {
      MatchTexts(o.glob(env, EscapedPattern(f.cells)));
    }
  }

  function SplitAlways(ifsEmpty: bool, d: Delims, fs: seq<Field>): seq<Field>
    requires ValidDelims(d)
  {
    if ifsEmpty then KeepFields(fs) else SplitEach(d, fs)
  }

  /** Splitting every field, never passing a list through. */
  function SlowFinish(o: Oracle, env: Env, fs: seq<Field>): seq<Text> {
    KeptTexts(o, env, SplitAlways(FieldSplit.IfsValue(env.ifs) == [], Delimiters(env), fs))
  }

  lemma SameKept(o: Oracle, env: Env, fs: seq<Field>, gs: seq<Field>)
    requires Values(KeepFields(fs)) == Values(KeepFields(gs))
    ensures KeptTexts(o, env, fs) == KeptTexts(o, env, gs)
  {
    GlobKeepsValues(o, env, fs);
    GlobKeepsValues(o, env, gs);
  }

  lemma PassThrough(o: Oracle, env: Env, ifsEmpty: bool, d: Delims, fs: seq<Field>)
    requires ValidDelims(d) && Good(fs)
    ensures KeptTexts(o, env, Split(ifsEmpty, d, fs)) == KeptTexts(o, env, SplitAlways(ifsEmpty, d, fs))
  {
    if !ifsEmpty && forall f :: f in fs ==> !NeedsSplitting(d, f) {
      ShortcutAgrees(d, fs);
      SameKept(o, env, fs, SplitEach(d, fs));
    }
  }

  lemma ShortcutInvisible(o: Oracle, env: Env, fs: seq<Field>)
    requires Good(fs)
    ensures Finish(o, env, fs) == SlowFinish(o, env, fs)
  {
    PassThrough(o, env, FieldSplit.IfsValue(env.ifs) == [], Delimiters(env), fs);
  }

  /** The whole pipeline with no shortcut at all. */
  function SlowWord(o: Oracle, env: Env, word: Word): Expansion {
    var r := WordFields(o, env, word);
    if r.err.Some? then Expansion(r.err, r.env, []) else Expansion(None, r.env, SlowFinish(o, r.env, r.fields))
  }

  lemma PipelineShortcutInvisible(o: Oracle, env: Env, word: Word)
    ensures FullWord(o, env, word) == SlowWord(o, env, word)
  {
    WordFieldsGood(o, env, word);
    var r := WordFields(o, env, word);
    if r.err.None? { ShortcutInvisible(o, r.env, r.fields); }
  }
}
