/** What the forms `${x:-w}`, `${x:+w}` and `${x:=w}` come to, and what words
    come to where one string or a pattern is wanted. */
module FormLaws {
  import opened Prelude
  import opened Utf8
  import opened Fields
  import opened SplitSpec
  import FieldSplit
  import opened Pathname
  import opened PieceSpec
  import opened ExpandSpec
  import opened ScalarProps
  import opened WordLaws

  // ----- the forms -----

  /** A parameter with one value, as `@` and `*` are not. */
  predicate OneValue(x: Text) { x != [0x40] && x != [0x2A] }

  /** The value `${x:-w}` and its relatives use: with the colon an empty one
      counts as none. */
  predicate HasValue(o: Oracle, env: Env, x: Text, colon: bool) {
    o.lookup(env, x).Some? && (colon ==> o.lookup(env, x).value != [])
  }

  function TextWord(s: Text): Option<Word> { Some(Word([Literal(s)])) }

  function Braced(p: ParamExpr): Word { Word([Parameter(p)]) }

  function InQuotes(p: ParamExpr): Word { Word([DoubleQuoted([Parameter(p)])]) }

  /** `${x:-w}` and `${x:=w}` of a parameter with a value are `$x`. */
  lemma ValueUsed(o: Oracle, env: Env, x: Text, w: Option<Word>, colon: bool, p: ParamExpr)
    requires HasValue(o, env, x, colon) && OneValue(x) && (p == Default(x, w, colon) || p == Assign(x, w, colon))
    ensures ExpandWord(o, env, Braced(p)) == Unquotes(o, env, o.lookup(env, x).value)
  {
    var v := o.lookup(env, x).value;
    ValuePushed(o, env, x, w, colon, p, EMPTY_FIELD, false);
    OnePart(o, env, Parameter(p));
    OneUnquoted(o, env, Braced(p), env, v);
  }

  lemma ValuePushed(o: Oracle, env: Env, x: Text, w: Option<Word>, colon: bool, p: ParamExpr, f: Field, dq: bool)
    requires HasValue(o, env, x, colon) && OneValue(x) && (p == Default(x, w, colon) || p == Assign(x, w, colon))
    ensures var v := o.lookup(env, x).value;
            ExpandParam(o, env, p, [f], dq) == Out(None, env, [if dq then AddQuoted(f, v) else AddExpanded(f, v)])
  {
    assert PositionalSpecial(x) == None;
  }

  lemma ModifierText(o: Oracle, env: Env, s: Text)
    ensures ExpandModifier(o, env, [Literal(s)], [EMPTY_FIELD], false) == Out(None, env, [AddExpanded(EMPTY_FIELD, s)])
  {
    var fs := [AddExpanded(EMPTY_FIELD, s)];
    assert [Literal(s)][1..] == [] && ExpandModifier(o, env, [], fs, false) == Out(None, env, fs);
  }

  /** `${x:-s}` without a value, and `${x:+s}` with one, are the text `s`, which
      is split like a value. */
  lemma TextUsed(o: Oracle, env: Env, x: Text, s: Text, colon: bool, p: ParamExpr)
    requires p == if HasValue(o, env, x, colon) then Alt(x, TextWord(s), colon) else Default(x, TextWord(s), colon)
    ensures ExpandWord(o, env, Braced(p)) == Unquotes(o, env, s)
  {
    ModifierText(o, env, s);
    OnePart(o, env, Parameter(p));
    assert ExpandParam(o, env, p, [EMPTY_FIELD], false) == Out(None, env, [AddExpanded(EMPTY_FIELD, s)]);
    OneUnquoted(o, env, Braced(p), env, s);
  }

  lemma NoText(o: Oracle, env: Env, word: Word, env': Env)
    requires WordFields(o, env, word) == Out(None, env', [EMPTY_FIELD])
    ensures ExpandWord(o, env, word) == Expansion(None, env', [])
  {
    Finished(o, env, word, env', [EMPTY_FIELD]);
    FinishOne(o, env', EMPTY_FIELD);
  }

  /** `${x:+w}` without a value is nothing, whatever the word is; so are `${x:-}`
      without one and `${x:+}`. */
  lemma NothingUsed(o: Oracle, env: Env, x: Text, w: Option<Word>, colon: bool, p: ParamExpr)
    requires p == Alt(x, None, colon) ||
             (!HasValue(o, env, x, colon) && (p == Alt(x, w, colon) || p == Default(x, None, colon)))
    ensures ExpandWord(o, env, Braced(p)) == Expansion(None, env, [])
  {
    OnePart(o, env, Parameter(p));
    assert ExpandParam(o, env, p, [EMPTY_FIELD], false) == Out(None, env, [EMPTY_FIELD]);
    NoText(o, env, Braced(p), env);
  }

  /** The word of `${x:=…}`: a text, or none, which is an empty one. */
  function AssignedWord(s: Option<Text>): Option<Word> { if s.Some? then TextWord(s.value) else None }

  /** What assigning `s` to `x` gives; `$LINENO` is not assigned. */
  function Assigned(o: Oracle, env: Env, x: Text, s: Text): Result<Env, Env> {
    if o.unassignable(x) then Err(env) else if x == LINENO then Ok(env) else o.assign(env, x, s)
  }

  /** The fields of `${x:=s}` without a value, behind those of `f`. */
  lemma AssignPushed(o: Oracle, env: Env, x: Text, s: Option<Text>, colon: bool, f: Field)
    requires !HasValue(o, env, x, colon)
    ensures var t := if s.Some? then s.value else [];
            ExpandParam(o, env, Assign(x, AssignedWord(s), colon), [f], false) ==
            match Assigned(o, env, x, t)
            case Ok(env') => Out(None, env', [AddExpanded(f, t)])
            case Err(env') => Out(None, o.expansionError(env'), [f])
  {
    var t := if s.Some? then s.value else [];
    if s.Some? { ModifierText(o, env, t); }
    assert AddExpanded(EMPTY_FIELD, []) == EMPTY_FIELD;
    AssignedText(o, env, x, t, f);
  }

  lemma AssignedText(o: Oracle, env: Env, x: Text, s: Text, f: Field)
    ensures AssignResult(o, env, x, [AddExpanded(EMPTY_FIELD, s)], [f]) ==
            match (if x == LINENO then Ok(env) else o.assign(env, x, s))
            case Ok(env') => Out(None, env', [AddExpanded(f, s)])
            case Err(env') => Out(None, o.expansionError(env'), [f])
  {
    var g := AddExpanded(EMPTY_FIELD, s);
    assert Bytes(g.cells) == s && [] + CellsOf(s, false, false) == CellsOf(s, false, false);
    assert Append(f, g) == AddExpanded(f, s);
    assert SetLast([f], Append(f, g)) + [g][1..] == [Append(f, g)];
  }

  /** `${x:=s}` without a value assigns `s` and is then `s`, split under the IFS
      there is after the assignment; a refused one is an expansion error. */
  lemma TextAssigned(o: Oracle, env: Env, x: Text, s: Option<Text>, colon: bool)
    requires !HasValue(o, env, x, colon)
    ensures var t := if s.Some? then s.value else [];
            ExpandWord(o, env, Braced(Assign(x, AssignedWord(s), colon))) ==
            match Assigned(o, env, x, t)
            case Ok(env') => Unquotes(o, env', t)
            case Err(env') => Expansion(None, o.expansionError(env'), [])
  {
    var word, t := Braced(Assign(x, AssignedWord(s), colon)), if s.Some? then s.value else [];
    OnePart(o, env, Parameter(Assign(x, AssignedWord(s), colon)));
    AssignPushed(o, env, x, s, colon, EMPTY_FIELD);
    match Assigned(o, env, x, t)
    case Ok(env') => OneUnquoted(o, env, word, env', t);
    case Err(env') => NoText(o, env, word, o.expansionError(env'));
  }

  /** `'a'${x:=s}` goes on with what is before it like `'a'$x`. */
  lemma TextThenAssigned(o: Oracle, env: Env, part: WordPart, a: Text, x: Text, s: Text, colon: bool, env': Env)
    requires !HasValue(o, env, x, colon) && Assigned(o, env, x, s) == Ok(env') && o.noglob
    requires IsQuotedText(part, a) || (part == Literal(a) && a != [])
    ensures ExpandWord(o, env, Word([part, Parameter(Assign(x, TextWord(s), colon))])) ==
            Expansion(None, env', PiecesAround(SepsOf(FieldSplit.IfsValue(env'.ifs)), a, s, None))
  {
    var f := TextField(part, a);
    AssignPushed(o, env, x, Some(s), colon, f);
    TwoParts(o, env, part, env, Parameter(Assign(x, TextWord(s), colon)), env', [f], [AddExpanded(f, s)]);
    Finished(o, env, Word([part, Parameter(Assign(x, TextWord(s), colon))]), env', [AddExpanded(f, s)]);
    HeadShape(part, a, s);
    FinishShape(o, env', AddExpanded(f, s), a, if a == [] then 1 else 0, s, None);
  }

  /** The fields of `${x:=$@}`: those of `$@`, whose joined text is assigned. */
  lemma ListAssignPushed(o: Oracle, env: Env, x: Text, colon: bool, env': Env, fs: seq<Field>)
    requires !HasValue(o, env, x, colon) && fs != []
    requires ExpandPart(o, env, AT_PART, [EMPTY_FIELD], false) == Out(None, env, fs)
    requires Assigned(o, env, x, JoinFields(fs)) == Ok(env')
    ensures ExpandParam(o, env, Assign(x, Some(Braced(Special(At))), colon), [EMPTY_FIELD], false)
         == Out(None, env', SetLast([EMPTY_FIELD], Append(EMPTY_FIELD, fs[0])) + fs[1..])
  {
    assert [AT_PART][1..] == [] && ExpandModifier(o, env, [], fs, false) == Out(None, env, fs);
    assert ExpandModifier(o, env, [AT_PART], [EMPTY_FIELD], false) == Out(None, env, fs);
  }

  /** `${x:=$@}` assigns the parameters with spaces between them, and is `$@`. */
  lemma ListAssigned(o: Oracle, env: Env, x: Text, colon: bool, env': Env)
    requires !HasValue(o, env, x, colon) && env.params != []
    requires Assigned(o, env, x, Strung(env.params, [0x20])) == Ok(env')
    ensures ExpandWord(o, env, Braced(Assign(x, Some(Braced(Special(At))), colon))) ==
            Expansion(None, env', GlobTexts(o, env', PiecesEach(FieldSplit.IfsValue(env'.ifs), env.params)))
  {
    var p, ts := Assign(x, Some(Braced(Special(At))), colon), env.params;
    var fs := PushEach([EMPTY_FIELD], ts, None, false);
    JoinEach(ts, None);
    JoinIsStrung(ts, [0x20]);
    PushEachUnquoted(ts, None);
    ListAssignPushed(o, env, x, colon, env', fs);
    var gs := SetLast([EMPTY_FIELD], Append(EMPTY_FIELD, fs[0])) + fs[1..];
    AppendedFirst(fs, ts, gs);
    OnePart(o, env, Parameter(p));
    Finished(o, env, Braced(p), env', gs);
    FinishUnquoted(o, env', gs, ts);
  }

  lemma AppendedFirst(fs: seq<Field>, ts: seq<Text>, gs: seq<Field>)
    requires ts != [] && EachUnquoted(fs, ts)
    requires gs == SetLast([EMPTY_FIELD], Append(EMPTY_FIELD, fs[0])) + fs[1..]
    ensures EachUnquoted(gs, ts)
  {
    assert NoteQuotes([], [], 0) == [];
    assert gs[0].cells == fs[0].cells && forall k :: 1 <= k < |gs| ==> gs[k] == fs[k];
  }

  /** The tilde of `${x:-~}` is the home directory, whole; the text when there is
      none, split like any unquoted text of such a word. */
  lemma TildeUsed(o: Oracle, env: Env, x: Text, colon: bool)
    requires !HasValue(o, env, x, colon) && env.home != Some([])
    ensures ExpandWord(o, env, Braced(Default(x, Some(Word([Tilde(None)])), colon))) ==
            if env.home.Some? then Expansion(None, env, [env.home.value]) else Unquotes(o, env, [0x7E])
  {
    var p := Default(x, Some(Word([Tilde(None)])), colon);
    var f := if env.home.Some? then AddQuoted(EMPTY_FIELD, env.home.value) else AddExpanded(EMPTY_FIELD, [0x7E]);
    assert TILDE + [] == [0x7E] && [Tilde(None)][1..] == [];
    assert ExpandModifier(o, env, [], [f], false) == Out(None, env, [f]);
    assert ExpandModifier(o, env, [Tilde(None)], [EMPTY_FIELD], false) == Out(None, env, [f]);
    OnePart(o, env, Parameter(p));
    if env.home.Some? {
      PushedQuoted(EMPTY_FIELD, env.home.value);
      QuotedWhole(o, env, Braced(p), env, f, env.home.value);
    } else {
      OneUnquoted(o, env, Braced(p), env, [0x7E]);
    }
  }

  /** In double quotes the forms are one text each. */
  lemma QuotedDefault(o: Oracle, env: Env, x: Text, s: Text, colon: bool)
    requires OneValue(x)
    ensures ExpandWord(o, env, InQuotes(Default(x, TextWord(s), colon))) ==
            Expansion(None, env, [if HasValue(o, env, x, colon) then o.lookup(env, x).value else s])
  {
    var marked, p := EMPTY_FIELD.(wasQuoted := true), Default(x, TextWord(s), colon);
    if HasValue(o, env, x, colon) {
      var v := o.lookup(env, x).value;
      ValuePushed(o, env, x, TextWord(s), colon, p, marked, true);
      QuotedPushed(o, env, p, [AddQuoted(marked, v)], v);
    } else {
      QuotedModifier(o, env, s, marked);
      assert ExpandParam(o, env, p, [marked], true) == ExpandModifier(o, env, [Literal(s)], [marked], true);
      QuotedPushed(o, env, p, [AddQuoted(marked, s)], s);
    }
  }

  lemma QuotedAlternative(o: Oracle, env: Env, x: Text, s: Text, colon: bool)
    ensures ExpandWord(o, env, InQuotes(Alt(x, TextWord(s), colon))) ==
            Expansion(None, env, [if HasValue(o, env, x, colon) then s else []])
  {
    var marked, p := EMPTY_FIELD.(wasQuoted := true), Alt(x, TextWord(s), colon);
    if HasValue(o, env, x, colon) {
      QuotedModifier(o, env, s, marked);
      assert ExpandParam(o, env, p, [marked], true) == ExpandModifier(o, env, [Literal(s)], [marked], true);
      QuotedPushed(o, env, p, [AddQuoted(marked, s)], s);
    } else {
      QuotedPushed(o, env, p, [marked], []);
    }
  }

  lemma QuotedModifier(o: Oracle, env: Env, s: Text, f: Field)
    ensures ExpandModifier(o, env, [Literal(s)], [f], true) == Out(None, env, [AddQuoted(f, s)])
  {
    var fs := [AddQuoted(f, s)];
    assert [Literal(s)][1..] == [] && ExpandModifier(o, env, [], fs, true) == Out(None, env, fs);
  }

  lemma QuotedPushed(o: Oracle, env: Env, p: ParamExpr, fs: seq<Field>, v: Text)
    requires ExpandParam(o, env, p, [EMPTY_FIELD.(wasQuoted := true)], true) == Out(None, env, fs)
    requires p.Default? || p.Alt?
    requires fs == [AddQuoted(EMPTY_FIELD.(wasQuoted := true), v)]
          || (v == [] && fs == [EMPTY_FIELD.(wasQuoted := true)])
    ensures ExpandWord(o, env, InQuotes(p)) == Expansion(None, env, [v])
  {
    var part, marked := Parameter(p), EMPTY_FIELD.(wasQuoted := true);
    OnePart(o, env, DoubleQuoted([part]));
    PushedQuoted(marked, v);
    assert [part][1..] == [] && SetLast([EMPTY_FIELD], marked) == [marked];
    assert ExpandParts(o, env, [], fs, true) == Out(None, env, fs);
    assert ExpandParts(o, env, [part], [marked], true) == Out(None, env, fs);
    assert !ExpandedToNoField(env, part);
    QuotedWhole(o, env, InQuotes(p), env, if v == [] then AddQuoted(fs[0], []) else fs[0], v);
  }

  // ----- the parameter list inside quotes -----

  /** The parameters, the first behind `a` and the last before `b`. */
  function Enclosed(a: Text, ts: seq<Text>, b: Text): seq<Text> {
    if ts == [] then [a + b]
    else if |ts| == 1 then [a + ts[0] + b]
    else [a + ts[0]] + ts[1..|ts| - 1] + [ts[|ts| - 1] + b]
  }

  /** `fs` hold these texts, quoted. */
  predicate HoldEach(fs: seq<Field>, ts: seq<Text>) {
    |fs| == |ts| && forall k :: 0 <= k < |fs| ==> ScalarProps.Holds(fs[k], ts[k])
  }

  lemma {:induction false} PushEachBehind(f: Field, a: Text, ts: seq<Text>)
    requires ScalarProps.Holds(f, a) && ts != []
    ensures HoldEach(PushEach([f], ts, None, true), [a + ts[0]] + ts[1..])
  {
    var init, t := ts[..|ts| - 1], ts[|ts| - 1];
    if |ts| > 1 {
      PushEachBehind(f, a, init);
      var before := PushEach([f], init, None, true);
      assert EMPTY_FIELD.(joinSep := None) == EMPTY_FIELD;
      assert PushEach([f], ts, None, true) == before + [AddQuoted(EMPTY_FIELD, t)];
      PushedQuoted(EMPTY_FIELD, t);
      assert [a + ts[0]] + ts[1..] == ([a + init[0]] + init[1..]) + [t];
    } else {
      assert PushEach([f], init, None, true) == [f];
      assert PushEach([f], ts, None, true) == [AddQuoted(f, t)];
      HoldsMore(f, a, t);
    }
  }

  lemma HoldsMore(f: Field, a: Text, b: Text)
    requires ScalarProps.Holds(f, a)
    ensures ScalarProps.Holds(AddQuoted(f, b), a + b)
  {
  }

  /** The last field goes on with `b`. */
  lemma HoldBefore(fs: seq<Field>, a: Text, ts: seq<Text>, b: Text)
    requires ts != [] && HoldEach(fs, [a + ts[0]] + ts[1..])
    ensures fs != [] && HoldEach(PushLast(Quoted, fs, b), Enclosed(a, ts, b))
  {
    HoldsMore(Last(fs), ([a + ts[0]] + ts[1..])[|ts| - 1], b);
  }

  const AT_PART := Parameter(Special(At))

  /** The fields of `"a$@b"`. */
  lemma EnclosedFields(o: Oracle, env: Env, a: Text, b: Text) returns (fs: seq<Field>)
    requires a != []
    ensures WordFields(o, env, Word([DoubleQuoted([Literal(a), AT_PART, Literal(b)])])) == Out(None, env, fs)
    ensures HoldEach(fs, Enclosed(a, env.params, b))
  {
    var marked := EMPTY_FIELD.(wasQuoted := true);
    var parts := [Literal(a), AT_PART, Literal(b)];
    var f := AddQuoted(marked, a);
    PushedQuoted(marked, a);
    var gs := if env.params == [] then [f] else PushEach([f], env.params, None, true);
    if env.params == [] {
      HoldsMore(f, a, b);
    } else {
      PushEachBehind(f, a, env.params);
      HoldBefore(gs, a, env.params, b);
    }
    fs := PushLast(Quoted, gs, b);
    OnePart(o, env, DoubleQuoted(parts));
    InnerParts(o, env, a, b, marked, f, gs, fs);
    EnclosedLonger(a, env.params, b, fs);
    assert SetLast([EMPTY_FIELD], marked) == [marked];
  }

  lemma InnerParts(o: Oracle, env: Env, a: Text, b: Text, marked: Field, f: Field, gs: seq<Field>, fs: seq<Field>)
    requires f == AddQuoted(marked, a) && a != [] && marked.cells == []
    requires gs == (if env.params == [] then [f] else PushEach([f], env.params, None, true))
    requires fs == PushLast(Quoted, gs, b)
    ensures ExpandParts(o, env, [Literal(a), AT_PART, Literal(b)], [marked], true) == Out(None, env, fs)
  {
    var parts := [Literal(a), AT_PART, Literal(b)];
    assert parts[1..] == [AT_PART, Literal(b)] && parts[1..][1..] == [Literal(b)] && [Literal(b)][1..] == [];
    assert ExpandParts(o, env, [], fs, true) == Out(None, env, fs);
    assert ExpandParts(o, env, [Literal(b)], gs, true) == Out(None, env, fs);
    assert ExpandPart(o, env, AT_PART, [f], true) == Out(None, env, gs);
    assert ExpandParts(o, env, [AT_PART, Literal(b)], [f], true) == Out(None, env, fs);
    assert SetLast([marked], f) == [f] && ExpandPart(o, env, Literal(a), [marked], true) == Out(None, env, [f]);
  }

  lemma EnclosedLonger(a: Text, ts: seq<Text>, b: Text, fs: seq<Field>)
    requires a != [] && HoldEach(fs, Enclosed(a, ts, b))
    ensures |fs| == 1 ==> Last(fs).cells != []
    ensures fs != []
  {
    assert |fs| == 1 ==> ScalarProps.Holds(fs[0], Enclosed(a, ts, b)[0]);
  }

  /** `"a$@b"`: the parameters, none of them split, the first behind `a` and the
      last before `b`; only the two texts when there are none. */
  lemma EnclosedList(o: Oracle, env: Env, a: Text, b: Text)
    requires a != []
    ensures ExpandWord(o, env, Word([DoubleQuoted([Literal(a), AT_PART, Literal(b)])])) ==
            Expansion(None, env, Enclosed(a, env.params, b))
  {
    var fs := EnclosedFields(o, env, a, b);
    Finished(o, env, Word([DoubleQuoted([Literal(a), AT_PART, Literal(b)])]), env, fs);
    FinishHolds(o, env, fs, Enclosed(a, env.params, b));
  }

  /** `''"$@"` and `"$@"''` without parameters are one empty text: the quotes
      around nothing stay what they are. */
  lemma EmptyListBeside(o: Oracle, env: Env, first: bool)
    requires env.params == []
    ensures var list, quotes := DoubleQuoted([AT_PART]), SingleQuoted([]);
            ExpandWord(o, env, Word(if first then [list, quotes] else [quotes, list])) == Expansion(None, env, [[]])
  {
    var list, quotes := DoubleQuoted([AT_PART]), SingleQuoted([]);
    var f := AddQuoted(EMPTY_FIELD, []);
    EmptyList(o, env, EMPTY_FIELD);
    EmptyList(o, env, f);
    PushedQuoted(EMPTY_FIELD, []);
    if first {
      TwoParts(o, env, list, env, quotes, env, [EMPTY_FIELD], [f]);
      QuotedWhole(o, env, Word([list, quotes]), env, f, []);
    } else {
      TwoParts(o, env, quotes, env, list, env, [f], [f]);
      QuotedWhole(o, env, Word([quotes, list]), env, f, []);
    }
  }

  lemma EmptyList(o: Oracle, env: Env, f: Field)
    requires env.params == [] && (f == EMPTY_FIELD || f == AddQuoted(EMPTY_FIELD, []))
    ensures ExpandPart(o, env, DoubleQuoted([AT_PART]), [f], false) == Out(None, env, [f])
  {
    var marked := f.(wasQuoted := true);
    assert SetLast([f], marked) == [marked] && [AT_PART][1..] == [];
    assert ExpandPart(o, env, AT_PART, [marked], true) == Out(None, env, [f]);
    assert ExpandParts(o, env, [], [f], true) == Out(None, env, [f]);
    assert ExpandParts(o, env, [AT_PART], [marked], true) == Out(None, env, [f]);
    assert ExpandedToNoField(env, [AT_PART][0]);
  }

  // ----- the forms on the parameter list -----

  function ListName(sp: SpecialParam): Text { if sp == Star then [0x2A] else [0x40] }

  lemma SameFields(o: Oracle, env: Env, p: ParamExpr, q: ParamExpr)
    requires ExpandParam(o, env, p, [EMPTY_FIELD], false) == ExpandParam(o, env, q, [EMPTY_FIELD], false)
    ensures ExpandWord(o, env, Braced(p)) == ExpandWord(o, env, Braced(q))
  {
    OnePart(o, env, Parameter(p));
    OnePart(o, env, Parameter(q));
    FastPathAgrees(o, env, Braced(p));
    FastPathAgrees(o, env, Braced(q));
  }

  /** `${@:-w}`, `${@:=w}` and `${@:?w}` with parameters are `$@`. */
  lemma ListUsed(o: Oracle, env: Env, sp: SpecialParam, w: Option<Word>, colon: bool, p: ParamExpr)
    requires (sp == At || sp == Star) && HasValue(o, env, ListName(sp), colon)
    requires p == Default(ListName(sp), w, colon) || p == Assign(ListName(sp), w, colon)
          || p == ParamExpr.Error(ListName(sp), w, colon)
    ensures ExpandWord(o, env, Braced(p)) == ExpandWord(o, env, Braced(Special(sp)))
  {
    assert PositionalSpecial(ListName(sp)) == Some(sp == Star);
    assert ExpandParam(o, env, p, [EMPTY_FIELD], false)
        == Out(None, env, PushPositionals(env, [EMPTY_FIELD], env.params, sp == Star, false));
    SameFields(o, env, p, Special(sp));
  }

  /** What is left of each text. */
  function EachStripped(o: Oracle, kind: StripKind, ts: seq<Text>, pattern: Text): seq<Text> {
    if ts == [] then [] else [o.strip(kind, ts[0], pattern)] + EachStripped(o, kind, ts[1..], pattern)
  }

  lemma {:induction false} StripIsEach(o: Oracle, kind: StripKind, ts: seq<Text>, pattern: Text)
    ensures StripEach(o, kind, ts, pattern) == EachStripped(o, kind, ts, pattern)
  {
    if ts != [] {
      StripIsEach(o, kind, ts[1..], pattern);
      assert StripEach(o, kind, ts, pattern)
          == [o.strip(kind, ts[0], pattern)] + StripEach(o, kind, ts[1..], pattern);
    }
  }

  /** `${@#pattern}` and its relatives: each parameter without what matches. */
  lemma ListStripped(o: Oracle, env: Env, kind: StripKind, pattern: Text)
    ensures ExpandWord(o, env, Braced(Strip(kind, [0x40], Word([Literal(pattern)])))) ==
            Expansion(None, env, GlobTexts(o, env,
              PiecesEach(FieldSplit.IfsValue(env.ifs), EachStripped(o, kind, env.params, pattern))))
  {
    var p, ts := Strip(kind, [0x40], Word([Literal(pattern)])), EachStripped(o, kind, env.params, pattern);
    StripIsEach(o, kind, env.params, pattern);
    OnePart(o, env, Parameter(p));
    var fs := if ts == [] then [EMPTY_FIELD] else PushEach([EMPTY_FIELD], ts, None, false);
    assert ExpandParam(o, env, p, [EMPTY_FIELD], false) == Out(None, env, fs);
    Finished(o, env, Braced(p), env, fs);
    if ts == [] {
      assert Unquoted(EMPTY_FIELD, []);
      FinishUnquoted(o, env, fs, [[]]);
      EachOne(FieldSplit.IfsValue(env.ifs), []);
    } else {
      PushEachUnquoted(ts, None);
      FinishUnquoted(o, env, fs, ts);
    }
  }

  // ----- order -----

  /** Parts expand from left to right, each in the environment left before it. */
  lemma PartsInOrder(o: Oracle, env: Env, c: int, d: int)
    ensures var (t, env') := o.command(env, c);
            var (u, env'') := o.command(env', d);
            ExpandWord(o, env, Word([CommandSub(c), CommandSub(d)])) == Unquotes(o, env'', t + u)
  {
    var (t, env') := o.command(env, c);
    var (u, env'') := o.command(env', d);
    var f := AddExpanded(EMPTY_FIELD, t);
    TwoParts(o, env, CommandSub(c), env', CommandSub(d), env'', [f], [AddExpanded(f, u)]);
    assert AddExpanded(f, u) == AddExpanded(EMPTY_FIELD, t + u);
    OneUnquoted(o, env, Word([CommandSub(c), CommandSub(d)]), env'', t + u);
  }

  /** An error ends the word: the parts behind it do not expand. */
  lemma ErrorEndsWord(o: Oracle, env: Env, e: Text, x: int, env': Env, rest: seq<WordPart>)
    requires o.arith(env, e) == (Err(x), env')
    ensures ExpandWord(o, env, Word([ArithSub(e)] + rest)) == Expansion(Some(x), env', [])
  {
    var word := Word([ArithSub(e)] + rest);
    FastPathAgrees(o, env, word);
    assert ExpandPart(o, env, ArithSub(e), [EMPTY_FIELD], false) == Out(Some(x), env', [EMPTY_FIELD]);
    assert WordFields(o, env, word) == Out(Some(x), env', [EMPTY_FIELD]);
  }

  // ----- tildes -----

  /** `~` and `~name`: the directory, quoted; nothing when that is empty, and
      the text as it was written when there is none. */
  lemma Home(o: Oracle, env: Env, user: Option<Text>)
    ensures ExpandWord(o, env, Word([Tilde(user)])) ==
            match (if user.None? then env.home else o.homeOf(env, user.value))
            case Some(dir) => Expansion(None, env, if dir == [] then [] else [dir])
            case None => Expansion(None, env, GlobText(o, env, [0x7E] + if user.None? then [] else user.value))
  {
    var word := Word([Tilde(user)]);
    OnePart(o, env, Tilde(user));
    match (if user.None? then env.home else o.homeOf(env, user.value)) {
      case Some(dir) =>
        if dir == [] {
          NoText(o, env, word, env);
        } else {
          PushedQuoted(EMPTY_FIELD, dir);
          QuotedWhole(o, env, word, env, AddQuoted(EMPTY_FIELD, dir), dir);
        }
      case None =>
        var s := [0x7E] + if user.None? then [] else user.value;
        var f := AddLiteral(EMPTY_FIELD, s);
        Finished(o, env, word, env, [f]);
        assert f.cells == CellsOf(s, true, false);
        LiteralFinish(o, env, f, s);
    }
  }

  // ----- where one string is wanted -----

  lemma StringOf(o: Oracle, env: Env, word: Word, env': Env, fs: seq<Field>)
    requires WordFields(o, env, word) == Out(None, env', fs)
    ensures WordToString(o, env, word) == (Ok(JoinFields(fs)), env')
  {
    StringFastPathAgrees(o, env, word);
  }

  /** A value is taken whole. */
  lemma ValueString(o: Oracle, env: Env, x: Text, v: Text)
    requires o.lookup(env, x) == Some(v)
    ensures WordToString(o, env, Word([Parameter(Simple(x))])) == (Ok(v), env)
  {
    OnePart(o, env, Parameter(Simple(x)));
    StringOf(o, env, Word([Parameter(Simple(x))]), env, [AddExpanded(EMPTY_FIELD, v)]);
    assert Bytes(AddExpanded(EMPTY_FIELD, v).cells) == v;
  }

  lemma PushedEach(ts: seq<Text>, sep: Option<Text>)
    requires ts != []
    ensures PushEach([EMPTY_FIELD], ts, sep, false) ==
            if |ts| == 1 then [AddExpanded(EMPTY_FIELD, ts[0])]
            else PushEach([EMPTY_FIELD], ts[..|ts| - 1], sep, false)
                 + [AddExpanded(EMPTY_FIELD.(joinSep := sep), ts[|ts| - 1])]
  {
    if |ts| == 1 { assert PushEach([EMPTY_FIELD], ts[..0], sep, false) == [EMPTY_FIELD]; }
  }

  lemma JoinSnoc(fs: seq<Field>, f: Field)
    requires fs != []
    ensures JoinFields(fs + [f]) == JoinFields(fs) + Separator(f) + Bytes(f.cells)
  {
    assert (fs + [f])[..|fs|] == fs;
  }

  lemma {:induction false} JoinEach(ts: seq<Text>, sep: Option<Text>)
    requires ts != []
    ensures JoinFields(PushEach([EMPTY_FIELD], ts, sep, false))
         == JoinWith(ts, match sep case Some(s) => s case None => [0x20])
  {
    var t, next := ts[|ts| - 1], EMPTY_FIELD.(joinSep := sep);
    PushedEach(ts, sep);
    assert Bytes(AddExpanded(next, t).cells) == t == Bytes(AddExpanded(EMPTY_FIELD, t).cells);
    if |ts| > 1 {
      JoinEach(ts[..|ts| - 1], sep);
      JoinSnoc(PushEach([EMPTY_FIELD], ts[..|ts| - 1], sep, false), AddExpanded(next, t));
    }
  }

  /** `$@` is the parameters with spaces between them, `$*` with what `"$*"` has. */
  lemma ListString(o: Oracle, env: Env, sp: SpecialParam)
    requires sp == At || sp == Star
    ensures WordToString(o, env, Word([Parameter(Special(sp))])) ==
            (Ok(Strung(env.params, if sp == Star then JoinSeparator(env) else [0x20])), env)
  {
    var sep := if sp == Star then Some(JoinSeparator(env)) else None;
    OnePart(o, env, Parameter(Special(sp)));
    if env.params == [] {
      StringOf(o, env, Word([Parameter(Special(sp))]), env, [EMPTY_FIELD]);
    } else {
      JoinEach(env.params, sep);
      JoinIsStrung(env.params, if sp == Star then JoinSeparator(env) else [0x20]);
      StringOf(o, env, Word([Parameter(Special(sp))]), env, PushEach([EMPTY_FIELD], env.params, sep, false));
    }
  }

  // ----- where a pattern is wanted -----

  /** Each pattern character behind a backslash. */
  function Backslashed(t: Text): Text {
    if t == [] then [] else
      (if t[0] in [0x2A, 0x3F, 0x5B, 0x5D, 0x5C, 0x21, 0x2D] then [0x5C, t[0]] else [t[0]]) + Backslashed(t[1..])
  }

  lemma {:induction false} BackslashedSnoc(t: Text, b: byte)
    ensures Backslashed(t + [b]) == Backslashed(t) + Backslashed([b])
  {
    if t == [] {
      assert t + [b] == [b] && Backslashed([]) + Backslashed([b]) == Backslashed([b]);
    } else {
      ConcatHead(t, [b]);
      BackslashedSnoc(t[1..], b);
      Assoc(if t[0] in [0x2A, 0x3F, 0x5B, 0x5D, 0x5C, 0x21, 0x2D] then [0x5C, t[0]] else [t[0]],
        Backslashed(t[1..]), Backslashed([b]));
    }
  }

  lemma {:induction false} QuotedPattern(t: Text)
    ensures EscapedPattern(CellsOf(t, true, true)) == Backslashed(t)
  {
    if t != [] {
      var init, b := t[..|t| - 1], t[|t| - 1];
      QuotedPattern(init);
      BackslashedSnoc(init, b);
      assert init + [b] == t && CellsOf(t, true, true)[..|t| - 1] == CellsOf(init, true, true);
      assert [b][1..] == [];
    }
  }

  lemma PatternFields(o: Oracle, env: Env, part: WordPart, f: Field)
    requires ExpandPart(o, env, part, [EMPTY_FIELD], false) == Out(None, env, [f]) && !part.Literal?
    ensures WordToPattern(o, env, Word([part])) == (Ok(EscapedPattern(f.cells)), env)
  {
    OnePart(o, env, part);
  }

  /** Quoted text matches itself. */
  lemma QuotedIsPlain(o: Oracle, env: Env, part: WordPart, s: Text)
    requires IsQuotedText(part, s)
    ensures WordToPattern(o, env, Word([part])) == (Ok(Backslashed(s)), env)
  {
    PatternFields(o, env, part, AddQuoted(EMPTY_FIELD, s));
    PushedQuoted(EMPTY_FIELD, s);
    QuotedPattern(s);
  }

  /** Unquoted text and values are patterns. */
  lemma UnquotedIsPattern(o: Oracle, env: Env, x: Text, s: Text)
    ensures WordToPattern(o, env, Word([Literal(s)])) == (Ok(s), env)
    ensures o.lookup(env, x) == Some(s) ==> WordToPattern(o, env, Word([Parameter(Simple(x))])) == (Ok(s), env)
  {
    if o.lookup(env, x) == Some(s) {
      PatternFields(o, env, Parameter(Simple(x)), AddExpanded(EMPTY_FIELD, s));
      assert AddExpanded(EMPTY_FIELD, s).cells == CellsOf(s, false, false);
      PlainPattern(s);
    }
  }
}
