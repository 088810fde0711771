/** The shortcuts of word expansion are invisible: the fast path for words that
    make one string (src/expand/scalar.rs) and the pass-through of fields
    without delimiters give what the full pipeline gives. */
module ScalarProps {
  import opened Prelude
  import opened Fields
  import opened SplitSpec
  import opened SplitProps
  import FieldSplit
  import opened Pathname
  import opened ExpandSpec

  // ----- one field against one string -----

  predicate AllSplit(cells: seq<Cell>) { forall i :: 0 <= i < |cells| ==> cells[i].split }

  /** No unquoted byte can start a pattern. */
  predicate NoMeta(cells: seq<Cell>) {
    forall i :: 0 <= i < |cells| && !cells[i].glob ==> cells[i].b !in [STAR, QUESTION, OPEN_BRACKET]
  }

  /** The field the pipeline has where the fast path has `text` and `quoted`.
      In a string context only the bytes matter. */
  predicate Same(f: Field, text: Text, quoted: bool, stringCtx: bool, allowMeta: bool) {
    && Bytes(f.cells) == text
    && (!stringCtx ==> AllSplit(f.cells) && f.wasQuoted == quoted && (allowMeta || NoMeta(f.cells)))
  }

  lemma PushSame(kind: Kind, f: Field, s: Text, text: Text, quoted: bool, stringCtx: bool, allowMeta: bool)
    requires Same(f, text, quoted, stringCtx, allowMeta)
    requires !stringCtx ==> !kind.Expanded? && (kind.Lit? ==> allowMeta || !HasGlobMeta(s))
    ensures Same(Push(kind, f, s), text + s, quoted || kind.Quoted?, stringCtx, allowMeta)
  {
    var more := CellsOf(s, !kind.Expanded?, kind.Quoted?);
    var g := Push(kind, f, s);
    assert g.cells == f.cells + more;
    assert Bytes(g.cells) == Bytes(f.cells) + s;
    if !stringCtx && !allowMeta {
      forall i | |f.cells| <= i < |g.cells| && !g.cells[i].glob
        ensures g.cells[i].b !in [STAR, QUESTION, OPEN_BRACKET]
      {
        assert g.cells[i] == more[i - |f.cells|] && s[i - |f.cells|] == g.cells[i].b;
      }
    }
  }

  /** The two paths after one part. */
  predicate Agree(r: Out, s: ScalarOut, stringCtx: bool, allowMeta: bool) {
    && r.err == s.err && r.env == s.env
    && (r.err.None? ==> |r.fields| == 1 && Same(r.fields[0], s.text, s.quoted, stringCtx, allowMeta))
  }

  lemma {:induction false} PartAgrees(o: Oracle, env: Env, part: WordPart, f: Field, text: Text, quoted: bool,
                                      dq: bool, stringCtx: bool, allowMeta: bool)
    requires ScalarPartOk(part, dq, stringCtx, allowMeta) && Same(f, text, quoted, stringCtx, allowMeta)
    requires dq ==> quoted
    ensures Agree(ExpandPart(o, env, part, [f], dq), PushScalarPart(o, env, part, text, quoted), stringCtx, allowMeta)
    decreases part, 1
  {
    match part
    case DoubleQuoted(inner) => DoubleQuotedAgrees(o, env, inner, f, text, quoted, stringCtx, allowMeta);
    case Literal(s) => PushSame(if dq then Quoted else Lit, f, s, text, quoted, stringCtx, allowMeta);
    case EscapedLiteral(s) => PushSame(Quoted, f, s, text, quoted, stringCtx, allowMeta);
    case SingleQuoted(s) => PushSame(Quoted, f, s, text, quoted, stringCtx, allowMeta);
    case DollarSingleQuoted(s) => PushSame(Quoted, f, s, text, quoted, stringCtx, allowMeta);
    case CommandSub(c) => PushSame(ValueKind(dq), f, o.command(env, c).0, text, quoted, stringCtx, allowMeta);
    case ArithSub(e) =>
      var r := o.arith(env, e).0;
      if r.Ok? { PushSame(ValueKind(dq), f, r.value, text, quoted, stringCtx, allowMeta); }
    case Parameter(p) =>
      var r := ScalarValue(o, env, p).0;
      if r.Ok? { PushSame(ValueKind(dq), f, r.value, text, quoted, stringCtx, allowMeta); }
  }

  lemma {:induction false} PartsAgree(o: Oracle, env: Env, parts: seq<WordPart>, f: Field, text: Text, quoted: bool,
                                      dq: bool, stringCtx: bool, allowMeta: bool)
    requires ScalarPartsOk(parts, dq, stringCtx, allowMeta) && Same(f, text, quoted, stringCtx, allowMeta)
    requires dq ==> quoted
    ensures Agree(ExpandParts(o, env, parts, [f], dq), PushScalarParts(o, env, parts, text, quoted), stringCtx,
        allowMeta)
    decreases parts, 0
  {
    if parts != [] {
      PartAgrees(o, env, parts[0], f, text, quoted, dq, stringCtx, allowMeta);
      var r, s := ExpandPart(o, env, parts[0], [f], dq), PushScalarPart(o, env, parts[0], text, quoted);
      if r.err.None? {
        assert r.fields == [r.fields[0]];
        PartsAgree(o, r.env, parts[1..], r.fields[0], s.text, s.quoted, dq, stringCtx, allowMeta);
      }
    }
  }

  lemma DoubleQuotedAgrees(o: Oracle, env: Env, inner: seq<WordPart>, f: Field, text: Text, quoted: bool,
                           stringCtx: bool, allowMeta: bool)
    requires ScalarPartsOk(inner, true, stringCtx, allowMeta) && Same(f, text, quoted, stringCtx, allowMeta)
    ensures Agree(ExpandDoubleQuoted(o, env, inner, [f]), PushScalarParts(o, env, inner, text, true), stringCtx,
        allowMeta)
    decreases inner, 1
  {
    var marked := f.(wasQuoted := true);
    assert SetLast([f], marked) == [marked];
    PartsAgree(o, env, inner, marked, text, true, true, stringCtx, allowMeta);
    var r, s := ExpandParts(o, env, inner, [marked], true), PushScalarParts(o, env, inner, text, true);
    ScalarStaysQuoted(o, env, inner, text);
    if r.err.None? {
      PushSame(Quoted, r.fields[0], [], s.text, s.quoted, stringCtx, allowMeta);
      assert s.text + [] == s.text;
    }
  }

  lemma {:induction false} ScalarStaysQuoted(o: Oracle, env: Env, parts: seq<WordPart>, text: Text)
    ensures PushScalarParts(o, env, parts, text, true).quoted
    decreases parts
  {
    if parts != [] {
      match parts[0] {
        case DoubleQuoted(inner) => ScalarStaysQuoted(o, env, inner, text);
        case _ =>
      }
      var r := PushScalarPart(o, env, parts[0], text, true);
      if r.err.None? { ScalarStaysQuoted(o, r.env, parts[1..], r.text); }
    }
  }

  // ----- the stages leave protected fields alone -----

  predicate Inert(f: Field, noglob: bool) { AllSplit(f.cells) && (noglob || !HasGlob(f.cells)) }

  lemma NoMetaNoGlob(cells: seq<Cell>)
    requires NoMeta(cells)
    ensures !HasGlob(cells)
  {
  }

  lemma FinishInert(o: Oracle, env: Env, fs: seq<Field>)
    requires forall k :: 0 <= k < |fs| ==> Inert(fs[k], o.noglob)
    ensures Finish(o, env, fs) == Texts(KeepFields(fs))
  {
    var split := Split(FieldSplit.IfsValue(env.ifs) == [], Delimiters(env), fs);
    SplitInert(FieldSplit.IfsValue(env.ifs) == [], Delimiters(env), fs, o.noglob);
    KeepFieldsTwice(fs);
    if !o.noglob { NoGlobSame(Matches(o, env), split); }
  }

  lemma SplitInert(ifsEmpty: bool, d: Delims, fs: seq<Field>, noglob: bool)
    requires ValidDelims(d) && forall k :: 0 <= k < |fs| ==> Inert(fs[k], noglob)
    ensures Split(ifsEmpty, d, fs) == if ifsEmpty then KeepFields(fs) else fs
    ensures forall k :: 0 <= k < |Split(ifsEmpty, d, fs)| ==> Inert(Split(ifsEmpty, d, fs)[k], noglob)
  {
    KeepKeeps(fs, noglob);
    forall f | f in fs ensures !NeedsSplitting(d, f) {}
  }

  lemma {:induction false} KeepKeeps(fs: seq<Field>, noglob: bool)
    requires forall k :: 0 <= k < |fs| ==> Inert(fs[k], noglob)
    ensures forall k :: 0 <= k < |KeepFields(fs)| ==> Inert(KeepFields(fs)[k], noglob)
  {
    if fs != [] { KeepKeeps(fs[1..], noglob); }
  }

  // ----- the fast path -----

  /** The fast path of `expand_word_into` is invisible: same texts, same error,
      same environment, whatever IFS, `set -f` and the parameters are. */
  lemma FastPathAgrees(o: Oracle, env: Env, word: Word)
    ensures ExpandWord(o, env, word) == FullWord(o, env, word)
  {
    if ScalarPartsOk(word.parts, false, false, o.noglob) {
      PartsAgree(o, env, word.parts, EMPTY_FIELD, [], false, false, false, o.noglob);
      var r := WordFields(o, env, word);
      if r.err.None? {
        FinishOne(o, r.env, r.fields[0]);
        assert r.fields == [r.fields[0]];
      }
    }
  }

  /** One protected field comes out as its text, or not at all. */
  lemma FinishOne(o: Oracle, env: Env, f: Field)
    requires AllSplit(f.cells) && (o.noglob || NoMeta(f.cells))
    ensures Finish(o, env, [f]) == if Kept(f) then [Bytes(f.cells)] else []
  {
    if NoMeta(f.cells) { NoMetaNoGlob(f.cells); }
    FinishInert(o, env, [f]);
    KeepCons(f, []);
    assert [f] + [] == [f] && [f] + KeepFields([]) == [f];
    assert Texts([f]) == [Bytes(f.cells)];
  }

  /** The fast path of `expand_word_to_string` is invisible. */
  lemma StringFastPathAgrees(o: Oracle, env: Env, word: Word)
    ensures WordToString(o, env, word) == FullString(o, env, word)
  {
    if ScalarPartsOk(word.parts, false, true, true) {
      PartsAgree(o, env, word.parts, EMPTY_FIELD, [], false, false, true, true);
    }
  }

  // ----- "$@" -----

  const DOLLAR_AT := Word([DoubleQuoted([Parameter(Special(At))])])

  /** `f` holds exactly `t`, quoted. */
  predicate Holds(f: Field, t: Text) { f.cells == CellsOf(t, true, true) && f.wasQuoted }

  lemma {:induction false} PushEachQuoted(f: Field, ts: seq<Text>)
    requires f.cells == [] && ts != []
    ensures var fs := PushEach([f], ts, None, true);
            |fs| == |ts| && forall k :: 0 <= k < |ts| ==> Holds(fs[k], ts[k])
  {
    var init, t := ts[..|ts| - 1], ts[|ts| - 1];
    if |ts| > 1 {
      PushEachQuoted(f, init);
      var ready := PushEach([f], init, None, true) + [EMPTY_FIELD];
      assert EMPTY_FIELD.(joinSep := None) == EMPTY_FIELD;
      assert [] + CellsOf(t, true, true) == CellsOf(t, true, true);
      assert PushEach([f], ts, None, true) == SetLast(ready, AddQuoted(EMPTY_FIELD, t));
    } else {
      assert PushEach([f], init, None, true) == [f];
      assert [] + CellsOf(t, true, true) == CellsOf(t, true, true);
    }
  }

  /** `"$@"` is exactly the positional parameters, in order and byte for byte,
      for every parameter list, IFS and noglob setting. */
  lemma DollarAtIsTheParameters(o: Oracle, env: Env)
    ensures ExpandWord(o, env, DOLLAR_AT) == FullWord(o, env, DOLLAR_AT) == Expansion(None, env, env.params)
  {
    assert !ScalarPartsOk(DOLLAR_AT.parts, false, false, o.noglob) by {
      assert !ScalarPartOk(DOLLAR_AT.parts[0].parts[0], true, false, o.noglob);
    }
    DollarAtFields(o, env);
    var fs := WordFields(o, env, DOLLAR_AT).fields;
    if env.params == [] {
      FinishOne(o, env, EMPTY_FIELD);
    } else {
      FinishHolds(o, env, fs, env.params);
    }
  }

  /** The fields of `"$@"` before splitting. */
  lemma DollarAtFields(o: Oracle, env: Env)
    ensures var r := WordFields(o, env, DOLLAR_AT);
            && r.err == None && r.env == env
            && if env.params == [] then r.fields == [EMPTY_FIELD]
               else |r.fields| == |env.params| && forall k :: 0 <= k < |env.params| ==>
                   Holds(r.fields[k], env.params[k])
  {
    var at := Parameter(Special(At));
    var marked := EMPTY_FIELD.(wasQuoted := true);
    var inner := PushPositionals(env, [marked], env.params, false, true);
    assert SetLast([EMPTY_FIELD], marked) == [marked];
    assert [at][1..] == [] && DOLLAR_AT.parts[1..] == [];
    assert ExpandPart(o, env, at, [marked], true) == Out(None, env, inner);
    assert ExpandParts(o, env, [at], [marked], true) == Out(None, env, inner);
    if env.params == [] {
      assert ExpandedToNoField(env, [at][0]);
    } else {
      PushEachQuoted(marked, env.params);
      assert CellsOf([], true, true) == [] && Last(inner).cells + [] == Last(inner).cells;
    }
  }

  /** Quoted fields pass through every stage. */
  lemma FinishHolds(o: Oracle, env: Env, fs: seq<Field>, ts: seq<Text>)
    requires |fs| == |ts| && forall k :: 0 <= k < |ts| ==> Holds(fs[k], ts[k])
    ensures Finish(o, env, fs) == ts
  {
    FinishInert(o, env, fs);
    KeepAll(fs);
    forall k | 0 <= k < |ts| ensures Texts(fs)[k] == ts[k] {
      assert Bytes(CellsOf(ts[k], true, true)) == ts[k];
    }
  }
}
