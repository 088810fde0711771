/** The expansion pipeline as the source runs it: helpers that push into a
    vector of packed fields and change the environment. */
module Expand {
  import opened Prelude
  import opened Fields
  import opened SplitSpec
  import opened FieldSplit
  import opened Pathname
  import opened ExpandSpec
  import opened ScalarProps
  import opened WordProps

  class ShellEnv {
    var st: Env

    constructor (env: Env)
      ensures st == env
    {
      st := env;
    }
  }

  /** `Vec<ExpandedField>` while a word expands: never empty. */
  class FieldVec {
    var items: seq<ExpandedField>
    ghost var view: seq<Field>
    ghost var repr: set<object>

    ghost predicate Valid()
      reads this, repr
      ensures Valid() ==> this in repr && items != []
    {
      && this in repr && items != [] && |items| == |view|
      && (forall j, k :: 0 <= j < k < |items| ==> items[j] != items[k])
      && forall k :: 0 <= k < |items| ==> items[k] in repr && items[k].Valid() && items[k].View() == view[k]
    }

    constructor ()
      ensures Valid() && fresh(repr) && view == [EMPTY_FIELD]
    {
      var f := new ExpandedField();
      items, view := [f], [EMPTY_FIELD];
      repr := {this, f};
    }

    method PushLast(kind: Kind, s: Text)
      requires Valid()
      modifies repr
      ensures Valid() && repr == old(repr) && view == ExpandSpec.PushLast(kind, old(view), s)
    {
      var last := items[|items| - 1];
      match kind {
        case Quoted => last.PushQuoted(s);
        case Lit => last.PushLiteral(s);
        case Expanded => last.PushExpanded(s);
      }
      view := ExpandSpec.PushLast(kind, view, s);
    }

    method MarkQuoted()
      requires Valid()
      modifies repr
      ensures Valid() && repr == old(repr) && view == SetLast(old(view), Last(old(view)).(wasQuoted := true))
    {
      var last := items[|items| - 1];
      last.SetWasQuoted();
      view := SetLast(view, Last(view).(wasQuoted := true));
    }

    method AppendToLast(other: ExpandedField, ghost g: Field)
      requires Valid() && other !in repr && other.View() == g && WellFormed(g)
      modifies repr
      ensures Valid() && repr == old(repr) && view == SetLast(old(view), Append(Last(old(view)), g))
    {
      var last := items[|items| - 1];
      last.AppendField(other);
      view := SetLast(view, Append(Last(view), g));
    }

    /** `*f = ExpandedField::new()` on the last field. */
    method ResetLast()
      requires Valid()
      modifies repr
      ensures Valid() && fresh(repr - old(repr)) && view == SetLast(old(view), EMPTY_FIELD)
    {
      var f := new ExpandedField();
      items := items[|items| - 1 := f];
      view := SetLast(view, EMPTY_FIELD);
      repr := repr + {f};
    }

    method PushNew(joinSep: Option<Text>)
      requires Valid()
      modifies repr
      ensures Valid() && fresh(repr - old(repr)) && view == old(view) + [EMPTY_FIELD.(joinSep := joinSep)]
    {
      var f := new ExpandedField();
      f.SetJoinSep(joinSep);
      items := items + [f];
      view := view + [EMPTY_FIELD.(joinSep := joinSep)];
      repr := repr + {f};
    }
  }

  // ----- parts -----

  method ExpandParts(o: Oracle, env: ShellEnv, parts: seq<WordPart>, fields: FieldVec, dq: bool)
    returns (err: Option<int>)
    requires fields.Valid() && env !in fields.repr
    modifies env, fields.repr
    ensures fields.Valid() && fresh(fields.repr - old(fields.repr))
    ensures Out(err, env.st, fields.view) == ExpandSpec.ExpandParts(o, old(env.st), parts, old(fields.view), dq)
    decreases parts, 0
  {
    for i := 0 to |parts|
      invariant fields.Valid() && fresh(fields.repr - old(fields.repr))
      invariant ExpandSpec.ExpandParts(o, env.st, parts[i..], fields.view, dq) ==
                ExpandSpec.ExpandParts(o, old(env.st), parts, old(fields.view), dq)
    {
      assert parts[i..][0] == parts[i] && parts[i..][1..] == parts[i + 1..];
      err := ExpandPart(o, env, parts[i], fields, dq);
      if err.Some? { return; }
    }
    err := None;
  }

  method ExpandPart(o: Oracle, env: ShellEnv, part: WordPart, fields: FieldVec, dq: bool) returns (err: Option<int>)
    requires fields.Valid() && env !in fields.repr
    modifies env, fields.repr
    ensures fields.Valid() && fresh(fields.repr - old(fields.repr))
    ensures Out(err, env.st, fields.view) == ExpandSpec.ExpandPart(o, old(env.st), part, old(fields.view), dq)
    decreases part, 1
  {
    err := None;
    match part {
      case Literal(s) => fields.PushLast(if dq then Quoted else Lit, s);
      case EscapedLiteral(s) => fields.PushLast(Quoted, s);
      case SingleQuoted(s) => fields.PushLast(Quoted, s);
      case DollarSingleQuoted(s) => fields.PushLast(Quoted, s);
      case DoubleQuoted(parts) => err := ExpandDoubleQuoted(o, env, parts, fields);
      case Tilde(user) => ExpandTilde(o, env, user, fields, false);
      case Parameter(p) => err := ExpandParam(o, env, p, fields, dq);
      case CommandSub(c) => ExpandCommandSub(o, env, c, fields, dq);
      case ArithSub(e) => err := ExpandArithSub(o, env, e, fields, dq);
    }
  }

  method ExpandCommandSub(o: Oracle, env: ShellEnv, c: int, fields: FieldVec, dq: bool)
    requires fields.Valid() && env !in fields.repr
    modifies env, fields.repr
    ensures fields.Valid() && fresh(fields.repr - old(fields.repr))
    ensures Out(None, env.st, fields.view) == ExpandSpec.ExpandPart(o, old(env.st), CommandSub(c), old(fields.view), dq)
  {
    var r := o.command(env.st, c);
    env.st := r.1;
    fields.PushLast(ValueKind(dq), r.0);
  }

  method ExpandArithSub(o: Oracle, env: ShellEnv, e: Text, fields: FieldVec, dq: bool) returns (err: Option<int>)
    requires fields.Valid() && env !in fields.repr
    modifies env, fields.repr
    ensures fields.Valid() && fresh(fields.repr - old(fields.repr))
    ensures Out(err, env.st, fields.view) == ExpandSpec.ExpandPart(o, old(env.st), ArithSub(e), old(fields.view), dq)
  {
    err := None;
    var r := o.arith(env.st, e);
    env.st := r.1;
    match r.0 {
      case Ok(t) => fields.PushLast(ValueKind(dq), t);
      case Err(x) => err := Some(x);
    }
  }

  method ExpandDoubleQuoted(o: Oracle, env: ShellEnv, parts: seq<WordPart>, fields: FieldVec) returns (err: Option<int>)
    requires fields.Valid() && env !in fields.repr
    modifies env, fields.repr
    ensures fields.Valid() && fresh(fields.repr - old(fields.repr))
    ensures Out(err, env.st, fields.view) == ExpandSpec.ExpandDoubleQuoted(o, old(env.st), parts, old(fields.view))
    decreases parts, 1
  {
    fields.MarkQuoted();
    var count, bytes := |fields.items|, |fields.items[|fields.items| - 1].value|;
    assert bytes == |Last(old(fields.view)).cells|;
    err := ExpandParts(o, env, parts, fields, true);
    if err.Some? { return; }
    assert |fields.items[|fields.items| - 1].value| == |Last(fields.view).cells|;
    if (|fields.items|, |fields.items[|fields.items| - 1].value|) == (count, bytes) && !AnyNoField(env.st, parts) {
      fields.PushLast(Quoted, []);
    }
  }

  method ExpandTilde(o: Oracle, env: ShellEnv, user: Option<Text>, fields: FieldVec, inModifier: bool)
    requires fields.Valid() && env !in fields.repr
    modifies fields.repr
    ensures fields.Valid() && fresh(fields.repr - old(fields.repr))
    ensures fields.view == ExpandSpec.ExpandTilde(o, env.st, user, old(fields.view), inModifier)
  {
    var expanded := match user case None => env.st.home case Some(name) => o.homeOf(env.st, name);
    match expanded {
      case Some(dir) => if dir != [] { fields.PushLast(Quoted, dir); }
      case None =>
        fields.PushLast(if inModifier then Expanded else Lit, TILDE + match user case None => [] case Some(n) => n);
    }
  }

  // ----- parameters -----

  method PushEachValue(fields: FieldVec, ts: seq<Text>, sep: Option<Text>, dq: bool)
    requires fields.Valid()
    modifies fields.repr
    ensures fields.Valid() && fresh(fields.repr - old(fields.repr))
    ensures fields.view == PushEach(old(fields.view), ts, sep, dq)
  {
    for i := 0 to |ts|
      invariant fields.Valid() && fresh(fields.repr - old(fields.repr))
      invariant fields.view == PushEach(old(fields.view), ts[..i], sep, dq)
    {
      assert ts[..i + 1][..i] == ts[..i];
      if i > 0 { fields.PushNew(sep); }
      fields.PushLast(ValueKind(dq), ts[i]);
    }
    assert ts[..|ts|] == ts;
  }

  method PushPositionalValues(env: ShellEnv, fields: FieldVec, ts: seq<Text>, star: bool, dq: bool)
    requires fields.Valid() && env !in fields.repr
    modifies fields.repr
    ensures fields.Valid() && fresh(fields.repr - old(fields.repr))
    ensures fields.view == PushPositionals(env.st, old(fields.view), ts, star, dq)
  {
    if star && dq {
      fields.PushLast(Quoted, JoinWith(ts, JoinSeparator(env.st)));
      return;
    }
    if ts == [] {
      if dq {
        var f := fields.items[|fields.items| - 1];
        assert |f.value| == |Last(fields.view).cells|;
        if f.value == [] && !f.quotedContent { fields.ResetLast(); }
      }
      return;
    }
    PushEachValue(fields, ts, if star then Some(JoinSeparator(env.st)) else None, dq);
  }

  method ExpandScalarParam(o: Oracle, env: ShellEnv, p: ParamExpr, fields: FieldVec, dq: bool)
    returns (err: Option<int>)
    requires fields.Valid() && env !in fields.repr
    modifies env, fields.repr
    ensures fields.Valid() && fresh(fields.repr - old(fields.repr))
    ensures Out(err, env.st, fields.view) == ExpandScalar(o, old(env.st), p, old(fields.view), dq)
  {
    err := None;
    match SetScalarValue(o, env.st, p) {
      case Some(t) => fields.PushLast(ValueKind(dq), t);
      case None =>
        var r := o.param(env.st, p);
        env.st := r.1;
        match r.0 {
          case Ok(t) => fields.PushLast(ValueKind(dq), t);
          case Err(x) => err := Some(x);
        }
    }
  }

  method PushParamValue(env: ShellEnv, name: Text, v: Text, fields: FieldVec, dq: bool)
    requires fields.Valid() && env !in fields.repr
    modifies fields.repr
    ensures fields.Valid() && fresh(fields.repr - old(fields.repr))
    ensures fields.view == PushValue(env.st, name, v, old(fields.view), dq)
  {
    match PositionalSpecial(name) {
      case Some(star) => PushPositionalValues(env, fields, env.st.params, star, dq);
      case None => fields.PushLast(ValueKind(dq), v);
    }
  }

  method ExpandParam(o: Oracle, env: ShellEnv, p: ParamExpr, fields: FieldVec, dq: bool) returns (err: Option<int>)
    requires fields.Valid() && env !in fields.repr
    modifies env, fields.repr
    ensures fields.Valid() && fresh(fields.repr - old(fields.repr))
    ensures Out(err, env.st, fields.view) == ExpandSpec.ExpandParam(o, old(env.st), p, old(fields.view), dq)
    decreases p, 1
  {
    err := None;
    match p {
      case Special(At) => PushPositionalValues(env, fields, env.st.params, false, dq);
      case Special(Star) => PushPositionalValues(env, fields, env.st.params, true, dq);
      case Default(name, word, nullCheck) =>
        var v := o.lookup(env.st, name);
        if UnsetOrNull(v, nullCheck) {
          if word.Some? { err := ExpandModifier(o, env, word.value.parts, fields, dq); }
        } else {
          PushParamValue(env, name, v.value, fields, dq);
        }
      case Alt(name, word, nullCheck) =>
        if !UnsetOrNull(o.lookup(env.st, name), nullCheck) && word.Some? {
          err := ExpandModifier(o, env, word.value.parts, fields, dq);
        }
      case Assign(name, word, nullCheck) => err := ExpandAssign(o, env, name, word, nullCheck, fields, dq);
      case Error(name, _, nullCheck) =>
        if PositionalSpecial(name).Some? && !UnsetOrNull(o.lookup(env.st, name), nullCheck) {
          PushPositionalValues(env, fields, env.st.params, PositionalSpecial(name).value, dq);
        } else {
          err := ExpandScalarParam(o, env, p, fields, dq);
        }
      case Strip(kind, name, pattern) =>
        if PositionalSpecial(name).None? {
          err := ExpandScalarParam(o, env, p, fields, dq);
        } else {
          err := ExpandStripAll(o, env, kind, name, pattern, fields, dq);
        }
      case _ => err := ExpandScalarParam(o, env, p, fields, dq);
    }
  }

  /** `${@#pat}` and its relatives: the pattern is removed from every parameter. */
  method ExpandStripAll(o: Oracle, env: ShellEnv, kind: StripKind, name: Text, pattern: Word, fields: FieldVec,
      dq: bool)
    returns (err: Option<int>)
    requires fields.Valid() && env !in fields.repr && PositionalSpecial(name).Some?
    modifies env, fields.repr
    ensures fields.Valid() && fresh(fields.repr - old(fields.repr))
    ensures Out(err, env.st, fields.view) ==
            ExpandSpec.ExpandParam(o, old(env.st), Strip(kind, name, pattern), old(fields.view), dq)
    decreases pattern, 1
  {
    err := None;
    var pat := WordToPattern(o, env, pattern);
    match pat {
      case Err(x) => err := Some(x);
      case Ok(text) =>
        PushPositionalValues(env, fields, StripEach(o, kind, env.st.params, text), PositionalSpecial(name).value, dq);
    }
  }

  /** `${name:=word}`. */
  method ExpandAssign(o: Oracle, env: ShellEnv, name: Text, word: Option<Word>, nullCheck: bool, fields: FieldVec,
      dq: bool)
    returns (err: Option<int>)
    requires fields.Valid() && env !in fields.repr
    modifies env, fields.repr
    ensures fields.Valid() && fresh(fields.repr - old(fields.repr))
    ensures Out(err, env.st, fields.view) ==
            ExpandSpec.ExpandParam(o, old(env.st), Assign(name, word, nullCheck), old(fields.view), dq)
    decreases word, 3
  {
    err := None;
    var v := o.lookup(env.st, name);
    if !UnsetOrNull(v, nullCheck) {
      PushParamValue(env, name, v.value, fields, dq);
      return;
    }
    if o.unassignable(name) {
      env.st := o.expansionError(env.st);
      return;
    }
    var sub;
    err, sub := ExpandAssigned(o, env, word, dq);
    if err.Some? { return; }
    err := AssignJoined(o, env, name, sub, fields);
  }

  /** The fields of the word to be assigned. */
  method ExpandAssigned(o: Oracle, env: ShellEnv, word: Option<Word>, dq: bool)
    returns (err: Option<int>, sub: FieldVec)
    modifies env
    ensures sub.Valid() && fresh(sub.repr) && fresh(sub)
    ensures Out(err, env.st, sub.view) ==
            match word
            case Some(w) => ExpandSpec.ExpandModifier(o, old(env.st), w.parts, [EMPTY_FIELD], dq)
            case None => Out(None, old(env.st), [EMPTY_FIELD])
    decreases word, 2
  {
    err := None;
    sub := new FieldVec();
    if word.Some? { err := ExpandModifier(o, env, word.value.parts, sub, dq); }
  }

  method AssignJoined(o: Oracle, env: ShellEnv, name: Text, sub: FieldVec, fields: FieldVec) returns (err: Option<int>)
    requires fields.Valid() && sub.Valid() && fields.repr !! sub.repr && env !in fields.repr && env !in sub.repr
    modifies env, fields.repr
    ensures fields.Valid() && fields.repr <= old(fields.repr) + sub.repr
    ensures Out(err, env.st, fields.view) == AssignResult(o, old(env.st), name, sub.view, old(fields.view))
  {
    err := None;
    var newVal := JoinedFields(sub);
    if name != LINENO {
      match o.assign(env.st, name, newVal) {
        case Ok(e) => env.st := e;
        case Err(e) =>
          env.st := o.expansionError(e);
          return;
      }
    }
    AppendSubstitution(fields, sub);
  }

  method JoinedFields(fields: FieldVec) returns (text: Text)
    requires fields.Valid()
    ensures text == JoinFields(fields.view)
  {
    text := [];
    for i := 0 to |fields.items|
      invariant text == JoinFields(fields.view[..i])
    {
      var f := fields.items[i];
      assert fields.view[..i + 1][..i] == fields.view[..i] && f.View() == fields.view[i];
      assert Bytes(f.View().cells) == f.value;
      if i > 0 { text := text + match f.joinSep case Some(s) => s case None => SPACE; }
      text := text + f.value;
    }
    assert fields.view[..|fields.view|] == fields.view;
  }

  /** The first field of `sub` joins the current one, the others follow. */
  method AppendSubstitution(fields: FieldVec, sub: FieldVec)
    requires fields.Valid() && sub.Valid() && fields.repr !! sub.repr
    modifies fields.repr
    ensures fields.Valid() && fields.repr <= old(fields.repr) + sub.repr
    ensures fields.view == SetLast(old(fields.view), Append(Last(old(fields.view)), sub.view[0])) + sub.view[1..]
  {
    fields.AppendToLast(sub.items[0], sub.view[0]);
    AppendRest(fields, sub.items[1..], sub.view[1..]);
  }

  method AppendRest(fields: FieldVec, more: seq<ExpandedField>, ghost ms: seq<Field>)
    requires fields.Valid() && Shows(more, ms)
    requires forall k :: 0 <= k < |more| ==> more[k].Valid() && more[k] !in fields.repr
    requires forall j, k :: 0 <= j < k < |more| ==> more[j] != more[k]
    modifies fields
    ensures fields.Valid() && fields.repr == old(fields.repr) + set k | 0 <= k < |more| :: more[k]
    ensures fields.view == old(fields.view) + ms
  {
    ShowsBoth(fields.items, fields.view, more, ms);
    fields.items := fields.items + more;
    fields.view := fields.view + ms;
    fields.repr := fields.repr + set k | 0 <= k < |more| :: more[k];
  }

  method ExpandModifier(o: Oracle, env: ShellEnv, parts: seq<WordPart>, fields: FieldVec, dq: bool)
    returns (err: Option<int>)
    requires fields.Valid() && env !in fields.repr
    modifies env, fields.repr
    ensures fields.Valid() && fresh(fields.repr - old(fields.repr))
    ensures Out(err, env.st, fields.view) == ExpandSpec.ExpandModifier(o, old(env.st), parts, old(fields.view), dq)
    decreases parts, 2
  {
    for i := 0 to |parts|
      invariant fields.Valid() && fresh(fields.repr - old(fields.repr))
      invariant ExpandSpec.ExpandModifier(o, env.st, parts[i..], fields.view, dq) ==
                ExpandSpec.ExpandModifier(o, old(env.st), parts, old(fields.view), dq)
    {
      assert parts[i..][0] == parts[i] && parts[i..][1..] == parts[i + 1..];
      if parts[i].Literal? && !dq {
        fields.PushLast(Expanded, parts[i].s);
      } else if parts[i].Tilde? && !dq {
        ExpandTilde(o, env, parts[i].user, fields, true);
      } else {
        err := ExpandPart(o, env, parts[i], fields, dq);
        if err.Some? { return; }
      }
    }
    err := None;
  }

  method WordToPattern(o: Oracle, env: ShellEnv, word: Word) returns (r: Result<Text, int>)
    modifies env
    ensures (r, env.st) == ExpandSpec.WordToPattern(o, old(env.st), word)
    decreases word, 0
  {
    if |word.parts| == 1 && word.parts[0].Literal? { return Ok(word.parts[0].s); }
    var fields := new FieldVec();
    var err := ExpandParts(o, env, word.parts, fields, false);
    if err.Some? { return Err(err.value); }
    var text := JoinedPattern(fields);
    r := Ok(text);
  }

  method JoinedPattern(fields: FieldVec) returns (text: Text)
    requires fields.Valid()
    ensures text == JoinPattern(fields.view)
  {
    text := [];
    for i := 0 to |fields.items|
      invariant text == JoinPattern(fields.view[..i])
    {
      var f := fields.items[i];
      assert fields.view[..i + 1][..i] == fields.view[..i] && f.View() == fields.view[i];
      if i > 0 { text := text + match f.joinSep case Some(s) => s case None => SPACE; }
      var pattern := EscapedPatternOf(f);
      text := text + pattern;
    }
    assert fields.view[..|fields.view|] == fields.view;
  }

  // ----- the fast path -----

  method PushScalar(o: Oracle, env: ShellEnv, part: WordPart, text0: Text, dq: bool, stringCtx: bool,
      ghost quoted: bool)
    returns (err: Option<int>, text: Text)
    requires ScalarPartOk(part, dq, stringCtx, true)
    modifies env
    ensures var s := PushScalarPart(o, old(env.st), part, text0, quoted);
            err == s.err && env.st == s.env && (err.None? ==> text == s.text)
    decreases part
  {
    err, text := None, text0;
    match part {
      case Literal(s) => text := text + s;
      case EscapedLiteral(s) => text := text + s;
      case SingleQuoted(s) => text := text + s;
      case DollarSingleQuoted(s) => text := text + s;
      case Parameter(p) =>
        match SetScalarValue(o, env.st, p) {
          case Some(t) => text := text + t;
          case None =>
            var r := o.param(env.st, p);
            env.st := r.1;
            match r.0 { case Ok(t) => text := text + t; case Err(x) => err := Some(x); }
        }
      case ArithSub(e) =>
        var r := o.arith(env.st, e);
        env.st := r.1;
        match r.0 { case Ok(t) => text := text + t; case Err(x) => err := Some(x); }
      case CommandSub(c) =>
        var r := o.command(env.st, c);
        env.st := r.1;
        text := text + r.0;
      case DoubleQuoted(inner) => err, text := PushScalarInner(o, env, inner, text0, stringCtx);
      case Tilde(_) => assert false;
    }
  }

  method PushScalarInner(o: Oracle, env: ShellEnv, inner: seq<WordPart>, text0: Text, stringCtx: bool)
    returns (err: Option<int>, text: Text)
    requires ScalarPartsOk(inner, true, stringCtx, true)
    modifies env
    ensures var s := PushScalarParts(o, old(env.st), inner, text0, true);
            err == s.err && env.st == s.env && (err.None? ==> text == s.text)
    decreases inner
  {
    err, text := None, text0;
    for i := 0 to |inner|
      invariant err.None? && ScalarPartsOk(inner[i..], true, stringCtx, true)
      invariant PushScalarParts(o, env.st, inner[i..], text, true) ==
                PushScalarParts(o, old(env.st), inner, text0, true)
    {
      assert inner[i..][0] == inner[i] && inner[i..][1..] == inner[i + 1..];
      ScalarKeepsQuoted(o, env.st, inner[i], text);
      err, text := PushScalar(o, env, inner[i], text, true, stringCtx, true);
      if err.Some? { return; }
    }
  }

  lemma ScalarKeepsQuoted(o: Oracle, env: Env, part: WordPart, text: Text)
    ensures PushScalarPart(o, env, part, text, true).quoted
  {
    match part {
      case DoubleQuoted(inner) => ScalarStaysQuoted(o, env, inner, text);
      case _ =>
    }
  }

  /** A part makes the word quoted unless it is unquoted text or an unquoted
      expansion. */
  lemma ScalarQuoted(o: Oracle, env: Env, part: WordPart, text: Text, quoted: bool)
    ensures PushScalarPart(o, env, part, text, quoted).quoted ==
            (quoted || !(part.Literal? || part.Parameter? || part.ArithSub? || part.CommandSub?))
  {
    match part {
      case DoubleQuoted(inner) => ScalarStaysQuoted(o, env, inner, text);
      case _ =>
    }
  }

  lemma {:induction false} MoreMetaOk(parts: seq<WordPart>, quoted: bool, stringCtx: bool, allowMeta: bool)
    requires ScalarPartsOk(parts, quoted, stringCtx, allowMeta)
    ensures ScalarPartsOk(parts, quoted, stringCtx, true)
    decreases parts
  {
    if parts != [] {
      match parts[0] {
        case DoubleQuoted(inner) => MoreMetaOk(inner, true, stringCtx, allowMeta);
        case _ =>
      }
      MoreMetaOk(parts[1..], quoted, stringCtx, allowMeta);
    }
  }

  /** `scalar_word`: `None` for a word that needs the full pipeline. */
  method ScalarWord(o: Oracle, env: ShellEnv, word: Word, stringCtx: bool) returns (r: Option<ScalarOut>)
    modifies env
    ensures var ok := ScalarPartsOk(word.parts, false, stringCtx, stringCtx || o.noglob);
            if ok then
              var s := PushScalarParts(o, old(env.st), word.parts, [], false);
              r.Some? && r.value.err == s.err && env.st == s.env && (s.err.None? ==> r.value == s)
            else r.None? && env.st == old(env.st)
  {
    if !ScalarPartsOk(word.parts, false, stringCtx, stringCtx || o.noglob) { return None; }
    MoreMetaOk(word.parts, false, stringCtx, stringCtx || o.noglob);
    var text: Text, quoted := [], false;
    for i := 0 to |word.parts|
      invariant ScalarPartsOk(word.parts[i..], false, stringCtx, true)
      invariant PushScalarParts(o, env.st, word.parts[i..], text, quoted) ==
                PushScalarParts(o, old(env.st), word.parts, [], false)
    {
      var part := word.parts[i];
      assert word.parts[i..][0] == part && word.parts[i..][1..] == word.parts[i + 1..];
      ScalarQuoted(o, env.st, part, text, quoted);
      ghost var before := quoted;
      quoted := quoted || !(part.Literal? || part.Parameter? || part.ArithSub? || part.CommandSub?);
      var err;
      err, text := PushScalar(o, env, part, text, false, stringCtx, before);
      if err.Some? { return Some(ScalarOut(err, env.st, text, quoted)); }
    }
    r := Some(ScalarOut(None, env.st, text, quoted));
  }

  // ----- whole words -----

  /** `expand_word_into`, fast paths and all, computes the pipeline without any. */
  method ExpandWordInto(o: Oracle, env: ShellEnv, word: Word, out0: seq<Text>)
    returns (err: Option<int>, out: seq<Text>)
    modifies env
    ensures var e := SlowWord(o, old(env.st), word);
            err == e.err && env.st == e.env && out == out0 + e.texts
  {
    FastPathAgrees(o, env.st, word);
    PipelineShortcutInvisible(o, env.st, word);
    var s := ScalarWord(o, env, word, false);
    if s.Some? {
      var scalar := s.value;
      if scalar.err.Some? { return scalar.err, out0; }
      out := out0;
      if scalar.text != [] || scalar.quoted { out := out + [scalar.text]; }
      return None, out;
    }
    var fields := new FieldVec();
    err := ExpandParts(o, env, word.parts, fields, false);
    if err.Some? { return err, out0; }
    var texts := FinishWord(o, env, fields);
    out := out0 + texts;
  }

  method FinishWord(o: Oracle, env: ShellEnv, fields: FieldVec) returns (texts: seq<Text>)
    requires fields.Valid()
    ensures texts == Finish(o, env.st, fields.view)
  {
    ghost var vs := fields.view;
    var split := FieldSplit.Split(env.st.ifs, fields.items, vs);
    vs := SplitSpec.Split(IfsValue(env.st.ifs) == [], Delimiters(env.st), vs);
    if !o.noglob {
      split := Pathname.Expand(Matches(o, env.st), split, vs);
      vs := GlobEach(Matches(o, env.st), vs);
    }
    texts := KeptStrings(split, vs);
  }

  /** Drop empty unquoted fields, then quote removal. */
  method KeptStrings(fields: seq<ExpandedField>, ghost vs: seq<Field>) returns (texts: seq<Text>)
    requires Shows(fields, vs)
    ensures texts == Texts(KeepFields(vs))
  {
    texts := [];
    for k := 0 to |fields|
      invariant texts == Texts(KeepFields(vs[..k]))
    {
      KeepSnoc(vs[..k], vs[k]);
      assert vs[..k + 1] == vs[..k] + [vs[k]] && fields[k].View() == vs[k];
      assert Bytes(vs[k].cells) == fields[k].value;
      TextsConcat(KeepFields(vs[..k]), if Kept(vs[k]) then [vs[k]] else []);
      if fields[k].value != [] || fields[k].wasQuoted {
        texts := texts + [fields[k].value];
      }
    }
    assert vs[..|vs|] == vs;
  }

  /** Words expand one after the other, up to the first error. */
  function SlowWords(o: Oracle, env: Env, words: seq<Word>): Expansion {
    if words == [] then Expansion(None, env, [])
    else
      var before := SlowWords(o, env, words[..|words| - 1]);
      if before.err.Some? then before
      else
        var e := SlowWord(o, before.env, words[|words| - 1]);
        Expansion(e.err, e.env, before.texts + e.texts)
  }

  /** The same from the first word on. */
  function WordsFrom(o: Oracle, env: Env, words: seq<Word>): Expansion
    decreases |words|
  {
    if words == [] then Expansion(None, env, []) else
      var first := SlowWord(o, env, words[0]);
      if first.err.Some? then Expansion(first.err, first.env, []) else
        var rest := WordsFrom(o, first.env, words[1..]);
        Expansion(rest.err, rest.env, first.texts + rest.texts)
  }

  lemma {:induction false} WordsSnoc(o: Oracle, env: Env, words: seq<Word>, w: Word)
    ensures var before, all := WordsFrom(o, env, words), WordsFrom(o, env, words + [w]);
            if before.err.Some? then all.err == before.err && all.env == before.env
            else var e := SlowWord(o, before.env, w);
                 all.err == e.err && all.env == e.env && (e.err.None? ==> all.texts == before.texts + e.texts)
    decreases |words|
  {
    if words == [] {
      assert [w][1..] == [] && [] + [w] == [w];
    } else {
      ConcatHead(words, [w]);
      var first := SlowWord(o, env, words[0]);
      if first.err.None? {
        WordsSnoc(o, first.env, words[1..], w);
        Assoc(first.texts, WordsFrom(o, first.env, words[1..]).texts,
              SlowWord(o, WordsFrom(o, first.env, words[1..]).env, w).texts);
      }
    }
  }

  predicate SameWords(a: Expansion, b: Expansion) {
    a.err == b.err && a.env == b.env && (a.err.None? ==> a.texts == b.texts)
  }

  lemma SlowSnoc(o: Oracle, env: Env, words: seq<Word>, w: Word)
    ensures var before := SlowWords(o, env, words);
            SlowWords(o, env, words + [w]) ==
            if before.err.Some? then before
            else var e := SlowWord(o, before.env, w); Expansion(e.err, e.env, before.texts + e.texts)
  {
    assert (words + [w])[..|words|] == words;
  }

  /** Both readings of every list of words. */
  ghost predicate Readings(slow: seq<Word> -> Expansion, front: seq<Word> -> Expansion, o: Oracle, env: Env) {
    forall words {:trigger SlowWords(o, env, words)} {:trigger WordsFrom(o, env, words)} ::
      slow(words) == SlowWords(o, env, words) && front(words) == WordsFrom(o, env, words)
  }

  /** The texts of the first word come first, and an error ends the list. */
  lemma WordsInOrder(o: Oracle, env: Env, words: seq<Word>)
    ensures SameWords(SlowWords(o, env, words), WordsFrom(o, env, words))
  {
    ReadingsAgree(o, env, ws => SlowWords(o, env, ws), ws => WordsFrom(o, env, ws), words);
  }

  lemma {:induction false} ReadingsAgree(o: Oracle, env: Env, slow: seq<Word> -> Expansion,
                                         front: seq<Word> -> Expansion, words: seq<Word>)
    requires Readings(slow, front, o, env)
    ensures SameWords(slow(words), front(words))
    decreases |words|
  {
    if words == [] {
      NoWords(o, env, slow, front);
    } else {
      var init, w := words[..|words| - 1], words[|words| - 1];
      assert words == init + [w];
      ReadingsAgree(o, env, slow, front, init);
      MoreReading(o, env, slow, front, init, w);
    }
  }

  lemma NoWords(o: Oracle, env: Env, slow: seq<Word> -> Expansion, front: seq<Word> -> Expansion)
    requires Readings(slow, front, o, env)
    ensures SameWords(slow([]), front([]))
  {
    assert SlowWords(o, env, []) == WordsFrom(o, env, []);
  }

  lemma MoreReading(o: Oracle, env: Env, slow: seq<Word> -> Expansion, front: seq<Word> -> Expansion,
                    words: seq<Word>, w: Word)
    requires Readings(slow, front, o, env) && SameWords(slow(words), front(words))
    ensures SameWords(slow(words + [w]), front(words + [w]))
  {
    assert slow(words) == SlowWords(o, env, words);
    OneMoreWord(o, env, words, w);
  }

  lemma OneMoreWord(o: Oracle, env: Env, words: seq<Word>, w: Word)
    requires SameWords(SlowWords(o, env, words), WordsFrom(o, env, words))
    ensures SameWords(SlowWords(o, env, words + [w]), WordsFrom(o, env, words + [w]))
  {
    WordsSnoc(o, env, words, w);
    SlowSnoc(o, env, words, w);
  }

  lemma {:induction false} ErrorEndsWords(o: Oracle, env: Env, words: seq<Word>, k: nat)
    requires k <= |words| && SlowWords(o, env, words[..k]).err.Some?
    ensures SlowWords(o, env, words).err == SlowWords(o, env, words[..k]).err
    ensures SlowWords(o, env, words).env == SlowWords(o, env, words[..k]).env
    decreases |words|
  {
    if k < |words| {
      assert words[..|words| - 1][..k] == words[..k];
      ErrorEndsWords(o, env, words[..|words| - 1], k);
    } else {
      assert words[..k] == words;
    }
  }

  method ExpandWords(o: Oracle, env: ShellEnv, words: seq<Word>) returns (err: Option<int>, out: seq<Text>)
    modifies env
    ensures var e := SlowWords(o, old(env.st), words);
            err == e.err && env.st == e.env && (err.None? ==> out == e.texts)
  {
    err, out := None, [];
    for k := 0 to |words|
      invariant Expansion(None, env.st, out) == SlowWords(o, old(env.st), words[..k])
    {
      assert words[..k + 1][..k] == words[..k];
      err, out := ExpandWordInto(o, env, words[k], out);
      if err.Some? {
        ErrorEndsWords(o, old(env.st), words, k + 1);
        return;
      }
    }
    assert words[..|words|] == words;
    err := None;
  }

  /** `expand_word_to_string`. */
  method ExpandWordToString(o: Oracle, env: ShellEnv, word: Word) returns (r: Result<Text, int>)
    modifies env
    ensures (r, env.st) == FullString(o, old(env.st), word)
  {
    StringFastPathAgrees(o, env.st, word);
    var s := ScalarWord(o, env, word, true);
    if s.Some? {
      return match s.value.err case Some(x) => Err(x) case None => Ok(s.value.text);
    }
    var fields := new FieldVec();
    var err := ExpandParts(o, env, word.parts, fields, false);
    if err.Some? { return Err(err.value); }
    var text := JoinedFields(fields);
    r := Ok(text);
  }
}
