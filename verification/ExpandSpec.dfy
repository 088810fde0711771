/** Words and what expanding them produces (src/expand/pipeline.rs,
    src/expand/scalar.rs, src/expand/mod.rs), on plain fields. */
module ExpandSpec {
  import opened Prelude
  import opened Utf8
  import opened Fields
  import opened SplitSpec
  import opened Ifs
  import FieldSplit
  import opened Pathname

  // ----- words -----

  datatype SpecialParam = At | Star | Hash | Question | Dash | Dollar | Bang | Zero

  datatype StripKind = ShortSuffix | LongSuffix | ShortPrefix | LongPrefix

  datatype ParamExpr =
    | Simple(name: Text)
    | Positional(n: nat)
    | Special(sp: SpecialParam)
    | Length(name: Text)
    | Default(name: Text, word: Option<Word>, nullCheck: bool)
    | Assign(name: Text, word: Option<Word>, nullCheck: bool)
    | Error(name: Text, word: Option<Word>, nullCheck: bool)
    | Alt(name: Text, word: Option<Word>, nullCheck: bool)
    | Strip(kind: StripKind, name: Text, pattern: Word)

  datatype WordPart =
    | Literal(s: Text)
    | EscapedLiteral(s: Text)
    | SingleQuoted(s: Text)
    | DollarSingleQuoted(s: Text)
    | DoubleQuoted(parts: seq<WordPart>)
    | Parameter(p: ParamExpr)
    | CommandSub(program: int)
    | ArithSub(expr: Text)
    | Tilde(user: Option<Text>)

  datatype Word = Word(parts: seq<WordPart>)

  // ----- the shell around a word -----

  /** The parts of the environment that expansion reads itself; `rest` stands
      for everything else an expansion can read or change. */
  datatype Env = Env(ifs: Option<Str>, params: seq<Text>, home: Option<Text>, rest: int)

  /** What expansion asks of the rest of the shell, and the one option it
      reads: `set -f` is changed by commands, never by an expansion. */
  datatype Oracle = Oracle(
    noglob: bool,
    lookup: (Env, Text) -> Option<Text>,
    param: (Env, ParamExpr) -> (Result<Text, int>, Env),
    arith: (Env, Text) -> (Result<Text, int>, Env),
    command: (Env, int) -> (Text, Env),
    homeOf: (Env, Text) -> Option<Text>,
    strip: (StripKind, Text, Text) -> Text,
    unassignable: Text -> bool,
    assign: (Env, Text, Text) -> Result<Env, Env>,
    expansionError: Env -> Env,
    glob: (Env, Text) -> seq<Text>)

  /** The outcome of an expansion step: an error that ends the word, the
      environment afterwards and the fields so far. */
  datatype Out = Out(err: Option<int>, env: Env, fields: seq<Field>)

  // ----- pushing into the last field -----

  datatype Kind = Quoted | Lit | Expanded

  function Push(kind: Kind, f: Field, s: Text): Field {
    match kind case Quoted => AddQuoted(f, s) case Lit => AddLiteral(f, s) case Expanded => AddExpanded(f, s)
  }

  function Last(fields: seq<Field>): Field
    requires fields != []
  {
    fields[|fields| - 1]
  }

  function SetLast(fields: seq<Field>, f: Field): (r: seq<Field>)
    requires fields != []
    ensures |r| == |fields|
  {
    fields[|fields| - 1 := f]
  }

  function PushLast(kind: Kind, fields: seq<Field>, s: Text): (r: seq<Field>)
    requires fields != []
    ensures |r| == |fields|
  {
    SetLast(fields, Push(kind, Last(fields), s))
  }

  function ValueKind(dq: bool): Kind { if dq then Quoted else Expanded }

  // ----- parameters -----

  function SetScalarValue(o: Oracle, env: Env, p: ParamExpr): Option<Text> {
    match p
    case Simple(name) => o.lookup(env, name)
    case Positional(n) => if 0 < n <= |env.params| then Some(env.params[n - 1]) else None
    case _ => None
  }

  function UnsetOrNull(v: Option<Text>, nullCheck: bool): bool { v.None? || (nullCheck && v.value == []) }

  const AT_NAME: Text := [0x40]
  const STAR_NAME: Text := [0x2A]
  const LINENO: Text := [0x4C, 0x49, 0x4E, 0x45, 0x4E, 0x4F]
  const SPACE: Text := [0x20]
  const TILDE: Text := [0x7E]

  /** `Some(isStar)` for the names `@` and `*`. */
  function PositionalSpecial(name: Text): Option<bool> {
    if name == STAR_NAME then Some(true) else if name == AT_NAME then Some(false) else None
  }

  /** The `"$*"` separator: the first character of IFS, a space when IFS is
      unset, nothing when it is empty. */
  function JoinSeparator(env: Env): Text {
    match env.ifs case None => SPACE case Some(s) => if s == [] then [] else EncodeChar(s[0])
  }

  function JoinWith(ts: seq<Text>, sep: Text): Text {
    if ts == [] then [] else if |ts| == 1 then ts[0] else JoinWith(ts[..|ts| - 1], sep) + sep + ts[|ts| - 1]
  }

  /** One field per value; the first value goes into the current field. */
  function PushEach(fields: seq<Field>, ts: seq<Text>, sep: Option<Text>, dq: bool): (r: seq<Field>)
    requires fields != []
    ensures |r| >= |fields|
  {
    if ts == [] then fields
    else
      var before := PushEach(fields, ts[..|ts| - 1], sep, dq);
      var ready := if |ts| > 1 then before + [EMPTY_FIELD.(joinSep := sep)] else before;
      PushLast(ValueKind(dq), ready, ts[|ts| - 1])
  }

  function PushPositionals(env: Env, fields: seq<Field>, ts: seq<Text>, star: bool, dq: bool): (r: seq<Field>)
    requires fields != []
    ensures |r| >= |fields|
  {
    if star && dq then PushLast(Quoted, fields, JoinWith(ts, JoinSeparator(env)))
    else if ts == [] then
      if dq && Last(fields).cells == [] && !Last(fields).quotedContent then SetLast(fields, EMPTY_FIELD) else fields
    else PushEach(fields, ts, if star then Some(JoinSeparator(env)) else None, dq)
  }

  /** Fields joined into one string, each after its own separator. */
  function JoinFields(fields: seq<Field>): Text {
    if fields == [] then []
    else if |fields| == 1 then Bytes(fields[0].cells)
    else JoinFields(fields[..|fields| - 1]) + Separator(Last(fields)) + Bytes(Last(fields).cells)
  }

  function Separator(f: Field): Text { match f.joinSep case Some(s) => s case None => SPACE }

  /** The same with quoted pattern characters escaped. */
  function JoinPattern(fields: seq<Field>): Text {
    if fields == [] then []
    else if |fields| == 1 then EscapedPattern(fields[0].cells)
    else JoinPattern(fields[..|fields| - 1]) + Separator(Last(fields)) + EscapedPattern(Last(fields).cells)
  }

  // ----- parts -----

  function ExpandParts(o: Oracle, env: Env, parts: seq<WordPart>, fields: seq<Field>, dq: bool): (r: Out)
    requires fields != []
    ensures |r.fields| >= |fields|
    decreases parts, 0
  {
    if parts == [] then Out(None, env, fields)
    else
      var r := ExpandPart(o, env, parts[0], fields, dq);
      if r.err.Some? then r else ExpandParts(o, r.env, parts[1..], r.fields, dq)
  }

  function ExpandPart(o: Oracle, env: Env, part: WordPart, fields: seq<Field>, dq: bool): (r: Out)
    requires fields != []
    ensures |r.fields| >= |fields|
    decreases part, 1
  {
    match part
    case Literal(s) => Out(None, env, PushLast(if dq then Quoted else Lit, fields, s))
    case EscapedLiteral(s) => Out(None, env, PushLast(Quoted, fields, s))
    case SingleQuoted(s) => Out(None, env, PushLast(Quoted, fields, s))
    case DollarSingleQuoted(s) => Out(None, env, PushLast(Quoted, fields, s))
    case DoubleQuoted(parts) => ExpandDoubleQuoted(o, env, parts, fields)
    case Tilde(user) => Out(None, env, ExpandTilde(o, env, user, fields, false))
    case Parameter(p) => ExpandParam(o, env, p, fields, dq)
    case CommandSub(c) =>
      var (t, env') := o.command(env, c);
      Out(None, env', PushLast(ValueKind(dq), fields, t))
    case ArithSub(e) =>
      match o.arith(env, e)
      case (Ok(t), env') => Out(None, env', PushLast(ValueKind(dq), fields, t))
      case (Err(x), env') => Out(Some(x), env', fields)
  }

  function ExpandDoubleQuoted(o: Oracle, env: Env, parts: seq<WordPart>, fields: seq<Field>): (r: Out)
    requires fields != []
    ensures |r.fields| >= |fields|
    decreases parts, 1
  {
    var marked := SetLast(fields, Last(fields).(wasQuoted := true));
    var r := ExpandParts(o, env, parts, marked, true);
    if r.err.Some? then r
    else if |r.fields| == |fields| && |Last(r.fields).cells| == |Last(fields).cells| && !AnyNoField(r.env, parts)
    then r.(fields := PushLast(Quoted, r.fields, []))
    else r
  }

  predicate AnyNoField(env: Env, parts: seq<WordPart>) {
    exists k :: 0 <= k < |parts| && ExpandedToNoField(env, parts[k])
  }

  /** `part` stood for the list of positional parameters and there are none. */
  predicate ExpandedToNoField(env: Env, part: WordPart) {
    part.Parameter? && env.params == [] &&
    match part.p
    case Special(sp) => sp == At
    case Strip(_, name, _) => name == AT_NAME
    case _ => false
  }

  function ExpandTilde(o: Oracle, env: Env, user: Option<Text>, fields: seq<Field>, inModifier: bool): (r: seq<Field>)
    requires fields != []
    ensures |r| >= |fields|
  {
    match (match user case None => env.home case Some(name) => o.homeOf(env, name))
    case Some(dir) => if dir == [] then fields else PushLast(Quoted, fields, dir)
    case None =>
      PushLast(if inModifier then Expanded else Lit, fields, TILDE + match user case None => [] case Some(n) => n)
  }

  function ExpandParam(o: Oracle, env: Env, p: ParamExpr, fields: seq<Field>, dq: bool): (r: Out)
    requires fields != []
    ensures |r.fields| >= |fields|
    decreases p, 1
  {
    match p
    case Special(At) => Out(None, env, PushPositionals(env, fields, env.params, false, dq))
    case Special(Star) => Out(None, env, PushPositionals(env, fields, env.params, true, dq))
    case Default(name, word, nullCheck) =>
      var v := o.lookup(env, name);
      if UnsetOrNull(v, nullCheck) then
        (match word case Some(w) => ExpandModifier(o, env, w.parts, fields, dq) case None => Out(None, env, fields))
      else Out(None, env, PushValue(env, name, v.value, fields, dq))
    case Alt(name, word, nullCheck) =>
      if UnsetOrNull(o.lookup(env, name), nullCheck) then Out(None, env, fields)
      else (match word case Some(w) => ExpandModifier(o, env, w.parts, fields, dq) case None => Out(None, env, fields))
    case Assign(name, word, nullCheck) =>
      var v := o.lookup(env, name);
      if !UnsetOrNull(v, nullCheck) then Out(None, env, PushValue(env, name, v.value, fields, dq))
      else if o.unassignable(name) then Out(None, o.expansionError(env), fields)
      else
        var r := match word
          case Some(w) => ExpandModifier(o, env, w.parts, [EMPTY_FIELD], dq)
          case None => Out(None, env, [EMPTY_FIELD]);
        if r.err.Some? then Out(r.err, r.env, fields) else AssignResult(o, r.env, name, r.fields, fields)
    case Error(name, _, nullCheck) =>
      if PositionalSpecial(name).Some? && !UnsetOrNull(o.lookup(env, name), nullCheck)
      then Out(None, env, PushPositionals(env, fields, env.params, PositionalSpecial(name).value, dq))
      else ExpandScalar(o, env, p, fields, dq)
    case Strip(kind, name, pattern) =>
      if PositionalSpecial(name).None? then ExpandScalar(o, env, p, fields, dq)
      else
        (match WordToPattern(o, env, pattern)
         case (Ok(pat), env') =>
           var ts := StripEach(o, kind, env'.params, pat);
           Out(None, env', PushPositionals(env', fields, ts, PositionalSpecial(name).value, dq))
         case (Err(x), env') => Out(Some(x), env', fields))
    case _ => ExpandScalar(o, env, p, fields, dq)
  }

  function StripEach(o: Oracle, kind: StripKind, ts: seq<Text>, pat: Text): seq<Text> {
    seq(|ts|, i requires 0 <= i < |ts| => o.strip(kind, ts[i], pat))
  }

  /** A set `${name:-w}` or `${name:=w}`: the parameter list for `@` and `*`,
      else the value. */
  function PushValue(env: Env, name: Text, v: Text, fields: seq<Field>, dq: bool): (r: seq<Field>)
    requires fields != []
    ensures |r| >= |fields|
  {
    match PositionalSpecial(name)
    case Some(star) => PushPositionals(env, fields, env.params, star, dq)
    case None => PushLast(ValueKind(dq), fields, v)
  }

  /** `${name:=w}` after `w` expanded to `sub`: assign its joined text, then
      substitute its fields. A refused assignment is an expansion error. */
  function AssignResult(o: Oracle, env: Env, name: Text, sub: seq<Field>, fields: seq<Field>): (r: Out)
    requires fields != [] && sub != []
    ensures |r.fields| >= |fields|
  {
    match (if name == LINENO then Ok(env) else o.assign(env, name, JoinFields(sub)))
    case Err(env') => Out(None, o.expansionError(env'), fields)
    case Ok(env') => Out(None, env', SetLast(fields, Append(Last(fields), sub[0])) + sub[1..])
  }

  function ExpandScalar(o: Oracle, env: Env, p: ParamExpr, fields: seq<Field>, dq: bool): (r: Out)
    requires fields != []
    ensures |r.fields| >= |fields|
  {
    match ScalarValue(o, env, p)
    case (Ok(t), env') => Out(None, env', PushLast(ValueKind(dq), fields, t))
    case (Err(x), env') => Out(Some(x), env', fields)
  }

  function ScalarValue(o: Oracle, env: Env, p: ParamExpr): (Result<Text, int>, Env) {
    match SetScalarValue(o, env, p) case Some(t) => (Ok(t), env) case None => o.param(env, p)
  }

  /** The word of `${x:-word}` and its relatives: its unquoted literal text is
      expansion output. */
  function ExpandModifier(o: Oracle, env: Env, parts: seq<WordPart>, fields: seq<Field>, dq: bool): (r: Out)
    requires fields != []
    ensures |r.fields| >= |fields|
    decreases parts, 2
  {
    if parts == [] then Out(None, env, fields)
    else
      var r :=
        if parts[0].Literal? && !dq then Out(None, env, PushLast(Expanded, fields, parts[0].s))
        else if parts[0].Tilde? && !dq then Out(None, env, ExpandTilde(o, env, parts[0].user, fields, true))
        else ExpandPart(o, env, parts[0], fields, dq);
      if r.err.Some? then r else ExpandModifier(o, r.env, parts[1..], r.fields, dq)
  }

  function WordToPattern(o: Oracle, env: Env, word: Word): (Result<Text, int>, Env)
    decreases word, 0
  {
    if |word.parts| == 1 && word.parts[0].Literal? then (Ok(word.parts[0].s), env)
    else
      var r := ExpandParts(o, env, word.parts, [EMPTY_FIELD], false);
      if r.err.Some? then (Err(r.err.value), r.env) else (Ok(JoinPattern(r.fields)), r.env)
  }

  function WordFields(o: Oracle, env: Env, word: Word): (r: Out)
    ensures r.fields != []
  {
    ExpandParts(o, env, word.parts, [EMPTY_FIELD], false)
  }

  // ----- the fast path -----

  predicate IsScalarParam(p: ParamExpr) {
    p.Simple? || p.Positional? || (p.Special? && p.sp != At && p.sp != Star)
  }

  predicate HasGlobMeta(s: Text) { exists i :: 0 <= i < |s| && s[i] in [STAR, QUESTION, OPEN_BRACKET] }

  predicate ScalarPartOk(part: WordPart, quoted: bool, stringCtx: bool, allowMeta: bool) {
    match part
    case Literal(s) => quoted || allowMeta || !HasGlobMeta(s)
    case EscapedLiteral(_) => true
    case SingleQuoted(_) => true
    case DollarSingleQuoted(_) => true
    case Parameter(p) => (quoted || stringCtx) && IsScalarParam(p)
    case ArithSub(_) => quoted || stringCtx
    case CommandSub(_) => quoted || stringCtx
    case DoubleQuoted(inner) => !quoted && ScalarPartsOk(inner, true, stringCtx, allowMeta)
    case Tilde(_) => false
  }

  predicate ScalarPartsOk(parts: seq<WordPart>, quoted: bool, stringCtx: bool, allowMeta: bool) {
    parts == [] || (ScalarPartOk(parts[0], quoted, stringCtx, allowMeta)
        && ScalarPartsOk(parts[1..], quoted, stringCtx, allowMeta))
  }

  /** What the fast path has after some parts: the text and whether any part
      was quoted. */
  datatype ScalarOut = ScalarOut(err: Option<int>, env: Env, text: Text, quoted: bool)

  function PushScalarParts(o: Oracle, env: Env, parts: seq<WordPart>, text: Text, quoted: bool): ScalarOut
    decreases parts
  {
    if parts == [] then ScalarOut(None, env, text, quoted)
    else
      var r := PushScalarPart(o, env, parts[0], text, quoted);
      if r.err.Some? then r else PushScalarParts(o, r.env, parts[1..], r.text, r.quoted)
  }

  function PushScalarPart(o: Oracle, env: Env, part: WordPart, text: Text, quoted: bool): ScalarOut
    decreases part
  {
    var q := quoted || !(part.Literal? || part.Parameter? || part.ArithSub? || part.CommandSub?);
    match part
    case Literal(s) => ScalarOut(None, env, text + s, q)
    case EscapedLiteral(s) => ScalarOut(None, env, text + s, q)
    case SingleQuoted(s) => ScalarOut(None, env, text + s, q)
    case DollarSingleQuoted(s) => ScalarOut(None, env, text + s, q)
    case Parameter(p) =>
      (match ScalarValue(o, env, p)
       case (Ok(t), env') => ScalarOut(None, env', text + t, q)
       case (Err(x), env') => ScalarOut(Some(x), env', text, q))
    case ArithSub(e) =>
      (match o.arith(env, e)
       case (Ok(t), env') => ScalarOut(None, env', text + t, q)
       case (Err(x), env') => ScalarOut(Some(x), env', text, q))
    case CommandSub(c) => var (t, env') := o.command(env, c); ScalarOut(None, env', text + t, q)
    case DoubleQuoted(inner) => PushScalarParts(o, env, inner, text, true)
    case Tilde(_) => ScalarOut(None, env, text, q)
  }

  // ----- whole words -----

  /** What a word expansion leaves: an error, the environment, the texts. */
  datatype Expansion = Expansion(err: Option<int>, env: Env, texts: seq<Text>)

  function Delimiters(env: Env): (d: Delims)
    ensures ValidDelims(d)
  {
    FieldSplit.IfsDelimsValid(FieldSplit.IfsValue(env.ifs));
    IfsDelims(FieldSplit.IfsValue(env.ifs))
  }

  /** The pathnames a pattern matches, now. */
  function Matches(o: Oracle, env: Env): Text -> seq<Text> { t => o.glob(env, t) }

  function Globbed(o: Oracle, env: Env, fs: seq<Field>): seq<Field> {
    if o.noglob then fs else GlobEach(Matches(o, env), fs)
  }

  function KeptTexts(o: Oracle, env: Env, split: seq<Field>): seq<Text> {
    Texts(KeepFields(Globbed(o, env, split)))
  }

  /** Splitting, pathname expansion, dropping empty fields, quote removal. */
  function Finish(o: Oracle, env: Env, fs: seq<Field>): seq<Text> {
    KeptTexts(o, env, Split(FieldSplit.IfsValue(env.ifs) == [], Delimiters(env), fs))
  }

  /** `expand_word_into` without its fast path. */
  function FullWord(o: Oracle, env: Env, word: Word): Expansion {
    var r := WordFields(o, env, word);
    if r.err.Some? then Expansion(r.err, r.env, []) else Expansion(None, r.env, Finish(o, r.env, r.fields))
  }

  /** `expand_word_into`. */
  function ExpandWord(o: Oracle, env: Env, word: Word): Expansion {
    if ScalarPartsOk(word.parts, false, false, o.noglob) then
      var r := PushScalarParts(o, env, word.parts, [], false);
      if r.err.Some? then Expansion(r.err, r.env, [])
      else Expansion(None, r.env, if r.text != [] || r.quoted then [r.text] else [])
    else FullWord(o, env, word)
  }

  /** `expand_word_to_string` without its fast path. */
  function FullString(o: Oracle, env: Env, word: Word): (Result<Text, int>, Env) {
    var r := WordFields(o, env, word);
    if r.err.Some? then (Err(r.err.value), r.env) else (Ok(JoinFields(r.fields)), r.env)
  }

  /** `expand_word_to_string`. */
  function WordToString(o: Oracle, env: Env, word: Word): (Result<Text, int>, Env) {
    if ScalarPartsOk(word.parts, false, true, true) then
      var r := PushScalarParts(o, env, word.parts, [], false);
      if r.err.Some? then (Err(r.err.value), r.env) else (Ok(r.text), r.env)
    else FullString(o, env, word)
  }
}
