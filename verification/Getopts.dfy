/** `getopts`: one option a call, from the operands and the saved position
    (OPTIND, index in the operand) alone. */
module Getopts {
  import opened Prelude
  import opened Utf8
  import opened ByteEnc

  const DASH := 0x2D
  const COLON := 0x3A
  const QUESTION := 0x3F

  datatype Diagnostic = IllegalOption(ch: Str) | NeedsArgument(ch: Str)

  /** What one call sets, and its exit status. */
  datatype Call = Call(value: Str, optarg: Option<Str>, optind: nat, subindex: nat, exit: int,
      error: Option<Diagnostic>)

  function Position(t: Text, b: byte): (r: Option<nat>)
    ensures r.Some? ==> r.value < |t| && t[r.value] == b
    ensures r.None? <==> b !in t
  {
    var i := FirstIndex(t, b);
    if i < |t| then Some(i) else
      assert t[..i] == t;
      None
  }

  function EndOfOptions(optind: nat): Call { Call([QUESTION], None, optind, 0, 1, None) }

  lemma DecodedLength(s: Str)
    ensures |Decoded(s)| >= |s|
  {
  }

  /** What a call does within the operand it is on, and how many operands
      further OPTIND moves. */
  datatype Move = Move(value: Str, optarg: Option<Str>, advance: nat, subindex: nat, exit: int,
      error: Option<Diagnostic>)

  /** One step from operand `optind` (counted from 1), byte `subindex`. */
  function Step(spec: Text, operands: seq<Str>, optind: nat, subindex: nat, silent: bool): Call {
    if optind == 0 || optind > |operands| then EndOfOptions(if optind > 1 then optind else 1) else
      var next := if optind < |operands| then Some(operands[optind]) else None;
      var m := StepIn(spec, operands[optind - 1], next, subindex, silent);
      Call(m.value, m.optarg, optind + m.advance, m.subindex, m.exit, m.error)
  }

  function StepIn(spec: Text, elt: Str, next: Option<Str>, subindex: nat, silent: bool): Move
    decreases subindex
  {
    var raw := Decoded(elt);
    if subindex != 0 && subindex >= |raw| then StepIn(spec, elt, next, 0, silent)
    else if subindex != 0 then OptionAt(spec, raw, next, subindex, silent)
    else if elt == [DASH, DASH] then Move([QUESTION], None, 1, 0, 1, None)
    else if elt == [] || elt[0] != DASH || elt == [DASH] then Move([QUESTION], None, 0, 0, 1, None)
    else
      DecodedLength(elt);
      OptionAt(spec, raw, next, 1, silent)
  }

  /** The option character at `cursor` of the operand `bytes`. */
  function OptionAt(spec: Text, bytes: Text, next: Option<Str>, cursor: nat, silent: bool): Move
    requires cursor < |bytes|
  {
    var b, ch := bytes[cursor], Encoded([bytes[cursor]]);
    var more := cursor + 1 < |bytes|;
    var advance, subindex := if more then 0 else 1, if more then cursor + 1 else 0;
    var pos := if b < 0x80 && b != COLON then Position(spec, b) else None;
    if pos.None? then
      if silent then Move([QUESTION], Some(ch), advance, subindex, 0, None)
      else Move([QUESTION], None, advance, subindex, 0, Some(IllegalOption(ch)))
    else if !(pos.value + 1 < |spec| && spec[pos.value + 1] == COLON) then
      Move(ch, None, advance, subindex, 0, None)
    else if more then Move(ch, Some(Encoded(bytes[cursor + 1..])), 1, 0, 0, None)
    else if next.None? then
      if silent then Move([COLON], Some(ch), 1, 0, 0, None)
      else Move([QUESTION], None, 1, 0, 0, Some(NeedsArgument(ch)))
    else Move(ch, next, 2, 0, 0, None)
  }

  // ----- where repeated calls go -----

  /** A position that repeated calls on the same operands reach. */
  predicate Fits(operands: seq<Str>, optind: nat, subindex: nat) {
    && 1 <= optind <= |operands| + 1
    && (subindex > 0 ==> optind <= |operands| && subindex < |Decoded(operands[optind - 1])|)
  }

  /** Bytes from a position to the end of the operands. */
  function Left(operands: seq<Str>, optind: nat): nat
    decreases |operands| - optind
  {
    if optind == 0 || optind > |operands| then 0 else |Decoded(operands[optind - 1])| + Left(operands, optind + 1)
  }

  function BytesLeft(operands: seq<Str>, optind: nat, subindex: nat): int { Left(operands, optind) - subindex }

  lemma OptionMoves(spec: Text, bytes: Text, next: Option<Str>, cursor: nat, silent: bool)
    requires cursor < |bytes|
    ensures var m := OptionAt(spec, bytes, next, cursor, silent);
            && m.exit == 0 && m.advance <= 2 && (m.advance == 2 ==> next.Some?)
            && if m.advance == 0 then m.subindex == cursor + 1 < |bytes| else m.subindex == 0
  {
  }

  /** What a move from byte `subindex` of an operand of `len` bytes keeps. */
  predicate Moves(m: Move, subindex: nat, len: nat, hasNext: bool) {
    if m.exit == 0 then
      && m.advance <= 2 && (m.advance == 2 ==> hasNext) && len > 0
      && if m.advance == 0 then subindex < m.subindex < len else m.subindex == 0
    else m.exit == 1 && m.advance <= 1 && m.subindex == 0 && m.optarg.None?
  }

  lemma StepInMoves(spec: Text, elt: Str, next: Option<Str>, subindex: nat, silent: bool)
    requires subindex > 0 ==> subindex < |Decoded(elt)|
    ensures Moves(StepIn(spec, elt, next, subindex, silent), subindex, |Decoded(elt)|, next.Some?)
  {
    DecodedLength(elt);
    if subindex != 0 {
      OptionMoves(spec, Decoded(elt), next, subindex, silent);
    } else if elt != [DASH, DASH] && elt != [] && elt[0] == DASH && elt != [DASH] {
      OptionMoves(spec, Decoded(elt), next, 1, silent);
    }
  }

  lemma LeftFrom(operands: seq<Str>, optind: nat)
    requires 1 <= optind <= |operands|
    ensures Left(operands, optind) == |Decoded(operands[optind - 1])| + Left(operands, optind + 1)
    ensures Left(operands, optind + 1) >= Left(operands, optind + 2)
  {
  }

  /** Where a call that ended at `to`, `sub` went from `optind`, `subindex`. */
  predicate Advanced(operands: seq<Str>, optind: nat, subindex: nat, to: nat, sub: nat) {
    && (to > optind || (to == optind && sub > subindex))
    && 0 <= BytesLeft(operands, to, sub) < BytesLeft(operands, optind, subindex)
  }

  lemma MoveAdvances(operands: seq<Str>, optind: nat, subindex: nat, m: Move)
    requires Fits(operands, optind, subindex) && optind <= |operands|
    requires Moves(m, subindex, |Decoded(operands[optind - 1])|, optind < |operands|)
    ensures Fits(operands, optind + m.advance, m.subindex)
    ensures m.exit == 0 ==> Advanced(operands, optind, subindex, optind + m.advance, m.subindex)
  {
    LeftFrom(operands, optind);
  }

  /** No call leaves the range, a call with status 0 moves strictly forward,
      and it uses up at least one byte of the operands. */
  lemma StepMoves(spec: Text, operands: seq<Str>, optind: nat, subindex: nat, silent: bool)
    requires Fits(operands, optind, subindex)
    ensures var r := Step(spec, operands, optind, subindex, silent);
            && Fits(operands, r.optind, r.subindex) && r.exit in {0, 1}
            && (r.exit == 0 ==> Advanced(operands, optind, subindex, r.optind, r.subindex))
            && (r.exit == 1 ==> r.subindex == 0 && r.optind in {optind, optind + 1} && r.optarg.None?)
  {
    if optind <= |operands| {
      var next := if optind < |operands| then Some(operands[optind]) else None;
      StepInMoves(spec, operands[optind - 1], next, subindex, silent);
      MoveAdvances(operands, optind, subindex, StepIn(spec, operands[optind - 1], next, subindex, silent));
    }
  }

  /** What the calls of a `while getopts` loop give, up to the last option. */
  function Run(spec: Text, operands: seq<Str>, optind: nat, subindex: nat, silent: bool): seq<(Str, Option<Str>)>
    requires Fits(operands, optind, subindex)
    decreases BytesLeft(operands, optind, subindex)
  {
    StepMoves(spec, operands, optind, subindex, silent);
    var r := Step(spec, operands, optind, subindex, silent);
    if r.exit != 0 then [] else [(r.value, r.optarg)] + Run(spec, operands, r.optind, r.subindex, silent)
  }

  /** The loop ends within as many calls as the operands have bytes. */
  lemma {:induction false} RunEnds(spec: Text, operands: seq<Str>, optind: nat, subindex: nat, silent: bool)
    requires Fits(operands, optind, subindex)
    ensures |Run(spec, operands, optind, subindex, silent)| <= BytesLeft(operands, optind, subindex)
    decreases BytesLeft(operands, optind, subindex)
  {
    StepMoves(spec, operands, optind, subindex, silent);
    var r := Step(spec, operands, optind, subindex, silent);
    if optind <= |operands| { LeftFrom(operands, optind); }
    if r.exit == 0 { RunEnds(spec, operands, r.optind, r.subindex, silent); }
  }

  // ----- grouped and separate options -----

  /** A letter that can stand alone: ASCII, not `-`, and taking no argument. */
  predicate Plain(spec: Text, b: byte) {
    && b < 0x80 && b != DASH
    && (b != COLON ==>
         var pos := Position(spec, b);
         pos.None? || !(pos.value + 1 < |spec| && spec[pos.value + 1] == COLON))
  }

  predicate AllPlain(spec: Text, letters: Text) { forall i :: 0 <= i < |letters| ==> Plain(spec, letters[i]) }

  /** `-abc` */
  function Grouped(letters: Text): Str { [DASH] + letters }

  /** `-a -b -c` */
  function Separate(letters: Text): seq<Str> {
    if letters == [] then [] else [[DASH, letters[0]]] + Separate(letters[1..])
  }

  lemma SameSuffixes<T>(a: seq<T>, b: seq<T>, i: nat, j: nat, n: nat)
    requires i <= |a| && j <= |b| && a[i..] == b[j..] && i + n <= |a|
    ensures j + n <= |b| && a[i + n..] == b[j + n..]
  {
    assert a[i + n..] == a[i..][n..];
  }

  type Runs = (nat, nat) -> seq<(Str, Option<Str>)>

  /** `run(i, k)` is what the calls from there give. */
  ghost predicate IsRun(run: Runs, spec: Text, operands: seq<Str>, silent: bool) {
    forall i: nat, k: nat {:trigger Run(spec, operands, i, k, silent)} ::
      Fits(operands, i, k) ==> run(i, k) == Run(spec, operands, i, k, silent)
  }

  lemma RunStep(run: Runs, spec: Text, operands: seq<Str>, i: nat, k: nat, silent: bool, r: Call)
    requires IsRun(run, spec, operands, silent) && Fits(operands, i, k)
    requires Step(spec, operands, i, k, silent) == r
    ensures if r.exit != 0 then run(i, k) == []
            else Fits(operands, r.optind, r.subindex)
                 && Advanced(operands, i, k, r.optind, r.subindex)
                 && run(i, k) == [(r.value, r.optarg)] + run(r.optind, r.subindex)
  {
    StepMoves(spec, operands, i, k, silent);
    var all := Run(spec, operands, i, k, silent);
    if r.exit == 0 { RunOne(spec, operands, i, k, silent, r); }
  }

  /** Only the operands from OPTIND on matter. */
  lemma RunShifts(spec: Text, a: seq<Str>, b: seq<Str>, i: nat, j: nat, subindex: nat, silent: bool)
    requires Fits(a, i, subindex) && Fits(b, j, subindex) && a[i - 1..] == b[j - 1..]
    ensures Run(spec, a, i, subindex, silent) == Run(spec, b, j, subindex, silent)
  {
    var ofA: Runs := (i: nat, k: nat) => if Fits(a, i, k) then Run(spec, a, i, k, silent) else [];
    var ofB: Runs := (i: nat, k: nat) => if Fits(b, i, k) then Run(spec, b, i, k, silent) else [];
    RunsShift(ofA, ofB, spec, a, b, i, j, subindex, silent);
  }

  lemma {:induction false} RunsShift(ofA: Runs, ofB: Runs, spec: Text, a: seq<Str>, b: seq<Str>, i: nat, j: nat, k: nat,
                                     silent: bool)
    requires IsRun(ofA, spec, a, silent) && IsRun(ofB, spec, b, silent)
    requires Fits(a, i, k) && Fits(b, j, k) && a[i - 1..] == b[j - 1..]
    ensures ofA(i, k) == ofB(j, k)
    decreases BytesLeft(a, i, k)
  {
    var r, s := Step(spec, a, i, k, silent), Step(spec, b, j, k, silent);
    StepShifts(spec, a, b, i, j, k, silent);
    RunStep(ofA, spec, a, i, k, silent, r);
    RunStep(ofB, spec, b, j, k, silent, s);
    if r.exit == 0 {
      SameSuffixes(a, b, i - 1, j - 1, r.optind - i);
      RunsShift(ofA, ofB, spec, a, b, r.optind, s.optind, r.subindex, silent);
    }
  }

  lemma StepShifts(spec: Text, a: seq<Str>, b: seq<Str>, i: nat, j: nat, subindex: nat, silent: bool)
    requires Fits(a, i, subindex) && Fits(b, j, subindex) && a[i - 1..] == b[j - 1..]
    ensures var r, s := Step(spec, a, i, subindex, silent), Step(spec, b, j, subindex, silent);
            r == s.(optind := r.optind) && r.optind - i == s.optind - j
  {
    assert |a| - i == |b| - j;
    if i <= |a| {
      assert a[i - 1] == a[i - 1..][0] == b[j - 1];
      if i < |a| { assert a[i] == a[i - 1..][1] == b[j]; }
    }
  }

  lemma {:induction false} AsciiDecoded(t: Text)
    requires forall i :: 0 <= i < |t| ==> t[i] < 0x80
    ensures Decoded(t) == t
  {
    if t != [] {
      AsciiDecoded(t[1..]);
      assert DecodedChar(t[0]) == [t[0]];
      assert [t[0]] + t[1..] == t;
    }
  }

  lemma {:induction false} SeparateAt(letters: Text, k: nat)
    requires k < |letters|
    ensures |Separate(letters)| == |letters| && Separate(letters)[k] == [DASH, letters[k]]
  {
    if k > 0 {
      SeparateAt(letters[1..], k - 1);
    } else if |letters| > 1 {
      SeparateAt(letters[1..], 0);
    }
  }

  /** A plain letter says the same wherever it stands. */
  lemma PlainMove(spec: Text, bytes: Text, next: Option<Str>, cursor: nat, b: byte, other: Option<Str>, silent: bool)
    requires cursor < |bytes| && bytes[cursor] == b && Plain(spec, b)
    ensures var m, alone := OptionAt(spec, bytes, next, cursor, silent), OptionAt(spec, [DASH, b], other, 1, silent);
            && m.value == alone.value && m.optarg == alone.optarg && m.exit == alone.exit == 0 && m.error == alone.error
            && alone.advance == 1 && alone.subindex == 0
            && (m.advance, m.subindex) == if cursor + 1 < |bytes| then (0, cursor + 1) else (1, 0)
  {
  }

  lemma StepAlone(spec: Text, b: byte, next: Option<Str>, silent: bool)
    requires Plain(spec, b)
    ensures StepIn(spec, [DASH, b], next, 0, silent) == OptionAt(spec, [DASH, b], next, 1, silent)
  {
    AsciiDecoded([DASH, b]);
  }

  lemma StepGrouped(spec: Text, letters: Text, next: Option<Str>, k: nat, silent: bool)
    requires AllPlain(spec, letters) && k < |letters|
    ensures |Decoded(Grouped(letters))| == |letters| + 1 && Decoded(Grouped(letters))[k + 1] == letters[k]
    ensures StepIn(spec, Grouped(letters), next, if k == 0 then 0 else k + 1, silent)
      == OptionAt(spec, Decoded(Grouped(letters)), next, k + 1, silent)
  {
    AsciiDecoded(Grouped(letters));
    assert Plain(spec, letters[0]) && Grouped(letters)[1] == letters[0];
  }

  /** What a call on the plain letter `b` gives. */
  function LetterCall(spec: Text, b: byte, silent: bool, optind: nat, subindex: nat): Call {
    var m := OptionAt(spec, [DASH, b], None, 1, silent);
    Call(m.value, m.optarg, optind, subindex, 0, m.error)
  }

  lemma GroupedMove(spec: Text, letters: Text, next: Option<Str>, k: nat, silent: bool)
    requires AllPlain(spec, letters) && k < |letters|
    ensures var alone := OptionAt(spec, [DASH, letters[k]], None, 1, silent);
            StepIn(spec, Grouped(letters), next, if k == 0 then 0 else k + 1, silent)
            == if k + 1 < |letters| then Move(alone.value, alone.optarg, 0, k + 2, 0, alone.error)
               else Move(alone.value, alone.optarg, 1, 0, 0, alone.error)
  {
    StepGrouped(spec, letters, next, k, silent);
    PlainMove(spec, Decoded(Grouped(letters)), next, k + 1, letters[k], None, silent);
  }

  lemma GroupedFits(spec: Text, letters: Text, rest: seq<Str>, k: nat)
    requires AllPlain(spec, letters) && k < |letters|
    ensures Fits([Grouped(letters)] + rest, 1, if k == 0 then 0 else k + 1)
  {
    StepGrouped(spec, letters, None, k, false);
  }

  lemma GroupedCall(spec: Text, letters: Text, rest: seq<Str>, k: nat, silent: bool)
    requires AllPlain(spec, letters) && k < |letters|
    ensures Step(spec, [Grouped(letters)] + rest, 1, if k == 0 then 0 else k + 1, silent)
      == if k + 1 < |letters| then LetterCall(spec, letters[k], silent, 1, k + 2)
         else LetterCall(spec, letters[k], silent, 2, 0)
  {
    var grouped := [Grouped(letters)] + rest;
    GroupedMove(spec, letters, if 1 < |grouped| then Some(grouped[1]) else None, k, silent);
  }

  lemma SeparateCall(spec: Text, letters: Text, rest: seq<Str>, k: nat, silent: bool)
    requires AllPlain(spec, letters) && k < |letters|
    ensures |Separate(letters)| == |letters|
    ensures Step(spec, Separate(letters) + rest, k + 1, 0, silent) == LetterCall(spec, letters[k], silent, k + 2, 0)
  {
    var separate := Separate(letters) + rest;
    SeparateAt(letters, k);
    assert separate[k] == [DASH, letters[k]];
    var next := if k + 1 < |separate| then Some(separate[k + 1]) else None;
    StepAlone(spec, letters[k], next, silent);
    PlainMove(spec, [DASH, letters[k]], next, 1, letters[k], None, silent);
  }

  lemma RunOne(spec: Text, operands: seq<Str>, optind: nat, subindex: nat, silent: bool, r: Call)
    requires Fits(operands, optind, subindex) && Step(spec, operands, optind, subindex, silent) == r && r.exit == 0
    ensures Fits(operands, r.optind, r.subindex)
    ensures Run(spec, operands, optind, subindex, silent)
         == [(r.value, r.optarg)] + Run(spec, operands, r.optind, r.subindex, silent)
  {
    StepMoves(spec, operands, optind, subindex, silent);
  }

  /** Behind the last letter only `rest` is left. */
  lemma LettersDone(spec: Text, letters: Text, rest: seq<Str>, silent: bool)
    requires |Separate(letters)| == |letters|
    ensures Run(spec, [Grouped(letters)] + rest, 2, 0, silent)
         == Run(spec, Separate(letters) + rest, |letters| + 1, 0, silent)
  {
    var grouped, separate := [Grouped(letters)] + rest, Separate(letters) + rest;
    assert grouped[1..] == rest == separate[|letters|..];
    RunShifts(spec, grouped, separate, 2, |letters| + 1, 0, silent);
  }

  /** From letter `k` on, the two spellings give the same calls. */
  lemma {:induction false} GroupedFrom(spec: Text, letters: Text, rest: seq<Str>, k: nat, silent: bool)
    requires AllPlain(spec, letters) && k < |letters| && |Separate(letters)| == |letters|
    requires Fits([Grouped(letters)] + rest, 1, if k == 0 then 0 else k + 1)
    ensures Run(spec, [Grouped(letters)] + rest, 1, if k == 0 then 0 else k + 1, silent)
      == Run(spec, Separate(letters) + rest, k + 1, 0, silent)
    decreases |letters| - k
  {
    var b, last := letters[k], k + 1 == |letters|;
    GroupedCall(spec, letters, rest, k, silent);
    SeparateCall(spec, letters, rest, k, silent);
    RunOne(spec, [Grouped(letters)] + rest, 1, if k == 0 then 0 else k + 1, silent,
      if last then LetterCall(spec, b, silent, 2, 0) else LetterCall(spec, b, silent, 1, k + 2));
    RunOne(spec, Separate(letters) + rest, k + 1, 0, silent, LetterCall(spec, b, silent, k + 2, 0));
    if last { LettersDone(spec, letters, rest, silent); } else { GroupedFrom(spec, letters, rest, k + 1, silent); }
  }

  /** Guideline 5 of XBD section 12.2: options without arguments can be grouped
      behind one `-`. */
  lemma GroupedIsSeparate(spec: Text, letters: Text, rest: seq<Str>, silent: bool)
    requires letters != [] && AllPlain(spec, letters)
    ensures Run(spec, [Grouped(letters)] + rest, 1, 0, silent) == Run(spec, Separate(letters) + rest, 1, 0, silent)
  {
    SeparateAt(letters, 0);
    GroupedFits(spec, letters, rest, 0);
    GroupedFrom(spec, letters, rest, 0, silent);
  }

  // ----- the built-in -----

  datatype Name = Optind | Optarg | Variable(name: Str)

  datatype Value = Digits(n: nat) | Characters(s: Str)

  predicate NameStart(c: Scalar) { 0x41 <= c <= 0x5A || 0x61 <= c <= 0x7A || c == 0x5F }

  predicate IsName(s: Str) {
    s != [] && NameStart(s[0]) && forall i :: 1 <= i < |s| ==> NameStart(s[i]) || 0x30 <= s[i] <= 0x39
  }

  /** `OPTIND` */
  const OPTIND_NAME: Str := [0x4F, 0x50, 0x54, 0x49, 0x4E, 0x44]
  /** `OPTARG` */
  const OPTARG_NAME: Str := [0x4F, 0x50, 0x54, 0x41, 0x52, 0x47]

  function NameOf(s: Str): Name {
    if s == OPTIND_NAME then Optind else if s == OPTARG_NAME then Optarg else Variable(s)
  }

  datatype Parsed = Parsed(spec: Text, silent: bool, name: Name, operands: seq<Str>)

  /** `None` for a usage error: an operand is missing or no name. Without
      operands of its own the call reads the positional parameters. */
  function ParseArgs(args: seq<Str>, positional: seq<Str>): Option<Parsed> {
    if |args| < 2 || !IsName(args[1]) then None else
      var silent := args[0] != [] && args[0][0] == COLON;
      Some(Parsed(AsBytes(if silent then args[0][1..] else args[0]), silent, NameOf(args[1]),
        if |args| > 2 then args[2..] else positional))
  }

  class Vars {
    var values: map<Name, Value>
    const readonly: set<Name>
    /** `str::parse::<usize>` of a value the script wrote. */
    const parse: Str -> Option<nat>
    var subindex: nat
    /** OPTIND was assigned since the last call. */
    var optindWritten: bool

    constructor (readonly: set<Name>, parse: Str -> Option<nat>)
      ensures Start() == (1, 0) && values == map[]
    {
      values, this.readonly, this.parse, subindex, optindWritten := map[], readonly, parse, 0, false;
    }

    /** The position a call starts from. */
    function Start(): (nat, nat)
      reads this
    {
      var n := if Optind !in values then None
               else match values[Optind] case Digits(n) => Some(n) case Characters(s) => parse(s);
      (if n.Some? && n.value >= 1 then n.value else 1, if optindWritten then 0 else subindex)
    }

    method Assign(name: Name, value: Value)
      requires name !in readonly
      modifies this`values, this`optindWritten
      ensures values == old(values)[name := value] && optindWritten == (old(optindWritten) || name.Optind?)
      ensures name.Optind? ==> Start() == (PositionIn(value), 0)
    {
      values := values[name := value];
      if name.Optind? { optindWritten := true; }
    }

    /** The operand a value of OPTIND stands for. */
    function PositionIn(value: Value): nat
    {
      match value
      case Digits(n) => if n >= 1 then n else 1
      case Characters(s) => if parse(s).Some? && parse(s).value >= 1 then parse(s).value else 1
    }

    predicate Refuses(name: Name) { name in readonly || Optarg in readonly || Optind in readonly }

    /** A usage error or a read-only target leaves everything as it was. */
    method BuiltinGetopts(args: seq<Str>, positional: seq<Str>) returns (exit: int)
      modifies this`values, this`subindex, this`optindWritten
      ensures var p := ParseArgs(args, positional);
              p.None? || Refuses(p.value.name) ==>
                && exit == (if p.None? then 2 else 1) && values == old(values)
                && subindex == old(subindex) && optindWritten == old(optindWritten)
      ensures var p := ParseArgs(args, positional);
              p.Some? && !Refuses(p.value.name) ==> Took(old(values), old(Start()), p.value, exit)
    {
      var p := ParseArgs(args, positional);
      if p.None? { return 2; }
      if Refuses(p.value.name) { return 1; }
      exit := TakeOption(p.value);
    }

    /** What a call leaves, from the values and position it started with: the
        next call on these operands starts where this one ended. */
    ghost predicate Took(before: map<Name, Value>, start: (nat, nat), p: Parsed, exit: int)
      reads this
    {
      var r := Step(p.spec, p.operands, start.0, start.1, p.silent);
      && values - {p.name, Optarg, Optind} == before - {p.name, Optarg, Optind}
      && exit == r.exit && Start() == (if r.optind >= 1 then r.optind else 1, r.subindex)
      && (p.name.Variable? ==> p.name in values && values[p.name] == Characters(r.value))
      && (if r.optarg.Some? then Optarg in values && values[Optarg] == Characters(r.optarg.value)
          else Optarg !in values)
    }

    /** The option and its argument. */
    method StoreOption(name: Name, value: Str, optarg: Option<Str>)
      requires !Refuses(name)
      modifies this`values, this`optindWritten
      ensures values == match optarg
                        case Some(arg) => old(values)[name := Characters(value)][Optarg := Characters(arg)]
                        case None => old(values)[name := Characters(value)] - {Optarg}
    {
      Assign(name, Characters(value));
      match optarg {
        case Some(arg) => Assign(Optarg, Characters(arg));
        case None => values := values - {Optarg};
      }
    }

    method TakeOption(p: Parsed) returns (exit: int)
      requires !Refuses(p.name)
      modifies this`values, this`subindex, this`optindWritten
      ensures Took(old(values), old(Start()), p, exit)
    {
      var (optind, sub) := Start();
      var r := Step(p.spec, p.operands, optind, sub, p.silent);
      StoreOption(p.name, r.value, r.optarg);
      values := values[Optind := Digits(r.optind)];
      subindex := r.subindex;
      optindWritten := false;
      return r.exit;
    }
  }
}
