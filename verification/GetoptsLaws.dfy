/** What each kind of option gives, and that an argument may be attached. */
module GetoptsLaws {
  import opened Prelude
  import opened Utf8
  import opened ByteEnc
  import opened Getopts

  /** A call from `subindex` of operand `optind` reads the byte at `cursor` as
      an option. */
  predicate ReadsAt(operands: seq<Str>, optind: nat, subindex: nat, cursor: nat) {
    && 1 <= optind <= |operands| && 0 < cursor < |Decoded(operands[optind - 1])|
    && (subindex == cursor || (subindex == 0 && cursor == 1 && IsOption(operands[optind - 1])))
  }

  predicate IsOption(elt: Str) { |elt| > 1 && elt[0] == DASH && elt != [DASH, DASH] }

  function ByteAt(operands: seq<Str>, optind: nat, cursor: nat): byte
    requires 1 <= optind <= |operands| && cursor < |Decoded(operands[optind - 1])|
  {
    Decoded(operands[optind - 1])[cursor]
  }

  /** The position behind one byte. */
  function Behind(operands: seq<Str>, optind: nat, cursor: nat): (nat, nat)
    requires 1 <= optind <= |operands|
  {
    if cursor + 1 < |Decoded(operands[optind - 1])| then (optind, cursor + 1) else (optind + 1, 0)
  }

  /** The option string lists `c`, and what follows it there. */
  predicate Lists(spec: Text, c: byte, before: Text, after: Text) {
    c < 0x80 && c != COLON && c !in before && spec == before + [c] + after
  }

  predicate TakesArgument(after: Text) { after != [] && after[0] == COLON }

  lemma AsciiEncoded(c: byte)
    requires c < 0x80
    ensures Encoded([c]) == [c]
  {
    assert FrontOf([c]) == Char(c, 1) && [c][1..] == [];
    assert EncodeValid(c) == [c];
  }

  lemma ListedPosition(spec: Text, c: byte, before: Text, after: Text)
    requires Lists(spec, c, before, after)
    ensures Position(spec, c) == Some(|before|)
    ensures TakesArgument(after) <==> |before| + 1 < |spec| && spec[|before| + 1] == COLON
  {
    assert spec[..|before|] == before;
    FirstIndexIs(spec, c, |before|);
    if after != [] { assert spec[|before| + 1] == after[0]; }
  }

  lemma StepReads(spec: Text, operands: seq<Str>, optind: nat, subindex: nat, cursor: nat, silent: bool)
    requires ReadsAt(operands, optind, subindex, cursor)
    ensures var next := if optind < |operands| then Some(operands[optind]) else None;
            var m := OptionAt(spec, Decoded(operands[optind - 1]), next, cursor, silent);
            Step(spec, operands, optind, subindex, silent)
              == Call(m.value, m.optarg, optind + m.advance, m.subindex, m.exit, m.error)
  {
  }

  // ----- one call -----

  /** A listed letter without argument is reported as itself. */
  lemma PlainOption(spec: Text, operands: seq<Str>, optind: nat, subindex: nat, cursor: nat, silent: bool,
                    before: Text, after: Text)
    requires ReadsAt(operands, optind, subindex, cursor)
    requires Lists(spec, ByteAt(operands, optind, cursor), before, after) && !TakesArgument(after)
    ensures var next := Behind(operands, optind, cursor);
            Step(spec, operands, optind, subindex, silent)
              == Call([ByteAt(operands, optind, cursor)], None, next.0, next.1, 0, None)
  {
    StepReads(spec, operands, optind, subindex, cursor, silent);
    ListedPosition(spec, ByteAt(operands, optind, cursor), before, after);
    AsciiEncoded(ByteAt(operands, optind, cursor));
  }

  /** Any other byte is a `?`; only a silent call says which byte it was. */
  lemma UnknownOption(spec: Text, operands: seq<Str>, optind: nat, subindex: nat, cursor: nat, silent: bool)
    requires ReadsAt(operands, optind, subindex, cursor)
    requires var c := ByteAt(operands, optind, cursor); c >= 0x80 || c == COLON || c !in spec
    ensures var next, ch := Behind(operands, optind, cursor), Encoded([ByteAt(operands, optind, cursor)]);
            Step(spec, operands, optind, subindex, silent)
              == Call([QUESTION], if silent then Some(ch) else None, next.0, next.1, 0,
                      if silent then None else Some(IllegalOption(ch)))
  {
    StepReads(spec, operands, optind, subindex, cursor, silent);
  }

  /** The bytes behind a letter that takes an argument are the argument. */
  lemma ArgumentAttached(spec: Text, operands: seq<Str>, optind: nat, subindex: nat, cursor: nat, silent: bool,
                         before: Text, after: Text)
    requires ReadsAt(operands, optind, subindex, cursor) && cursor + 1 < |Decoded(operands[optind - 1])|
    requires Lists(spec, ByteAt(operands, optind, cursor), before, after) && TakesArgument(after)
    ensures Step(spec, operands, optind, subindex, silent)
         == Call([ByteAt(operands, optind, cursor)], Some(Encoded(Decoded(operands[optind - 1])[cursor + 1..])),
                 optind + 1, 0, 0, None)
  {
    StepReads(spec, operands, optind, subindex, cursor, silent);
    ListedPosition(spec, ByteAt(operands, optind, cursor), before, after);
    AsciiEncoded(ByteAt(operands, optind, cursor));
  }

  /** With no byte behind it the next operand is the argument, whatever it is;
      without one the letter is reported, to the caller or on standard error. */
  lemma ArgumentApart(spec: Text, operands: seq<Str>, optind: nat, subindex: nat, cursor: nat, silent: bool,
                      before: Text, after: Text)
    requires ReadsAt(operands, optind, subindex, cursor) && cursor + 1 == |Decoded(operands[optind - 1])|
    requires Lists(spec, ByteAt(operands, optind, cursor), before, after) && TakesArgument(after)
    ensures var c := ByteAt(operands, optind, cursor);
            Step(spec, operands, optind, subindex, silent)
              == if optind < |operands| then Call([c], Some(operands[optind]), optind + 2, 0, 0, None)
                 else if silent then Call([COLON], Some([c]), optind + 1, 0, 0, None)
                 else Call([QUESTION], None, optind + 1, 0, 0, Some(NeedsArgument([c])))
  {
    StepReads(spec, operands, optind, subindex, cursor, silent);
    ListedPosition(spec, ByteAt(operands, optind, cursor), before, after);
    AsciiEncoded(ByteAt(operands, optind, cursor));
  }

  /** `--` ends the options and is passed; an operand that is none, and the end
      of the operands, end them and are not. */
  lemma OptionsEnd(spec: Text, operands: seq<Str>, optind: nat, silent: bool)
    requires optind >= 1
    requires optind <= |operands| ==> !IsOption(operands[optind - 1])
    ensures Step(spec, operands, optind, 0, silent)
         == Call([QUESTION], None,
                 if optind <= |operands| && operands[optind - 1] == [DASH, DASH] then optind + 1 else optind,
                 0, 1, None)
  {
  }

  /** An index past the operand, left by a call on other operands, is dropped. */
  lemma StaleIndex(spec: Text, operands: seq<Str>, optind: nat, subindex: nat, silent: bool)
    requires 1 <= optind <= |operands| && subindex >= |Decoded(operands[optind - 1])|
    ensures Step(spec, operands, optind, subindex, silent) == Step(spec, operands, optind, 0, silent)
  {
  }

  // ----- whole runs -----

  lemma DecodedOption(c: byte, b: Text)
    requires c < 0x80
    ensures Decoded([DASH, c] + Encoded(b)) == [DASH, c] + b && Decoded([DASH, c]) == [DASH, c]
  {
    DecodedConcat([DASH, c], Encoded(b));
    AsciiDecoded([DASH, c]);
    RoundTrip(b);
  }

  lemma EncodedNonEmpty(b: Text)
    requires b != []
    ensures Encoded(b) != []
  {
    RoundTrip(b);
  }

  /** `-cARG` */
  function Attached(c: byte, b: Text): Str { [DASH, c] + Encoded(b) }

  lemma AttachedCall(spec: Text, c: byte, b: Text, rest: seq<Str>, silent: bool, before: Text, after: Text)
    requires Lists(spec, c, before, after) && TakesArgument(after) && b != []
    ensures Fits([Attached(c, b)] + rest, 1, 0)
    ensures Step(spec, [Attached(c, b)] + rest, 1, 0, silent) == Call([c], Some(Encoded(b)), 2, 0, 0, None)
  {
    var operands := [Attached(c, b)] + rest;
    DecodedOption(c, b);
    EncodedNonEmpty(b);
    assert operands[0] == Attached(c, b) && |operands[0]| > 2;
    assert ([DASH, c] + b)[2..] == b;
    ArgumentAttached(spec, operands, 1, 0, 1, silent, before, after);
  }

  lemma ApartCall(spec: Text, c: byte, arg: Str, rest: seq<Str>, silent: bool, before: Text, after: Text)
    requires Lists(spec, c, before, after) && TakesArgument(after) && c != DASH
    ensures Fits([[DASH, c], arg] + rest, 1, 0)
    ensures Step(spec, [[DASH, c], arg] + rest, 1, 0, silent) == Call([c], Some(arg), 3, 0, 0, None)
  {
    var operands := [[DASH, c], arg] + rest;
    DecodedOption(c, []);
    assert operands[0] == [DASH, c] && operands[1] == arg;
    ArgumentApart(spec, operands, 1, 0, 1, silent, before, after);
  }

  /** Guideline 6 of XBD section 12.2: an argument attached to its letter and
      one in the next operand are the same, whatever it consists of. */
  lemma AttachedIsSeparate(spec: Text, c: byte, b: Text, rest: seq<Str>, silent: bool, before: Text, after: Text)
    requires Lists(spec, c, before, after) && TakesArgument(after) && c != DASH && b != []
    ensures var attached, apart := [Attached(c, b)] + rest, [[DASH, c], Encoded(b)] + rest;
            && Run(spec, attached, 1, 0, silent) == Run(spec, apart, 1, 0, silent)
            && Run(spec, attached, 1, 0, silent) != []
            && Run(spec, attached, 1, 0, silent)[0] == ([c], Some(Encoded(b)))
  {
    var attached, apart := [Attached(c, b)] + rest, [[DASH, c], Encoded(b)] + rest;
    AttachedCall(spec, c, b, rest, silent, before, after);
    ApartCall(spec, c, Encoded(b), rest, silent, before, after);
    RunOne(spec, attached, 1, 0, silent, Call([c], Some(Encoded(b)), 2, 0, 0, None));
    RunOne(spec, apart, 1, 0, silent, Call([c], Some(Encoded(b)), 3, 0, 0, None));
    assert attached[1..] == rest == apart[2..];
    RunShifts(spec, attached, apart, 2, 3, 0, silent);
  }

  // ----- the operands of the built-in -----

  /** A leading `:` asks for silent reporting and is no option letter. */
  lemma Silence(s: Str, name: Str, operands: seq<Str>, positional: seq<Str>)
    requires IsName(name)
    ensures var p := ParseArgs([[COLON] + s, name] + operands, positional);
            p.Some? && p.value.silent && p.value.spec == AsBytes(s)
            && p.value.operands == (if operands == [] then positional else operands)
    ensures var p := ParseArgs([s, name] + operands, positional);
            p.Some? && (s == [] || s[0] != COLON ==> !p.value.silent && p.value.spec == AsBytes(s))
  {
    var args := [[COLON] + s, name] + operands;
    assert args[0][1..] == s;
    if operands != [] { assert args[2..] == operands; }
  }
}
