/** The scanners that find where a bracketed expansion ends: on anything
    printed from its grammar they stop exactly at the closing bracket. */
module Scan {
  import opened Prelude

  const SINGLE: byte := 0x27
  const DOUBLE: byte := 0x22
  const BACKSLASH: byte := 0x5C
  const BACKTICK: byte := 0x60
  const DOLLAR: byte := 0x24
  const OPEN_PAREN: byte := 0x28
  const CLOSE_PAREN: byte := 0x29
  const OPEN_BRACE: byte := 0x7B
  const CLOSE_BRACE: byte := 0x7D

  // ----- the scanners -----

  /** Where `close` stands from `j` on, skipping `\x` escapes. */
  function Find(bytes: Text, j: nat, close: byte): (k: nat)
    requires j <= |bytes|
    ensures j <= k <= |bytes|
    decreases |bytes| - j
  {
    if j == |bytes| || bytes[j] == close then j
    else Find(bytes, if bytes[j] == BACKSLASH && j + 1 < |bytes| then j + 2 else j + 1, close)
  }

  function Past(bytes: Text, j: nat): nat { if j < |bytes| then j + 1 else j }

  method SkipDelimited(bytes: Text, i: nat, close: byte) returns (r: nat)
    requires i < |bytes|
    ensures r == Past(bytes, Find(bytes, i + 1, close))
  {
    var j := i + 1;
    while j < |bytes| && bytes[j] != close
      invariant j <= |bytes| && Find(bytes, j, close) == Find(bytes, i + 1, close)
    {
      if bytes[j] == BACKSLASH && j + 1 < |bytes| { j := j + 2; } else { j := j + 1; }
    }
    return if j < |bytes| then j + 1 else j;
  }

  /** Where the next single quote stands: nothing is escaped in `'…'`. */
  function FindSingle(bytes: Text, j: nat): (k: nat)
    requires j <= |bytes|
    ensures j <= k <= |bytes|
    decreases |bytes| - j
  {
    if j == |bytes| || bytes[j] == SINGLE then j else FindSingle(bytes, j + 1)
  }

  /** Past the quoted run or escape that starts at `i`, if one does. */
  function Quoted(bytes: Text, i: nat): (r: Option<nat>)
    requires i < |bytes|
    ensures r.Some? ==> i < r.value <= |bytes|
  {
    if bytes[i] == SINGLE then Some(Past(bytes, FindSingle(bytes, i + 1)))
    else if bytes[i] == DOUBLE then Some(Past(bytes, Find(bytes, i + 1, DOUBLE)))
    else if bytes[i] == BACKSLASH then Some(if i + 1 < |bytes| then i + 2 else i + 1)
    else None
  }

  method SkipQuotedOrEscaped(bytes: Text, i: nat) returns (r: Option<nat>)
    requires i < |bytes|
    ensures r == Quoted(bytes, i)
  {
    if bytes[i] == SINGLE {
      var j := i + 1;
      while j < |bytes| && bytes[j] != SINGLE
        invariant j <= |bytes| && FindSingle(bytes, j) == FindSingle(bytes, i + 1)
      {
        j := j + 1;
      }
      if j < |bytes| { j := j + 1; }
      return Some(j);
    }
    if bytes[i] == DOUBLE {
      var j := SkipDelimited(bytes, i, DOUBLE);
      return Some(j);
    }
    if bytes[i] == BACKSLASH { return Some(if i + 1 < |bytes| then i + 2 else i + 1); }
    return None;
  }

  function Parens(bytes: Text, i: nat, depth: nat): (k: nat)
    requires i <= |bytes|
    ensures i <= k <= |bytes|
    decreases |bytes| - i, depth
  {
    if i == |bytes| || depth == 0 then i
    else if Quoted(bytes, i).Some? then Parens(bytes, Quoted(bytes, i).value, depth)
    else if bytes[i] == OPEN_PAREN then Parens(bytes, i + 1, depth + 1)
    else if bytes[i] == CLOSE_PAREN then Parens(bytes, if depth > 1 then i + 1 else i, depth - 1)
    else Parens(bytes, i + 1, depth)
  }

  method SkipBalancedParensNaive(bytes: Text, start: nat) returns (i: nat)
    requires start <= |bytes|
    ensures i == Parens(bytes, start, 1)
  {
    i := start;
    var depth: nat := 1;
    while i < |bytes| && depth > 0
      invariant i <= |bytes| && Parens(bytes, i, depth) == Parens(bytes, start, 1)
      decreases |bytes| - i, depth
    {
      var next := SkipQuotedOrEscaped(bytes, i);
      if next.Some? {
        i := next.value;
        continue;
      }
      if bytes[i] == OPEN_PAREN {
        depth := depth + 1;
        i := i + 1;
      } else if bytes[i] == CLOSE_PAREN {
        depth := depth - 1;
        if depth > 0 { i := i + 1; }
      } else {
        i := i + 1;
      }
    }
  }

  /** Where the `)` of a `$(` whose body starts at the position stands. */
  type ParenScanner = (Text, nat) -> nat

  /** One step of the brace scan that is neither a quote nor an escape. */
  function BraceStep(parens: ParenScanner, bytes: Text, i: nat, depth: nat): (r: (nat, nat))
    requires i < |bytes| && depth > 0
    ensures i <= r.0 <= |bytes| && (r.0 > i || r.1 < depth)
  {
    if bytes[i] == DOLLAR && i + 1 < |bytes| && bytes[i + 1] == OPEN_PAREN then
      var j := parens(bytes, i + 2);
      (if i < j < |bytes| then j + 1 else |bytes|, depth)
    else if bytes[i] == DOLLAR && i + 1 < |bytes| && bytes[i + 1] == OPEN_BRACE then (i + 2, depth + 1)
    else if bytes[i] == BACKTICK then (Past(bytes, Find(bytes, i + 1, BACKTICK)), depth)
    else if bytes[i] == CLOSE_BRACE then (if depth > 1 then i + 1 else i, depth - 1)
    else (i + 1, depth)
  }

  function Braces(parens: ParenScanner, bytes: Text, i: nat, depth: nat): (k: nat)
    requires i <= |bytes|
    ensures i <= k <= |bytes|
    decreases |bytes| - i, depth
  {
    if i == |bytes| || depth == 0 then i
    else if Quoted(bytes, i).Some? then Braces(parens, bytes, Quoted(bytes, i).value, depth)
    else
      var (j, d) := BraceStep(parens, bytes, i, depth);
      Braces(parens, bytes, j, d)
  }

  method SkipBalancedBraces(parens: ParenScanner, bytes: Text, start: nat) returns (i: nat)
    requires start <= |bytes| && forall k: nat :: InRange(bytes, k, parens(bytes, k))
    ensures i == Braces(parens, bytes, start, 1)
  {
    i := start;
    var depth: nat := 1;
    while i < |bytes| && depth > 0
      invariant i <= |bytes| && Braces(parens, bytes, i, depth) == Braces(parens, bytes, start, 1)
      decreases |bytes| - i, depth
    {
      var next := SkipQuotedOrEscaped(bytes, i);
      if next.Some? {
        i := next.value;
        continue;
      }
      i, depth := TakeBraceStep(parens, bytes, i, depth);
    }
  }

  /** `k` stands where a scan of `b` from `i` may stop. */
  predicate InRange(b: Text, i: nat, k: nat) { i <= |b| ==> i <= k <= |b| }

  method TakeBraceStep(parens: ParenScanner, bytes: Text, i: nat, depth: nat) returns (j: nat, d: nat)
    requires i < |bytes| && depth > 0 && InRange(bytes, i + 2, parens(bytes, i + 2))
    ensures (j, d) == BraceStep(parens, bytes, i, depth)
  {
    if bytes[i] == DOLLAR && i + 1 < |bytes| && bytes[i + 1] == OPEN_PAREN {
      j := parens(bytes, i + 2);
      if j < |bytes| { j := j + 1; }
      d := depth;
    } else if bytes[i] == DOLLAR && i + 1 < |bytes| && bytes[i + 1] == OPEN_BRACE {
      j, d := i + 2, depth + 1;
    } else if bytes[i] == BACKTICK {
      j := SkipDelimited(bytes, i, BACKTICK);
      d := depth;
    } else if bytes[i] == CLOSE_BRACE {
      j, d := if depth > 1 then i + 1 else i, depth - 1;
    } else {
      j, d := i + 1, depth;
    }
  }

  // ----- what is scanned: text printed from its grammar -----

  /** The inside of `"…"` or of backticks, up to `close`. */
  datatype Inside = Done | Raw(b: byte, rest: Inside) | Slash(b: byte, rest: Inside)

  /** The inside of `${…}`. */
  datatype Body =
    | Empty
    | Plain(b: byte, rest: Body)
    | Dollar(rest: Body)
    | Escape(b: byte, rest: Body)
    | InSingle(text: Text, rest: Body)
    | InDouble(inside: Inside, rest: Body)
    | InBackticks(inside: Inside, rest: Body)
    | InBraces(body: Body, rest: Body)
    | InParens(text: Text, rest: Body)

  function PrintInside(q: Inside): Text {
    match q
    case Done => []
    case Raw(b, rest) => [b] + PrintInside(rest)
    case Slash(b, rest) => [BACKSLASH, b] + PrintInside(rest)
  }

  function Print(body: Body): Text {
    match body
    case Empty => []
    case Plain(b, rest) => [b] + Print(rest)
    case Dollar(rest) => [DOLLAR] + Print(rest)
    case Escape(b, rest) => [BACKSLASH, b] + Print(rest)
    case InSingle(text, rest) => [SINGLE] + (text + [SINGLE]) + Print(rest)
    case InDouble(text, rest) => [DOUBLE] + (PrintInside(text) + [DOUBLE]) + Print(rest)
    case InBackticks(text, rest) => [BACKTICK] + (PrintInside(text) + [BACKTICK]) + Print(rest)
    case InBraces(body, rest) => [DOLLAR, OPEN_BRACE] + (Print(body) + [CLOSE_BRACE]) + Print(rest)
    case InParens(text, rest) => [DOLLAR, OPEN_PAREN] + (text + [CLOSE_PAREN]) + Print(rest)
  }

  predicate InsideOk(q: Inside, close: byte) {
    match q
    case Done => true
    case Raw(b, rest) => b != close && b != BACKSLASH && InsideOk(rest, close)
    case Slash(_, rest) => InsideOk(rest, close)
  }

  /** `x` stands in `bytes` at `i`. */
  predicate At(bytes: Text, i: nat, x: Text)
    ensures At(bytes, i, x) ==> i + |x| <= |bytes|
    decreases |x|
  {
    i <= |bytes| && (x == [] || (i < |bytes| && bytes[i] == x[0] && At(bytes, i + 1, x[1..])))
  }

  /** The contract of the paren scanner: it finds the `)` that ends `text`. */
  ghost predicate Closes(parens: ParenScanner, text: Text) {
    forall bytes: Text, i: nat {:trigger At(bytes, i, text + [CLOSE_PAREN])} ::
      At(bytes, i, text + [CLOSE_PAREN]) ==> parens(bytes, i) == i + |text|
  }

  predicate Ordinary(b: byte) { b !in {SINGLE, DOUBLE, BACKSLASH, BACKTICK, DOLLAR, CLOSE_BRACE} }

  /** A bare `$` must not run into a `(` or `{`. */
  predicate AfterDollarOk(rest: Body) { !(rest.Plain? && rest.b in {OPEN_PAREN, OPEN_BRACE}) }

  ghost predicate WellFormed(parens: ParenScanner, body: Body) {
    match body
    case Empty => true
    case Plain(b, rest) => Ordinary(b) && WellFormed(parens, rest)
    case Dollar(rest) => AfterDollarOk(rest) && WellFormed(parens, rest)
    case Escape(_, rest) => WellFormed(parens, rest)
    case InSingle(text, rest) => SINGLE !in text && WellFormed(parens, rest)
    case InDouble(text, rest) => InsideOk(text, DOUBLE) && WellFormed(parens, rest)
    case InBackticks(text, rest) => InsideOk(text, BACKTICK) && WellFormed(parens, rest)
    case InBraces(inner, rest) => WellFormed(parens, inner) && WellFormed(parens, rest)
    case InParens(text, rest) => Closes(parens, text) && WellFormed(parens, rest)
  }

  // ----- the proofs -----

  lemma {:induction false} AtParts(bytes: Text, i: nat, a: Text, b: Text)
    requires At(bytes, i, a + b)
    ensures At(bytes, i, a) && At(bytes, i + |a|, b)
    decreases |a|
  {
    if a == [] {
      assert a + b == b;
    } else {
      ConcatHead(a, b);
      AtParts(bytes, i + 1, a[1..], b);
    }
  }

  lemma {:induction false} AtItself(bytes: Text, i: nat)
    requires i <= |bytes|
    ensures At(bytes, i, bytes[i..])
    decreases |bytes| - i
  {
    if i < |bytes| {
      AtItself(bytes, i + 1);
      assert bytes[i..][1..] == bytes[i + 1..];
    }
  }

  lemma AtFirst(bytes: Text, i: nat, x: Text)
    requires At(bytes, i, x) && x != []
    ensures i < |bytes| && bytes[i] == x[0] && (|x| > 1 ==> i + 1 < |bytes| && bytes[i + 1] == x[1])
  {
    if |x| > 1 { assert At(bytes, i + 1, x[1..]) && x[1..][0] == x[1]; }
  }

  lemma {:induction false} FindInside(bytes: Text, j: nat, q: Inside, close: byte)
    requires InsideOk(q, close) && close != BACKSLASH && At(bytes, j, PrintInside(q) + [close])
    ensures Find(bytes, j, close) == j + |PrintInside(q)|
    decreases q
  {
    match q
    case Done =>
      assert [] + [close] == [close];
      AtFirst(bytes, j, [close]);
    case Raw(b, rest) =>
      Assoc([b], PrintInside(rest), [close]);
      AtParts(bytes, j, [b], PrintInside(rest) + [close]);
      AtFirst(bytes, j, [b]);
      FindInside(bytes, j + 1, rest, close);
    case Slash(b, rest) =>
      FindSlash(bytes, j, b, rest, close);
      FindInside(bytes, j + 2, rest, close);
  }

  lemma FindSlash(bytes: Text, j: nat, b: byte, rest: Inside, close: byte)
    requires close != BACKSLASH && At(bytes, j, PrintInside(Slash(b, rest)) + [close])
    ensures At(bytes, j + 2, PrintInside(rest) + [close]) && Find(bytes, j, close) == Find(bytes, j + 2, close)
  {
    Assoc([BACKSLASH, b], PrintInside(rest), [close]);
    AtParts(bytes, j, [BACKSLASH, b], PrintInside(rest) + [close]);
    AtFirst(bytes, j, [BACKSLASH, b]);
  }

  lemma {:induction false} FindSingleText(bytes: Text, j: nat, text: Text)
    requires SINGLE !in text && At(bytes, j, text + [SINGLE])
    ensures FindSingle(bytes, j) == j + |text|
    decreases |text|
  {
    AtFirst(bytes, j, text + [SINGLE]);
    if text != [] {
      assert [text[0]] + (text[1..] + [SINGLE]) == text + [SINGLE];
      AtParts(bytes, j, [text[0]], text[1..] + [SINGLE]);
      FindSingleText(bytes, j + 1, text[1..]);
    }
  }

  /** The brace scan of fixed bytes from a position and depth. */
  type Scanning = (nat, nat) -> nat

  ghost predicate IsScan(scan: Scanning, parens: ParenScanner, bytes: Text) {
    forall i: nat, depth: nat {:trigger Braces(parens, bytes, i, depth)} ::
      i <= |bytes| ==> scan(i, depth) == Braces(parens, bytes, i, depth)
  }

  lemma ScanIs(scan: Scanning, parens: ParenScanner, bytes: Text, i: nat, depth: nat)
    requires IsScan(scan, parens, bytes) && i <= |bytes|
    ensures scan(i, depth) == Braces(parens, bytes, i, depth)
  {
  }

  /** Scanning past a run of `left` bytes leaves the depth as it is. */
  predicate Passes(scan: Scanning, i: nat, left: nat, depth: nat) { scan(i, depth) == scan(i + left, depth) }

  lemma PassSingle(scan: Scanning, parens: ParenScanner, bytes: Text, i: nat, text: Text, depth: nat)
    requires IsScan(scan, parens, bytes) && depth > 0 && SINGLE !in text && At(bytes, i, [SINGLE] + (text + [SINGLE]))
    ensures Passes(scan, i, |text| + 2, depth)
  {
    ScanIs(scan, parens, bytes, i, depth);
    ScanIs(scan, parens, bytes, i + |text| + 2, depth);
    AtParts(bytes, i, [SINGLE], text + [SINGLE]);
    AtFirst(bytes, i, [SINGLE]);
    FindSingleText(bytes, i + 1, text);
  }

  lemma PassDouble(scan: Scanning, parens: ParenScanner, bytes: Text, i: nat, q: Inside, depth: nat)
    requires IsScan(scan, parens, bytes) && depth > 0 && InsideOk(q, DOUBLE)
    requires At(bytes, i, [DOUBLE] + (PrintInside(q) + [DOUBLE]))
    ensures Passes(scan, i, |PrintInside(q)| + 2, depth)
  {
    ScanIs(scan, parens, bytes, i, depth);
    ScanIs(scan, parens, bytes, i + |PrintInside(q)| + 2, depth);
    AtParts(bytes, i, [DOUBLE], PrintInside(q) + [DOUBLE]);
    AtFirst(bytes, i, [DOUBLE]);
    FindInside(bytes, i + 1, q, DOUBLE);
  }

  lemma PassBackticks(scan: Scanning, parens: ParenScanner, bytes: Text, i: nat, q: Inside, depth: nat)
    requires IsScan(scan, parens, bytes) && depth > 0 && InsideOk(q, BACKTICK)
    requires At(bytes, i, [BACKTICK] + (PrintInside(q) + [BACKTICK]))
    ensures Passes(scan, i, |PrintInside(q)| + 2, depth)
  {
    ScanIs(scan, parens, bytes, i, depth);
    ScanIs(scan, parens, bytes, i + |PrintInside(q)| + 2, depth);
    AtParts(bytes, i, [BACKTICK], PrintInside(q) + [BACKTICK]);
    AtFirst(bytes, i, [BACKTICK]);
    FindInside(bytes, i + 1, q, BACKTICK);
  }

  lemma PassParens(scan: Scanning, parens: ParenScanner, bytes: Text, i: nat, text: Text, depth: nat)
    requires IsScan(scan, parens, bytes) && depth > 0 && Closes(parens, text)
    requires At(bytes, i, [DOLLAR, OPEN_PAREN] + (text + [CLOSE_PAREN]))
    ensures Passes(scan, i, |text| + 3, depth)
  {
    ScanIs(scan, parens, bytes, i, depth);
    ScanIs(scan, parens, bytes, i + |text| + 3, depth);
    AtParts(bytes, i, [DOLLAR, OPEN_PAREN], text + [CLOSE_PAREN]);
    AtFirst(bytes, i, [DOLLAR, OPEN_PAREN]);
    assert parens(bytes, i + 2) == i + 2 + |text|;
  }

  /** What follows a body: not something a `$` at its end would run into. */
  predicate Follows(bytes: Text, i: nat) { i < |bytes| ==> bytes[i] !in {OPEN_PAREN, OPEN_BRACE} }

  lemma DollarThen(bytes: Text, i: nat, rest: Body)
    requires At(bytes, i, Print(rest)) && AfterDollarOk(rest) && Follows(bytes, i + |Print(rest)|)
    requires rest.Plain? ==> Ordinary(rest.b)
    ensures Follows(bytes, i)
  {
    if rest != Empty { AtFirst(bytes, i, Print(rest)); }
  }

  /** The first part of a body, printed. */
  function Front(body: Body): Text
    requires !body.Empty?
  {
    match body
    case Plain(b, _) => [b]
    case Dollar(_) => [DOLLAR]
    case Escape(b, _) => [BACKSLASH, b]
    case InSingle(text, _) => [SINGLE] + (text + [SINGLE])
    case InDouble(q, _) => [DOUBLE] + (PrintInside(q) + [DOUBLE])
    case InBackticks(q, _) => [BACKTICK] + (PrintInside(q) + [BACKTICK])
    case InBraces(inner, _) => [DOLLAR, OPEN_BRACE] + (Print(inner) + [CLOSE_BRACE])
    case InParens(text, _) => [DOLLAR, OPEN_PAREN] + (text + [CLOSE_PAREN])
  }

  lemma PrintIs(body: Body)
    requires !body.Empty?
    ensures Print(body) == Front(body) + Print(body.rest)
  {
  }

  lemma FrontAndRest(bytes: Text, i: nat, body: Body)
    requires !body.Empty? && At(bytes, i, Print(body))
    ensures At(bytes, i, Front(body)) && At(bytes, i + |Front(body)|, Print(body.rest))
    ensures |Print(body)| == |Front(body)| + |Print(body.rest)|
  {
    PrintIs(body);
    AtParts(bytes, i, Front(body), Print(body.rest));
  }

  lemma RestOk(parens: ParenScanner, bytes: Text, i: nat, body: Body)
    requires !body.Empty? && WellFormed(parens, body)
    requires At(bytes, i, Print(body.rest)) && Follows(bytes, i + |Print(body.rest)|)
    ensures WellFormed(parens, body.rest) && (body.Dollar? ==> Follows(bytes, i))
  {
    if body.Dollar? { DollarThen(bytes, i, body.rest); }
  }

  lemma PassByte(scan: Scanning, parens: ParenScanner, bytes: Text, i: nat, body: Body, depth: nat)
    requires IsScan(scan, parens, bytes) && depth > 0 && WellFormed(parens, body)
        && (body.Plain? || body.Dollar? || body.Escape?)
    requires At(bytes, i, Front(body)) && (body.Dollar? ==> Follows(bytes, i + 1))
    ensures Passes(scan, i, |Front(body)|, depth)
  {
    ScanIs(scan, parens, bytes, i, depth);
    ScanIs(scan, parens, bytes, i + |Front(body)|, depth);
    AtFirst(bytes, i, Front(body));
  }

  lemma OpenBrace(scan: Scanning, parens: ParenScanner, bytes: Text, i: nat, depth: nat)
    requires IsScan(scan, parens, bytes) && depth > 0 && At(bytes, i, [DOLLAR, OPEN_BRACE])
    ensures scan(i, depth) == scan(i + 2, depth + 1)
  {
    AtFirst(bytes, i, [DOLLAR, OPEN_BRACE]);
    ScanIs(scan, parens, bytes, i, depth);
    ScanIs(scan, parens, bytes, i + 2, depth + 1);
  }

  lemma CloseBrace(scan: Scanning, parens: ParenScanner, bytes: Text, i: nat, depth: nat)
    requires IsScan(scan, parens, bytes) && depth > 0 && At(bytes, i, [CLOSE_BRACE])
    ensures scan(i, depth + 1) == scan(i + 1, depth)
  {
    AtFirst(bytes, i, [CLOSE_BRACE]);
    ScanIs(scan, parens, bytes, i, depth + 1);
    ScanIs(scan, parens, bytes, i + 1, depth);
  }

  lemma PassNested(scan: Scanning, parens: ParenScanner, bytes: Text, i: nat, inner: Body, depth: nat)
    requires IsScan(scan, parens, bytes) && depth > 0 && WellFormed(parens, inner)
    requires At(bytes, i, [DOLLAR, OPEN_BRACE] + (Print(inner) + [CLOSE_BRACE]))
    ensures Passes(scan, i, |Print(inner)| + 3, depth)
    decreases inner, 3
  {
    AtParts(bytes, i, [DOLLAR, OPEN_BRACE], Print(inner) + [CLOSE_BRACE]);
    AtParts(bytes, i + 2, Print(inner), [CLOSE_BRACE]);
    AtFirst(bytes, i + 2 + |Print(inner)|, [CLOSE_BRACE]);
    OpenBrace(scan, parens, bytes, i, depth);
    CloseBrace(scan, parens, bytes, i + 2 + |Print(inner)|, depth);
    PassBody(scan, parens, bytes, i + 2, inner, depth + 1);
  }

  lemma PassFront(scan: Scanning, parens: ParenScanner, bytes: Text, i: nat, body: Body, depth: nat)
    requires IsScan(scan, parens, bytes) && depth > 0 && WellFormed(parens, body) && !body.Empty?
    requires At(bytes, i, Front(body)) && (body.Dollar? ==> Follows(bytes, i + 1))
    ensures Passes(scan, i, |Front(body)|, depth)
    decreases body, 1
  {
    match body
    case InSingle(text, _) => PassSingle(scan, parens, bytes, i, text, depth);
    case InDouble(q, _) => PassDouble(scan, parens, bytes, i, q, depth);
    case InBackticks(q, _) => PassBackticks(scan, parens, bytes, i, q, depth);
    case InBraces(inner, _) => PassNested(scan, parens, bytes, i, inner, depth);
    case InParens(text, _) => PassParens(scan, parens, bytes, i, text, depth);
    case _ => PassByte(scan, parens, bytes, i, body, depth);
  }

  /** The scan passes every well-formed body at the depth it had before. */
  lemma {:induction false} PassBody(scan: Scanning, parens: ParenScanner, bytes: Text, i: nat, body: Body, depth: nat)
    requires IsScan(scan, parens, bytes) && depth > 0
    requires WellFormed(parens, body) && At(bytes, i, Print(body)) && Follows(bytes, i + |Print(body)|)
    ensures Passes(scan, i, |Print(body)|, depth)
    decreases body, 2
  {
    if !body.Empty? {
      var front := |Front(body)|;
      FrontAndRest(bytes, i, body);
      RestOk(parens, bytes, i + front, body);
      assert Passes(scan, i, front, depth) by { PassFront(scan, parens, bytes, i, body, depth); }
      assert Passes(scan, i + front, |Print(body.rest)|, depth) by {
        PassBody(scan, parens, bytes, i + front, body.rest, depth);
      }
    }
  }

  lemma AtClose(parens: ParenScanner, bytes: Text, i: nat)
    requires At(bytes, i, [CLOSE_BRACE])
    ensures Braces(parens, bytes, i, 1) == i
  {
    AtFirst(bytes, i, [CLOSE_BRACE]);
    assert Braces(parens, bytes, i, 0) == i;
  }

  lemma BodyPassed(parens: ParenScanner, bytes: Text, i: nat, body: Body, depth: nat)
    requires depth > 0 && WellFormed(parens, body)
    requires At(bytes, i, Print(body)) && Follows(bytes, i + |Print(body)|)
    ensures Braces(parens, bytes, i, depth) == Braces(parens, bytes, i + |Print(body)|, depth)
  {
    var scan: Scanning := (i: nat, depth: nat) => if i <= |bytes| then Braces(parens, bytes, i, depth) else 0;
    PassBody(scan, parens, bytes, i, body, depth);
    assert Passes(scan, i, |Print(body)|, depth);
  }

  /** Wherever a printed body and its `}` stand, a scan from the start of the
      body stops at that `}`. */
  lemma BracesReadBack(parens: ParenScanner, bytes: Text, start: nat, body: Body)
    requires WellFormed(parens, body) && At(bytes, start, Print(body) + [CLOSE_BRACE])
    ensures Braces(parens, bytes, start, 1) == start + |Print(body)|
  {
    AtParts(bytes, start, Print(body), [CLOSE_BRACE]);
    AtFirst(bytes, start + |Print(body)|, [CLOSE_BRACE]);
    BodyPassed(parens, bytes, start, body, 1);
    AtClose(parens, bytes, start + |Print(body)|);
  }

  /** So does one of the body, its `}` and any tail. */
  lemma PrintedReadBack(parens: ParenScanner, before: Text, body: Body, tail: Text)
    requires WellFormed(parens, body)
    ensures Braces(parens, before + (Print(body) + [CLOSE_BRACE] + tail), |before|, 1) == |before| + |Print(body)|
  {
    var bytes := before + (Print(body) + [CLOSE_BRACE] + tail);
    AtItself(bytes, |before|);
    assert bytes[|before|..] == Print(body) + [CLOSE_BRACE] + tail;
    AtParts(bytes, |before|, Print(body) + [CLOSE_BRACE], tail);
    BracesReadBack(parens, bytes, |before|, body);
  }

  // ----- the naive paren scanner meets the contract -----

  /** The inside of `(…)` as the naive scanner reads it. */
  datatype ParenBody =
    | Nothing
    | Other(b: byte, rest: ParenBody)
    | Escaped(b: byte, rest: ParenBody)
    | SingleRun(text: Text, rest: ParenBody)
    | DoubleRun(inside: Inside, rest: ParenBody)
    | Group(body: ParenBody, rest: ParenBody)

  function FrontOfParen(body: ParenBody): Text
    requires !body.Nothing?
    decreases body, 0
  {
    match body
    case Other(b, _) => [b]
    case Escaped(b, _) => [BACKSLASH, b]
    case SingleRun(text, _) => [SINGLE] + (text + [SINGLE])
    case DoubleRun(q, _) => [DOUBLE] + (PrintInside(q) + [DOUBLE])
    case Group(inner, _) => [OPEN_PAREN] + (PrintParen(inner) + [CLOSE_PAREN])
  }

  function PrintParen(body: ParenBody): Text
    decreases body, 1
  {
    if body.Nothing? then [] else FrontOfParen(body) + PrintParen(body.rest)
  }

  predicate ParenOk(body: ParenBody) {
    match body
    case Nothing => true
    case Other(b, rest) => b !in {SINGLE, DOUBLE, BACKSLASH, OPEN_PAREN, CLOSE_PAREN} && ParenOk(rest)
    case Escaped(_, rest) => ParenOk(rest)
    case SingleRun(text, rest) => SINGLE !in text && ParenOk(rest)
    case DoubleRun(q, rest) => InsideOk(q, DOUBLE) && ParenOk(rest)
    case Group(inner, rest) => ParenOk(inner) && ParenOk(rest)
  }

  ghost predicate IsParenScan(scan: Scanning, bytes: Text) {
    forall i: nat, depth: nat {:trigger Parens(bytes, i, depth)} ::
      i <= |bytes| ==> scan(i, depth) == Parens(bytes, i, depth)
  }

  lemma ParenScanIs(scan: Scanning, bytes: Text, i: nat, depth: nat)
    requires IsParenScan(scan, bytes) && i <= |bytes|
    ensures scan(i, depth) == Parens(bytes, i, depth)
  {
  }

  lemma PassParenSimple(scan: Scanning, bytes: Text, i: nat, body: ParenBody, depth: nat)
    requires IsParenScan(scan, bytes) && depth > 0 && ParenOk(body) && !body.Nothing? && !body.Group?
    requires At(bytes, i, FrontOfParen(body))
    ensures Passes(scan, i, |FrontOfParen(body)|, depth)
  {
    AtFirst(bytes, i, FrontOfParen(body));
    ParenScanIs(scan, bytes, i, depth);
    ParenScanIs(scan, bytes, i + |FrontOfParen(body)|, depth);
    if body.SingleRun? {
      AtParts(bytes, i, [SINGLE], body.text + [SINGLE]);
      FindSingleText(bytes, i + 1, body.text);
    } else if body.DoubleRun? {
      AtParts(bytes, i, [DOUBLE], PrintInside(body.inside) + [DOUBLE]);
      FindInside(bytes, i + 1, body.inside, DOUBLE);
    }
  }

  lemma OpenParen(scan: Scanning, bytes: Text, i: nat, depth: nat)
    requires IsParenScan(scan, bytes) && depth > 0 && At(bytes, i, [OPEN_PAREN])
    ensures scan(i, depth) == scan(i + 1, depth + 1)
  {
    AtFirst(bytes, i, [OPEN_PAREN]);
    ParenScanIs(scan, bytes, i, depth);
    ParenScanIs(scan, bytes, i + 1, depth + 1);
  }

  lemma CloseParen(scan: Scanning, bytes: Text, i: nat, depth: nat)
    requires IsParenScan(scan, bytes) && At(bytes, i, [CLOSE_PAREN])
    ensures scan(i, depth + 1) == if depth > 0 then scan(i + 1, depth) else i
  {
    AtFirst(bytes, i, [CLOSE_PAREN]);
    ParenScanIs(scan, bytes, i, depth + 1);
    ParenScanIs(scan, bytes, i + 1, depth);
    assert Parens(bytes, i, 0) == i;
  }

  lemma {:induction false} PassParenBody(scan: Scanning, bytes: Text, i: nat, body: ParenBody, depth: nat)
    requires IsParenScan(scan, bytes) && depth > 0 && ParenOk(body) && At(bytes, i, PrintParen(body))
    ensures Passes(scan, i, |PrintParen(body)|, depth)
    decreases body
  {
    if !body.Nothing? {
      var front := FrontOfParen(body);
      AtParts(bytes, i, front, PrintParen(body.rest));
      if body.Group? {
        var inner := PrintParen(body.body);
        AtParts(bytes, i, [OPEN_PAREN], inner + [CLOSE_PAREN]);
        AtParts(bytes, i + 1, inner, [CLOSE_PAREN]);
        OpenParen(scan, bytes, i, depth);
        PassParenBody(scan, bytes, i + 1, body.body, depth + 1);
        CloseParen(scan, bytes, i + 1 + |inner|, depth);
      } else {
        PassParenSimple(scan, bytes, i, body, depth);
      }
      PassParenBody(scan, bytes, i + |front|, body.rest, depth);
    }
  }

  /** The naive scan finds the `)` after any balanced text. */
  lemma ParensReadBack(bytes: Text, i: nat, body: ParenBody)
    requires ParenOk(body) && At(bytes, i, PrintParen(body) + [CLOSE_PAREN])
    ensures Parens(bytes, i, 1) == i + |PrintParen(body)|
  {
    var scan: Scanning := (k: nat, depth: nat) => if k <= |bytes| then Parens(bytes, k, depth) else 0;
    AtParts(bytes, i, PrintParen(body), [CLOSE_PAREN]);
    PassParenBody(scan, bytes, i, body, 1);
    CloseParen(scan, bytes, i + |PrintParen(body)|, 0);
  }

  /** So a brace scan that uses it can cross such a `$(…)`. */
  lemma NaiveCloses(body: ParenBody)
    requires ParenOk(body)
    ensures Closes((bytes: Text, i: nat) => if i <= |bytes| then Parens(bytes, i, 1) else i, PrintParen(body))
  {
    forall bytes: Text, i: nat | At(bytes, i, PrintParen(body) + [CLOSE_PAREN])
      ensures Parens(bytes, i, 1) == i + |PrintParen(body)|
    {
      ParensReadBack(bytes, i, body);
    }
  }

  // ----- where scans stop -----

  /** Every scan stops at a closer or at the end. */
  lemma {:induction false} BracesStop(parens: ParenScanner, bytes: Text, i: nat, depth: nat)
    requires i <= |bytes| && depth > 0
    ensures var k := Braces(parens, bytes, i, depth); k < |bytes| ==> bytes[k] == CLOSE_BRACE
    decreases |bytes| - i, depth
  {
    if i < |bytes| {
      if Quoted(bytes, i).Some? {
        BracesStop(parens, bytes, Quoted(bytes, i).value, depth);
      } else {
        var (j, d) := BraceStep(parens, bytes, i, depth);
        if d > 0 { BracesStop(parens, bytes, j, d); }
      }
    }
  }

  lemma {:induction false} ParensStop(bytes: Text, i: nat, depth: nat)
    requires i <= |bytes| && depth > 0
    ensures var k := Parens(bytes, i, depth); k < |bytes| ==> bytes[k] == CLOSE_PAREN
    decreases |bytes| - i, depth
  {
    if i < |bytes| {
      if Quoted(bytes, i).Some? {
        ParensStop(bytes, Quoted(bytes, i).value, depth);
      } else if bytes[i] == CLOSE_PAREN {
        if depth > 1 { ParensStop(bytes, i + 1, depth - 1); }
      } else {
        ParensStop(bytes, i + 1, if bytes[i] == OPEN_PAREN then depth + 1 else depth);
      }
    }
  }

  /** A quote that is not closed runs to the end, as does a backslash there. */
  lemma OpenQuotes(bytes: Text, i: nat)
    requires i < |bytes|
    ensures bytes[i] == SINGLE && SINGLE !in bytes[i + 1..] ==> Quoted(bytes, i) == Some(|bytes|)
    ensures bytes[i] == DOUBLE && DOUBLE !in bytes[i + 1..] ==> Quoted(bytes, i) == Some(|bytes|)
    ensures bytes[i] == BACKSLASH && i + 1 == |bytes| ==> Quoted(bytes, i) == Some(|bytes|)
  {
    FindStops(bytes, i + 1, DOUBLE);
    SingleStops(bytes, i + 1);
    var j, k := Find(bytes, i + 1, DOUBLE), FindSingle(bytes, i + 1);
    assert j < |bytes| ==> bytes[i + 1..][j - i - 1] == DOUBLE;
    assert k < |bytes| ==> bytes[i + 1..][k - i - 1] == SINGLE;
  }

  lemma {:induction false} FindStops(bytes: Text, j: nat, close: byte)
    requires j <= |bytes|
    ensures var k := Find(bytes, j, close); k < |bytes| ==> bytes[k] == close
    decreases |bytes| - j
  {
    if j < |bytes| && bytes[j] != close {
      FindStops(bytes, if bytes[j] == BACKSLASH && j + 1 < |bytes| then j + 2 else j + 1, close);
    }
  }

  lemma {:induction false} SingleStops(bytes: Text, j: nat)
    requires j <= |bytes|
    ensures var k := FindSingle(bytes, j); SINGLE !in bytes[j..k] && (k < |bytes| ==> bytes[k] == SINGLE)
    decreases |bytes| - j
  {
    if j < |bytes| && bytes[j] != SINGLE {
      SingleStops(bytes, j + 1);
      assert bytes[j..FindSingle(bytes, j)] == [bytes[j]] + bytes[j + 1..FindSingle(bytes, j)];
    }
  }

  /** Without a closer the scan comes to the end. */
  lemma NoCloser(parens: ParenScanner, bytes: Text, i: nat, depth: nat)
    requires i <= |bytes| && depth > 0
    ensures CLOSE_BRACE !in bytes[i..] ==> Braces(parens, bytes, i, depth) == |bytes|
    ensures CLOSE_PAREN !in bytes[i..] ==> Parens(bytes, i, depth) == |bytes|
  {
    BracesStop(parens, bytes, i, depth);
    ParensStop(bytes, i, depth);
    var j, k := Braces(parens, bytes, i, depth), Parens(bytes, i, depth);
    assert j < |bytes| ==> bytes[i..][j - i] == CLOSE_BRACE;
    assert k < |bytes| ==> bytes[i..][k - i] == CLOSE_PAREN;
  }
}
