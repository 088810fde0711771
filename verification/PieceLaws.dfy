/** What the pieces of a value are under the usual kinds of IFS. */
module PieceLaws {
  import opened Prelude
  import opened Utf8
  import opened ByteEnc
  import opened Ifs
  import opened PieceSpec

  // ----- an IFS of ASCII characters -----

  predicate AsciiIfs(ifs: Str) { forall i :: 0 <= i < |ifs| ==> ifs[i] < 0x80 }

  lemma {:induction false} AsciiBytes(ifs: Str)
    requires AsciiIfs(ifs)
    ensures AsBytes(ifs) == ifs
  {
    if ifs != [] {
      AsciiBytes(ifs[1..]);
      CharShape(ifs[0]);
      assert [ifs[0]] + ifs[1..] == ifs;
    }
  }

  /** Each byte of an ASCII IFS separates by itself, and no other byte does. */
  lemma AsciiSeps(ifs: Str, t: Text, i: nat)
    requires AsciiIfs(ifs) && i < |t|
    ensures SepsOf(ifs).blank(t[i]) <==> t[i] in ifs && t[i] in [0x20, 0x09, 0x0A]
    ensures SepsOf(ifs).mark(t, i) == if t[i] in ifs && t[i] !in [0x20, 0x09, 0x0A] then 1 else 0
  {
    AsciiBytes(ifs);
    AsciiDecodes(ifs);
    AsciiUnits(Decoded(ifs));
    assert t[i..][0] == t[i];
  }

  /** Where `c` occurs next, from `i` on; the end when it does not. */
  function NextOf(c: byte, t: Text, i: nat): (j: nat)
    requires i <= |t|
    ensures i <= j <= |t| && c !in t[i..j] && (j < |t| ==> t[j] == c)
    decreases |t| - i
  {
    if i == |t| || t[i] == c then i else
      var j := NextOf(c, t, i + 1);
      assert t[i..j] == [t[i]] + t[i + 1..j];
      j
  }

  /** The stretches between the occurrences of `c`, from `i` on. */
  function Between(c: byte, t: Text, i: nat): (r: seq<Text>)
    requires i <= |t|
    ensures r != []
    decreases |t| - i
  {
    var j := NextOf(c, t, i);
    if j == |t| then [t[i..]] else [t[i..j]] + Between(c, t, j + 1)
  }

  function WithoutLastEmpty(ts: seq<Text>): seq<Text> {
    if ts != [] && ts[|ts| - 1] == [] then ts[..|ts| - 1] else ts
  }

  /** Only `c` separates, and it is no white space. */
  ghost predicate Only(p: Seps, c: byte, t: Text) {
    forall i: nat {:trigger p.mark(t, i)} :: i < |t| ==> !p.blank(t[i]) && p.mark(t, i) == if t[i] == c then 1 else 0
  }

  lemma {:induction false} RunToMark(p: Seps, c: byte, t: Text, i: nat)
    requires Only(p, c, t) && i <= |t|
    ensures PastRun(p, t, i) == NextOf(c, t, i) && PastBlanks(p, t, i) == i
    decreases |t| - i
  {
    if i < |t| {
      var m := p.mark(t, i);
      RunToMark(p, c, t, i + 1);
    }
  }

  lemma MarkEnds(p: Seps, c: byte, t: Text, i: nat)
    requires Only(p, c, t) && i < |t| && t[i] == c
    ensures PastDelim(p, t, i) == i + 1
  {
    RunToMark(p, c, t, i);
    assert p.mark(t, i) == 1;
  }

  /** `from(i)` are the pieces of `t` from `i` on. */
  ghost predicate IsPieces(from: nat -> seq<Text>, p: Seps, t: Text) {
    forall i: nat {:trigger PiecesFrom(p, t, i, None)} :: i <= |t| ==> from(i) == PiecesFrom(p, t, i, None)
  }

  ghost function FromEach(p: Seps, t: Text): nat -> seq<Text> {
    (i: nat) => if i <= |t| then PiecesFrom(p, t, i, None) else []
  }

  /** The same for the stretches between the occurrences of `c`. */
  ghost predicate IsBetween(from: nat -> seq<Text>, c: byte, t: Text) {
    forall i: nat {:trigger Between(c, t, i)} :: i <= |t| ==> from(i) == WithoutLastEmpty(Between(c, t, i))
  }

  lemma PiecesStep(p: Seps, c: byte, t: Text, pieces: nat -> seq<Text>, i: nat, j: nat)
    requires Only(p, c, t) && i <= |t| && j == NextOf(c, t, i) && IsPieces(pieces, p, t)
    ensures pieces(i) == if i == |t| then [] else if j == |t| then [t[i..]] else [t[i..j]] + pieces(j + 1)
  {
    RunToMark(p, c, t, i);
    FirstPiece(p, t, i);
    if j < |t| { MarkEnds(p, c, t, j); }
  }

  lemma BetweenUnfolds(c: byte, t: Text, i: nat, j: nat)
    requires i <= |t| && j == NextOf(c, t, i)
    ensures Between(c, t, i) == if j == |t| then [t[i..]] else [t[i..j]] + Between(c, t, j + 1)
  {
  }

  lemma BetweenStep(c: byte, t: Text, between: nat -> seq<Text>, i: nat, j: nat)
    requires i <= |t| && j == NextOf(c, t, i) && IsBetween(between, c, t)
    ensures between(i) == if i == |t| then [] else if j == |t| then [t[i..]] else [t[i..j]] + between(j + 1)
  {
    BetweenUnfolds(c, t, i, j);
    if j < |t| { LastEmptyCons(t[i..j], Between(c, t, j + 1)); } else { LastEmptyOne(t[i..]); }
  }

  lemma {:induction false} MarkPieces(p: Seps, c: byte, t: Text, pieces: nat -> seq<Text>, between: nat -> seq<Text>,
                                      i: nat)
    requires Only(p, c, t) && i <= |t| && IsPieces(pieces, p, t) && IsBetween(between, c, t)
    ensures pieces(i) == between(i)
    decreases |t| - i
  {
    var j := NextOf(c, t, i);
    PiecesStep(p, c, t, pieces, i, j);
    BetweenStep(c, t, between, i, j);
    if j < |t| { MarkPieces(p, c, t, pieces, between, j + 1); }
  }

  lemma LastEmptyOne(x: Text)
    ensures WithoutLastEmpty([x]) == if x == [] then [] else [x]
  {
  }

  /** The piece at the front, where no white space stands. */
  lemma FirstPiece(p: Seps, t: Text, i: nat)
    requires i <= |t| && PastBlanks(p, t, i) == i
    ensures PiecesFrom(p, t, i, None) ==
            var j := PastRun(p, t, i);
            if i == |t| then [] else if j == |t| then [t[i..]]
            else [t[i..j]] + PiecesFrom(p, t, PastDelim(p, t, j), None)
  {
    assert t[i..] + [] == t[i..];
  }

  lemma LastEmptyCons(x: Text, ts: seq<Text>)
    requires ts != []
    ensures WithoutLastEmpty([x] + ts) == [x] + WithoutLastEmpty(ts)
  {
  }

  /** Under an IFS of one ASCII character that is no white space, a value splits
      at each occurrence of it; an empty field at the end is none. */
  lemma OneMark(c: byte, t: Text)
    requires c < 0x80 && c !in [0x20, 0x09, 0x0A]
    ensures Pieces([c], t) == WithoutLastEmpty(Between(c, t, 0))
  {
    forall i: nat | i < |t| ensures !SepsOf([c]).blank(t[i]) && SepsOf([c]).mark(t, i) == if t[i] == c then 1 else 0 {
      AsciiSeps([c], t, i);
    }
    var pieces := FromEach(SepsOf([c]), t);
    var between := (i: nat) => if i <= |t| then WithoutLastEmpty(Between(c, t, i)) else [];
    MarkPieces(SepsOf([c]), c, t, pieces, between, 0);
    assert pieces(0) == PiecesFrom(SepsOf([c]), t, 0, None) && between(0) == WithoutLastEmpty(Between(c, t, 0));
  }

  // ----- white space -----

  /** The maximal stretches of bytes that are no white space, from `i` on: a
      byte begins one when it ends the text or white space follows it, and is
      put before the next one otherwise. */
  function Words(blank: byte -> bool, t: Text, i: nat): (r: seq<Text>)
    requires i <= |t|
    ensures i < |t| && !blank(t[i]) ==> r != []
    decreases |t| - i
  {
    if i == |t| then [] else
      var rest := Words(blank, t, i + 1);
      if blank(t[i]) then rest
      else if i + 1 == |t| || blank(t[i + 1]) then [[t[i]]] + rest
      else [[t[i]] + rest[0]] + rest[1..]
  }

  lemma {:induction false} WordsBehindBlanks(p: Seps, t: Text, i: nat)
    requires i <= |t|
    ensures Words(p.blank, t, i) == Words(p.blank, t, PastBlanks(p, t, i))
    decreases |t| - i
  {
    if i < |t| && p.blank(t[i]) { WordsBehindBlanks(p, t, i + 1); }
  }

  /** No separator but white space. */
  ghost predicate OnlyBlanks(p: Seps, t: Text) {
    forall i: nat {:trigger p.mark(t, i)} :: i < |t| ==> p.mark(t, i) == 0
  }

  lemma {:induction false} WordAt(p: Seps, t: Text, i: nat)
    requires OnlyBlanks(p, t) && i < |t| && !p.blank(t[i])
    ensures var j := PastRun(p, t, i);
            Words(p.blank, t, i) == [t[i..j]] + Words(p.blank, t, j)
    decreases |t| - i
  {
    assert p.mark(t, i) == 0;
    if i + 1 < |t| && !p.blank(t[i + 1]) {
      WordAt(p, t, i + 1);
      WordCons(t, i, PastRun(p, t, i));
    } else {
      assert PastRun(p, t, i + 1) == i + 1;
      assert t[i..i + 1] == [t[i]];
    }
  }

  lemma WordCons(t: Text, i: nat, j: nat)
    requires i < j <= |t|
    ensures [t[i]] + t[i + 1..j] == t[i..j]
  {
  }

  lemma {:induction false} BlankPieces(p: Seps, t: Text, i: nat)
    requires OnlyBlanks(p, t) && i <= |t|
    ensures PiecesFrom(p, t, i, None) == Words(p.blank, t, i)
    decreases |t| - i
  {
    var a := PastBlanks(p, t, i);
    WordsBehindBlanks(p, t, i);
    if a < |t| {
      WordAt(p, t, a);
      var b := PastRun(p, t, a);
      assert p.mark(t, a) == 0;
      if b < |t| {
        BlankDelim(p, t, b);
        WordsBehindBlanks(p, t, b);
        BlankPieces(p, t, PastDelim(p, t, b));
      }
      LastWord(p, t, a);
    }
  }

  lemma BlankDelim(p: Seps, t: Text, b: nat)
    requires OnlyBlanks(p, t) && b <= |t|
    ensures PastDelim(p, t, b) == PastBlanks(p, t, b)
  {
    var k := PastBlanks(p, t, b);
    if k < |t| { assert p.mark(t, k) == 0; }
  }

  lemma LastWord(p: Seps, t: Text, a: nat)
    requires a < |t|
    ensures t[a..] + TailText(None) == t[a..] && t[a..|t|] == t[a..]
    ensures [t[a..]] + Words(p.blank, t, |t|) == [t[a..]]
  {
  }

  /** Under an IFS of white space alone a value splits into its words. */
  lemma WhiteSpaceOnly(ifs: Str, t: Text)
    requires forall i :: 0 <= i < |ifs| ==> ifs[i] in [0x20, 0x09, 0x0A]
    ensures Pieces(ifs, t) == Words((b: byte) => b in ifs, t, 0)
  {
    var p := SepsOf(ifs);
    forall i: nat | i < |t| ensures p.mark(t, i) == 0 { AsciiSeps(ifs, t, i); }
    BlankPieces(p, t, 0);
    forall i: nat | i < |t| ensures p.blank(t[i]) <==> t[i] in ifs { AsciiSeps(ifs, t, i); }
    SameWords(p.blank, (b: byte) => b in ifs, t, 0);
  }

  lemma {:induction false} SameWords(f: byte -> bool, g: byte -> bool, t: Text, i: nat)
    requires i <= |t| && forall k :: 0 <= k < |t| ==> f(t[k]) == g(t[k])
    ensures Words(f, t, i) == Words(g, t, i)
    decreases |t| - i
  {
    if i < |t| { SameWords(f, g, t, i + 1); }
  }

  // ----- both kinds -----

  /** Each byte separates by itself or not at all. */
  ghost predicate Bytewise(p: Seps, sep: byte -> bool, t: Text) {
    forall i: nat {:trigger p.mark(t, i)} :: i < |t| ==> p.mark(t, i) == if sep(t[i]) then 1 else 0
  }

  /** `t` and `u` are the same from these positions on. */
  predicate SameFrom(t: Text, i: nat, u: Text, j: nat) { i <= |t| && j <= |u| && t[i..] == u[j..] }

  lemma SameNext(t: Text, i: nat, u: Text, j: nat, n: nat)
    requires SameFrom(t, i, u, j) && i + n <= |t|
    ensures SameFrom(t, i + n, u, j + n) && |t| - i == |u| - j && t[i..i + n] == u[j..j + n]
    ensures i < |t| ==> t[i] == u[j]
  {
    assert t[i..][n..] == u[j..][n..] && t[i..][..n] == u[j..][..n];
    if i < |t| { assert t[i..][0] == u[j..][0]; }
  }

  lemma {:induction false} SameBlanksEnd(p: Seps, t: Text, i: nat, u: Text, j: nat)
    requires SameFrom(t, i, u, j)
    ensures PastBlanks(p, t, i) - i == PastBlanks(p, u, j) - j
    decreases |t| - i
  {
    SameNext(t, i, u, j, 0);
    if i < |t| {
      SameNext(t, i, u, j, 1);
      SameBlanksEnd(p, t, i + 1, u, j + 1);
    }
  }

  lemma {:induction false} SameRunEnd(p: Seps, sep: byte -> bool, t: Text, i: nat, u: Text, j: nat)
    requires SameFrom(t, i, u, j) && Bytewise(p, sep, t) && Bytewise(p, sep, u)
    ensures PastRun(p, t, i) - i == PastRun(p, u, j) - j
    decreases |t| - i
  {
    SameNext(t, i, u, j, 0);
    if i < |t| {
      SameNext(t, i, u, j, 1);
      assert p.mark(t, i) == p.mark(u, j);
      SameRunEnd(p, sep, t, i + 1, u, j + 1);
    }
  }

  lemma SameDelimEnd(p: Seps, sep: byte -> bool, t: Text, i: nat, u: Text, j: nat)
    requires SameFrom(t, i, u, j) && Bytewise(p, sep, t) && Bytewise(p, sep, u)
    ensures PastDelim(p, t, i) - i == PastDelim(p, u, j) - j
  {
    SameBlanksEnd(p, t, i, u, j);
    var n := PastBlanks(p, t, i) - i;
    SameNext(t, i, u, j, n);
    SameNext(t, i + n, u, j + n, 0);
    if i + n < |t| { assert p.mark(t, i + n) == p.mark(u, j + n); }
  }

  lemma PieceStep(p: Seps, t: Text, i: nat)
    requires i <= |t|
    ensures var a := PastBlanks(p, t, i); var b := PastRun(p, t, a);
            PiecesFrom(p, t, i, None) ==
            if a == |t| then [] else if b == |t| then [t[a..b]]
            else [t[a..b]] + PiecesFrom(p, t, PastDelim(p, t, b), None)
  {
    var a := PastBlanks(p, t, i);
    if a < |t| { LastWord(p, t, a); }
  }

  lemma SameBlanks(p: Seps, t: Text, i: nat, u: Text, j: nat)
    requires SameFrom(t, i, u, j)
    ensures SameFrom(t, PastBlanks(p, t, i), u, PastBlanks(p, u, j))
    ensures PastBlanks(p, t, i) == |t| <==> PastBlanks(p, u, j) == |u|
  {
    SameBlanksEnd(p, t, i, u, j);
    SameNext(t, i, u, j, PastBlanks(p, t, i) - i);
  }

  lemma SameRun(p: Seps, sep: byte -> bool, t: Text, i: nat, u: Text, j: nat)
    requires SameFrom(t, i, u, j) && Bytewise(p, sep, t) && Bytewise(p, sep, u)
    ensures SameFrom(t, PastRun(p, t, i), u, PastRun(p, u, j)) && t[i..PastRun(p, t, i)] == u[j..PastRun(p, u, j)]
    ensures PastRun(p, t, i) == |t| <==> PastRun(p, u, j) == |u|
  {
    SameRunEnd(p, sep, t, i, u, j);
    SameNext(t, i, u, j, PastRun(p, t, i) - i);
  }

  lemma SameDelim(p: Seps, sep: byte -> bool, t: Text, i: nat, u: Text, j: nat)
    requires SameFrom(t, i, u, j) && Bytewise(p, sep, t) && Bytewise(p, sep, u)
    ensures SameFrom(t, PastDelim(p, t, i), u, PastDelim(p, u, j))
  {
    SameDelimEnd(p, sep, t, i, u, j);
    SameNext(t, i, u, j, PastDelim(p, t, i) - i);
  }

  /** The pieces from a position on depend on what follows it alone. */
  lemma {:induction false} SamePieces(p: Seps, sep: byte -> bool, t: Text, i: nat, u: Text, j: nat)
    requires SameFrom(t, i, u, j) && Bytewise(p, sep, t) && Bytewise(p, sep, u)
    ensures PiecesFrom(p, t, i, None) == PiecesFrom(p, u, j, None)
    decreases |t| - i
  {
    var a, c := PastBlanks(p, t, i), PastBlanks(p, u, j);
    SameBlanks(p, t, i, u, j);
    SameRun(p, sep, t, a, u, c);
    PieceStep(p, t, i);
    PieceStep(p, u, j);
    var b, d := PastRun(p, t, a), PastRun(p, u, c);
    if b < |t| {
      SameDelim(p, sep, t, b, u, d);
      SamePieces(p, sep, t, PastDelim(p, t, b), u, PastDelim(p, u, d));
    }
  }

  // ----- white space around a separator -----

  /** `t` is `u` with white space around its separator at `at`: from `at` to the
      separator at `mid`, and from there to `end`. */
  ghost predicate Padded(p: Seps, t: Text, u: Text, at: nat, mid: nat, end: nat) {
    && at <= mid < end <= |t| && at < |u| && SameFrom(t, end, u, at + 1) && t[..at] == u[..at]
    && PastBlanks(p, t, at) == mid && PastBlanks(p, t, mid + 1) == PastBlanks(p, t, end)
    && PastBlanks(p, u, at) == at && p.mark(t, mid) == 1 == p.mark(u, at)
    && StopsAt(p, t, at) && PastRun(p, t, mid) == mid
  }

  lemma {:induction false} PaddedEnds(p: Seps, sep: byte -> bool, t: Text, u: Text, at: nat, mid: nat, end: nat, i: nat)
    requires Padded(p, t, u, at, mid, end) && Bytewise(p, sep, t) && Bytewise(p, sep, u) && i <= at
    ensures PastRun(p, t, i) == PastRun(p, u, i) <= at
    ensures PastBlanks(p, u, i) <= at
    ensures PastBlanks(p, t, i) == if PastBlanks(p, u, i) < at then PastBlanks(p, u, i) else mid
    decreases at - i
  {
    if i < at {
      assert t[i] == t[..at][i] == u[i];
      assert p.mark(t, i) == p.mark(u, i);
      PaddedEnds(p, sep, t, u, at, mid, end, i + 1);
    } else {
      assert StopsAt(p, u, at);
    }
  }

  lemma PaddedDelim(p: Seps, sep: byte -> bool, t: Text, u: Text, at: nat, mid: nat, end: nat, i: nat)
    requires Padded(p, t, u, at, mid, end) && Bytewise(p, sep, t) && Bytewise(p, sep, u) && i <= at
    ensures if PastBlanks(p, u, i) < at then PastDelim(p, t, i) == PastDelim(p, u, i) <= at
            else PastDelim(p, t, i) == mid + 1 && PastDelim(p, u, i) == at + 1
  {
    PaddedEnds(p, sep, t, u, at, mid, end, i);
    var k := PastBlanks(p, u, i);
    if k < at {
      assert t[k] == t[..at][k] == u[k];
      assert p.mark(t, k) == p.mark(u, k);
    }
  }

  /** A text and its padded form, with their pieces. */
  ghost predicate Pads(p: Seps, sep: byte -> bool, t: Text, u: Text, at: nat, mid: nat, end: nat,
                       ofT: nat -> seq<Text>, ofU: nat -> seq<Text>) {
    && Padded(p, t, u, at, mid, end) && Bytewise(p, sep, t) && Bytewise(p, sep, u)
    && IsPieces(ofT, p, t) && IsPieces(ofU, p, u)
  }

  lemma PaddedRest(p: Seps, sep: byte -> bool, t: Text, u: Text, at: nat, mid: nat, end: nat,
                   ofT: nat -> seq<Text>, ofU: nat -> seq<Text>)
    requires Pads(p, sep, t, u, at, mid, end, ofT, ofU)
    ensures ofT(mid + 1) == ofU(at + 1)
  {
    SamePieces(p, sep, t, end, u, at + 1);
    PieceStep(p, t, mid + 1);
    PieceStep(p, t, end);
  }

  lemma {:induction false} PaddedPieces(p: Seps, sep: byte -> bool, t: Text, u: Text, at: nat, mid: nat, end: nat,
                                        ofT: nat -> seq<Text>, ofU: nat -> seq<Text>, i: nat)
    requires Pads(p, sep, t, u, at, mid, end, ofT, ofU) && i <= at
    ensures ofT(i) == ofU(i)
    decreases at - i
  {
    var a := PastBlanks(p, u, i);
    PaddedEnds(p, sep, t, u, at, mid, end, i);
    if a == at {
      PaddedFirst(p, sep, t, u, at, mid, end, ofT, ofU, i);
    } else {
      var b, next := PaddedNext(p, sep, t, u, at, mid, end, ofT, ofU, i, a);
      if next.Some? { PaddedPieces(p, sep, t, u, at, mid, end, ofT, ofU, next.value); }
    }
  }

  /** The pieces agree once those behind the delimiter at `next` do. */
  lemma PaddedNext(p: Seps, sep: byte -> bool, t: Text, u: Text, at: nat, mid: nat, end: nat,
                   ofT: nat -> seq<Text>, ofU: nat -> seq<Text>, i: nat, a: nat)
    returns (b: nat, next: Option<nat>)
    requires Pads(p, sep, t, u, at, mid, end, ofT, ofU) && i <= at
    requires a == PastBlanks(p, u, i) == PastBlanks(p, t, i) < at
    ensures next.None? ==> ofT(i) == ofU(i)
    ensures next.Some? ==> i < next.value <= at && (ofT(next.value) == ofU(next.value) ==> ofT(i) == ofU(i))
  {
    PaddedEnds(p, sep, t, u, at, mid, end, a);
    b := PastRun(p, u, a);
    PaddedDelim(p, sep, t, u, at, mid, end, b);
    PaddedRest(p, sep, t, u, at, mid, end, ofT, ofU);
    next := if PastBlanks(p, u, b) < at then Some(PastDelim(p, u, b)) else None;
    PaddedStep(p, t, u, at, ofT, ofU, i, a, b);
  }

  lemma PaddedStep(p: Seps, t: Text, u: Text, at: nat, ofT: nat -> seq<Text>, ofU: nat -> seq<Text>,
                   i: nat, a: nat, b: nat)
    requires IsPieces(ofT, p, t) && IsPieces(ofU, p, u)
    requires i <= a < at && a <= b <= at && at < |u| && at < |t| && t[..at] == u[..at]
    requires PastBlanks(p, t, i) == PastBlanks(p, u, i) == a && PastRun(p, t, a) == PastRun(p, u, a) == b
    ensures i < PastDelim(p, u, b)
    ensures ofT(PastDelim(p, t, b)) == ofU(PastDelim(p, u, b)) ==> ofT(i) == ofU(i)
  {
    PieceStep(p, t, i);
    PieceStep(p, u, i);
    SameSlice(t, u, at, a, b);
  }

  lemma SameSlice(t: Text, u: Text, at: nat, a: nat, b: nat)
    requires a <= b <= at <= |t| && at <= |u| && t[..at] == u[..at]
    ensures t[a..b] == u[a..b]
  {
    assert t[a..b] == t[..at][a..b] == u[a..b];
  }

  lemma PaddedFirst(p: Seps, sep: byte -> bool, t: Text, u: Text, at: nat, mid: nat, end: nat,
                    ofT: nat -> seq<Text>, ofU: nat -> seq<Text>, i: nat)
    requires Pads(p, sep, t, u, at, mid, end, ofT, ofU)
    requires i <= at && PastBlanks(p, u, i) == at && PastBlanks(p, t, i) == mid
    ensures ofT(i) == ofU(i)
  {
    PaddedRest(p, sep, t, u, at, mid, end, ofT, ofU);
    PaddedMid(p, t, u, at, mid, end);
    PieceStep(p, t, i);
    PieceStep(p, u, i);
  }

  lemma PaddedMid(p: Seps, t: Text, u: Text, at: nat, mid: nat, end: nat)
    requires Padded(p, t, u, at, mid, end)
    ensures PastDelim(p, t, mid) == mid + 1 && PastDelim(p, u, at) == at + 1
    ensures PastRun(p, u, at) == at && t[mid..mid] == [] && u[at..at] == []
  {
  }

  predicate Blanks(p: Seps, t: Text, i: nat, j: nat) {
    i <= j <= |t| && forall k :: i <= k < j ==> p.blank(t[k])
  }

  lemma {:induction false} BlanksSkipped(p: Seps, t: Text, i: nat, j: nat)
    requires Blanks(p, t, i, j)
    ensures PastBlanks(p, t, i) == PastBlanks(p, t, j)
    decreases j - i
  {
    if i < j { BlanksSkipped(p, t, i + 1, j); }
  }

  predicate AllBlank(p: Seps, w: Text) { forall k :: 0 <= k < |w| ==> p.blank(w[k]) }

  /** `t` is `a`, `v`, `c`, `w`, `b` in a row. */
  predicate Parts(t: Text, a: Text, v: Text, c: byte, w: Text, b: Text) {
    var at, mid, end := |a|, |a| + |v|, |a| + |v| + 1 + |w|;
    && end <= |t| && t[..at] == a && t[at..mid] == v && t[mid] == c && t[mid + 1..end] == w && t[end..] == b
  }

  lemma PartsOf(a: Text, v: Text, c: byte, w: Text, b: Text)
    ensures Parts(a + (v + ([c] + (w + b))), a, v, c, w, b)
  {
  }

  lemma SliceBlanks(p: Seps, t: Text, i: nat, j: nat)
    requires i <= j <= |t| && AllBlank(p, t[i..j])
    ensures PastBlanks(p, t, i) == PastBlanks(p, t, j)
    ensures i < j ==> p.blank(t[i])
  {
    forall k | i <= k < j ensures p.blank(t[k]) { assert t[i..j][k - i] == t[k]; }
    BlanksSkipped(p, t, i, j);
  }

  lemma PartsPadded(p: Seps, t: Text, u: Text, a: Text, v: Text, c: byte, w: Text, b: Text)
    requires Parts(t, a, v, c, w, b) && Parts(u, a, [], c, [], b)
    requires AllBlank(p, v) && AllBlank(p, w) && !p.blank(c)
    requires p.mark(t, |a| + |v|) == 1 == p.mark(u, |a|)
    ensures Padded(p, t, u, |a|, |a| + |v|, |a| + |v| + 1 + |w|)
  {
    SliceBlanks(p, t, |a|, |a| + |v|);
    SliceBlanks(p, t, |a| + |v| + 1, |a| + |v| + 1 + |w|);
    assert StopsAt(p, t, |a| + |v|);
  }

  lemma PartsPieces(p: Seps, sep: byte -> bool, t: Text, u: Text, a: Text, v: Text, c: byte, w: Text, b: Text)
    requires Parts(t, a, v, c, w, b) && Parts(u, a, [], c, [], b) && Bytewise(p, sep, t) && Bytewise(p, sep, u)
    requires AllBlank(p, v) && AllBlank(p, w) && !p.blank(c) && sep(c)
    ensures PiecesFrom(p, t, 0, None) == PiecesFrom(p, u, 0, None)
  {
    assert p.mark(t, |a| + |v|) == 1 == p.mark(u, |a|);
    PartsPadded(p, t, u, a, v, c, w, b);
    PaddedPieces(p, sep, t, u, |a|, |a| + |v|, |a| + |v| + 1 + |w|, FromEach(p, t), FromEach(p, u), 0);
    assert FromEach(p, t)(0) == PiecesFrom(p, t, 0, None) && FromEach(p, u)(0) == PiecesFrom(p, u, 0, None);
  }

  predicate InIfs(ifs: Str, w: Text) { forall k :: 0 <= k < |w| ==> w[k] in ifs && w[k] in [0x20, 0x09, 0x0A] }

  lemma AsciiBytewise(ifs: Str, t: Text)
    requires AsciiIfs(ifs)
    ensures Bytewise(SepsOf(ifs), (b: byte) => b in ifs && b !in [0x20, 0x09, 0x0A], t)
    ensures InIfs(ifs, t) ==> AllBlank(SepsOf(ifs), t)
  {
    var p, sep := SepsOf(ifs), (b: byte) => b in ifs && b !in [0x20, 0x09, 0x0A];
    forall i: nat | i < |t|
      ensures p.mark(t, i) == if sep(t[i]) then 1 else 0
      ensures p.blank(t[i]) <==> t[i] in ifs && t[i] in [0x20, 0x09, 0x0A]
    {
      AsciiSeps(ifs, t, i);
    }
  }

  /** White space around a separator that is none adds no field. */
  lemma BlanksAroundMark(ifs: Str, a: Text, v: Text, c: byte, w: Text, b: Text)
    requires AsciiIfs(ifs) && c in ifs && c !in [0x20, 0x09, 0x0A] && InIfs(ifs, v) && InIfs(ifs, w)
    ensures Pieces(ifs, a + (v + ([c] + (w + b)))) == Pieces(ifs, a + ([c] + b))
  {
    var t, u := a + (v + ([c] + (w + b))), a + ([c] + b);
    PartsOf(a, v, c, w, b);
    PartsOf(a, [], c, [], b);
    assert a + ([] + ([c] + ([] + b))) == u;
    AsciiBytewise(ifs, t);
    AsciiBytewise(ifs, u);
    AsciiBytewise(ifs, v);
    AsciiBytewise(ifs, w);
    AsciiSeps(ifs, [c], 0);
    PartsPieces(SepsOf(ifs), (x: byte) => x in ifs && x !in [0x20, 0x09, 0x0A], t, u, a, v, c, w, b);
  }
}
