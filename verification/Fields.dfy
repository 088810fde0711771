/** `ExpandedField` (src/expand/field.rs): an expanded word whose quoting
    attributes are packed one bit per byte, and the plain per-byte reading of
    it that the packed form refines. */
module Fields {
  import opened Prelude
  import opened Bits

  // ----- the plain reading: one cell per byte -----

  datatype Cell = Cell(b: byte, split: bool, glob: bool)

  datatype Field = Field(
    cells: seq<Cell>,
    wasQuoted: bool,
    joinSep: Option<Text>,
    quotedContent: bool,
    emptyQuotes: seq<nat>)

  const EMPTY_FIELD := Field([], false, None, false, [])

  function CellsOf(s: Text, split: bool, glob: bool): (cells: seq<Cell>)
    ensures |cells| == |s|
  {
    seq(|s|, i requires 0 <= i < |s| => Cell(s[i], split, glob))
  }

  function Bytes(cells: seq<Cell>): (s: Text)
    ensures |s| == |cells|
  {
    seq(|cells|, i requires 0 <= i < |cells| => cells[i].b)
  }

  /** Record `at` unless it is already the last offset. */
  function NoteQuote(quotes: seq<nat>, at: nat): seq<nat> {
    if quotes != [] && quotes[|quotes| - 1] == at then quotes else quotes + [at]
  }

  /** `quotes`, then every offset of `more` moved right by `shift`. */
  function NoteQuotes(quotes: seq<nat>, more: seq<nat>, shift: nat): seq<nat> {
    if more == [] then quotes
    else NoteQuote(NoteQuotes(quotes, more[..|more| - 1], shift), shift + more[|more| - 1])
  }

  function AddQuoted(f: Field, s: Text): Field {
    f.(cells := f.cells + CellsOf(s, true, true),
       wasQuoted := true,
       quotedContent := true,
       emptyQuotes := if s == [] then NoteQuote(f.emptyQuotes, |f.cells|) else f.emptyQuotes)
  }

  function AddLiteral(f: Field, s: Text): Field {
    f.(cells := f.cells + CellsOf(s, true, false))
  }

  function AddExpanded(f: Field, s: Text): Field {
    f.(cells := f.cells + CellsOf(s, false, false))
  }

  function Append(f: Field, g: Field): Field {
    f.(cells := f.cells + g.cells,
       wasQuoted := f.wasQuoted || g.wasQuoted,
       quotedContent := f.quotedContent || g.quotedContent,
       emptyQuotes := NoteQuotes(f.emptyQuotes, g.emptyQuotes, |f.cells|))
  }

  /** Strictly ascending offsets, none past `len`. */
  predicate Ascending(quotes: seq<nat>, len: nat) {
    && (forall i, j :: 0 <= i < j < |quotes| ==> quotes[i] < quotes[j])
    && (forall i :: 0 <= i < |quotes| ==> quotes[i] <= len)
  }

  /** Glob-protected bytes are split-protected too. */
  predicate Layered(cells: seq<Cell>) {
    forall i :: 0 <= i < |cells| && cells[i].glob ==> cells[i].split
  }

  /** What every field built by the push operations keeps. */
  predicate WellFormed(f: Field) {
    && Layered(f.cells)
    && Ascending(f.emptyQuotes, |f.cells|)
    && (f.emptyQuotes != [] ==> f.wasQuoted)
    && (f.quotedContent ==> f.wasQuoted)
  }

  lemma NoteAscending(quotes: seq<nat>, bound: nat, at: nat)
    requires Ascending(quotes, bound) && bound <= at
    ensures Ascending(NoteQuote(quotes, at), at)
  {
  }

  lemma InitAscending(quotes: seq<nat>, len: nat)
    requires Ascending(quotes, len) && |quotes| > 1
    ensures quotes[|quotes| - 1] > 0 && Ascending(quotes[..|quotes| - 1], quotes[|quotes| - 1] - 1)
  {
    assert quotes[|quotes| - 2] < quotes[|quotes| - 1];
  }

  lemma {:induction false} NoteQuotesAscending(quotes: seq<nat>, more: seq<nat>, shift: nat, len: nat)
    requires Ascending(quotes, shift) && Ascending(more, len)
    ensures Ascending(NoteQuotes(quotes, more, shift), shift + len)
    ensures NoteQuotes(quotes, more, shift) == [] <==> quotes == [] && more == []
  {
    if |more| == 1 {
      assert NoteQuotes(quotes, more[..0], shift) == quotes;
      NoteAscending(quotes, shift, shift + more[0]);
    } else if more != [] {
      var init, last := more[..|more| - 1], more[|more| - 1];
      InitAscending(more, len);
      NoteQuotesAscending(quotes, init, shift, last - 1);
      NoteAscending(NoteQuotes(quotes, init, shift), shift + last - 1, shift + last);
    }
  }

  /** The push operations keep a well-formed field well formed. */
  lemma PushKeepsWellFormed(f: Field, s: Text)
    requires WellFormed(f)
    ensures WellFormed(AddQuoted(f, s))
    ensures WellFormed(AddLiteral(f, s))
    ensures WellFormed(AddExpanded(f, s))
  {
    assert Layered(f.cells + CellsOf(s, true, true));
    assert Layered(f.cells + CellsOf(s, true, false));
    assert Layered(f.cells + CellsOf(s, false, false));
  }

  lemma AppendKeepsWellFormed(f: Field, g: Field)
    requires WellFormed(f) && WellFormed(g)
    ensures WellFormed(Append(f, g))
  {
    assert Layered(f.cells + g.cells);
    NoteQuotesAscending(f.emptyQuotes, g.emptyQuotes, |f.cells|, |g.cells|);
  }

  // ----- packed masks -----

  /** `bit_set`: `mask[i / 64] & (1 << i % 64) != 0`, false past the end. */
  predicate BitSet(mask: seq<u64>, i: nat) {
    i / 64 < |mask| && And(mask[i / 64], Shl(1, i % 64)) != 0
  }

  lemma {:induction false} AndPow2(w: nat, n: nat)
    ensures And(w, Pow2(n)) != 0 <==> Bit(w, n)
  {
    ZeroBit(n);
    if w != 0 && n > 0 { AndPow2(w / 2, n - 1); }
  }

  /** `BitSet` reads bit `i % 64` of word `i / 64`. */
  lemma BitSetReads(mask: seq<u64>, i: nat)
    ensures BitSet(mask, i) <==> i / 64 < |mask| && Bit(mask[i / 64], i % 64)
  {
    if i / 64 < |mask| {
      ShlOne(i % 64);
      AndPow2(mask[i / 64], i % 64);
    }
  }

  function DivCeil64(n: nat): nat { (n + 63) / 64 }

  function Max(a: nat, b: nat): nat { if a < b then b else a }

  /** `mask.resize(n, 0)` when the mask is shorter than `n` words. */
  function Grown(mask: seq<u64>, n: nat): (r: seq<u64>)
    ensures |r| == Max(|mask|, n)
  {
    if |mask| < n then mask + seq(n - |mask|, _ => 0) else mask
  }

  lemma GrownBits(mask: seq<u64>, n: nat, i: nat)
    ensures BitSet(Grown(mask, n), i) == BitSet(mask, i)
  {
    BitSetReads(mask, i);
    BitSetReads(Grown(mask, n), i);
    ZeroBit(i % 64);
  }

  /** Bits of `mask` that word `k` gains when the range `[start, end)` is set. */
  lemma FilledWord(w: u64, from: nat, to: nat, j: nat)
    requires from < 64 && to <= 64 && j < 64
    ensures Pow2(to) - 1 <= U64_MAX
    ensures Bit(OrWord(w, Shl(U64_MAX, from)), j) == (Bit(w, j) || from <= j)
    ensures Bit(OrWord(w, Pow2(to) - 1), j) == (Bit(w, j) || j < to)
    ensures And(Pow2(to) - 1, Shl(U64_MAX, from)) <= U64_MAX
    ensures Bit(OrWord(w, And(Pow2(to) - 1, Shl(U64_MAX, from))), j) == (Bit(w, j) || from <= j < to)
  {
    WordBounds();
    Pow2Monotone(to, 64);
    ShlBit(U64_MAX, from, j);
    OnesBit(to, j);
    if j >= from { OnesBit(64, j - from); }
    OrBit(w, Shl(U64_MAX, from), j);
    OrBit(w, Pow2(to) - 1, j);
    AndBit(Pow2(to) - 1, Shl(U64_MAX, from), j);
    OrBit(w, And(Pow2(to) - 1, Shl(U64_MAX, from)), j);
  }

  /** `(1 << hi) - 1`, or all ones for a full word. */
  function TailBits(hi: nat): (t: u64)
    requires hi <= 64
    ensures t == Pow2(hi) - 1
  {
    WordBounds();
    Pow2Monotone(hi, 64);
    if hi == 64 then U64_MAX else
      ShlOne(hi);
      Shl(1, hi) - 1
  }

  /** `out` has the bits of `mask` and those of the range. */
  ghost predicate Filled(out: seq<u64>, mask: seq<u64>, start: nat, len: nat) {
    forall i: nat :: BitSet(out, i) == (BitSet(mask, i) || start <= i < start + len)
  }

  method SetMaskRange(mask: seq<u64>, start: nat, len: nat) returns (out: seq<u64>)
    ensures |out| == Max(|mask|, if len == 0 then 0 else DivCeil64(start + len))
    ensures Filled(out, mask, start, len)
  {
    if len == 0 { return mask; }
    var end := start + len;
    out := Grown(mask, DivCeil64(end));
    ghost var grown := out;
    var first, last := start / 64, (end - 1) / 64;
    var lo, hi := start % 64, end - last * 64;
    var tail := TailBits(hi);
    if first == last {
      FilledWord(out[first], lo, hi, 0);
      out := out[first := OrWord(out[first], And(tail, Shl(U64_MAX, lo)))];
    } else {
      out := out[first := OrWord(out[first], Shl(U64_MAX, lo))];
      var k := first + 1;
      while k < last
        invariant first < k <= last < |out| == |grown|
        invariant forall m :: 0 <= m < |out| ==>
          out[m] == (if m == first then OrWord(grown[m], Shl(U64_MAX, lo))
                     else if first < m < k then U64_MAX else grown[m])
      {
        out := out[k := U64_MAX];
        k := k + 1;
      }
      out := out[last := OrWord(out[last], tail)];
    }
    forall i: nat ensures BitSet(out, i) == (BitSet(mask, i) || start <= i < end) {
      RangeBit(mask, grown, out, start, end, i);
    }
  }

  /** One bit of the mask after the word-wise fill. */
  lemma RangeBit(mask: seq<u64>, grown: seq<u64>, out: seq<u64>, start: nat, end: nat, i: nat)
    requires start < end && grown == Grown(mask, DivCeil64(end)) && |out| == |grown|
    requires forall m :: 0 <= m < |out| ==> out[m] == FillOf(grown[m], start, end, m)
    ensures BitSet(out, i) == (BitSet(mask, i) || start <= i < end)
  {
    GrownBits(mask, DivCeil64(end), i);
    BitSetReads(grown, i);
    BitSetReads(out, i);
    if i / 64 < |grown| {
      FillOfBit(grown[i / 64], start, end, i);
    }
  }

  /** Word `m` of a mask after the range `[start, end)` is set in it. */
  function FillOf(w: u64, start: nat, end: nat, m: nat): u64
    requires start < end
  {
    var first, last := start / 64, (end - 1) / 64;
    var lo, tail := start % 64, TailBits(end - last * 64);
    FilledWord(w, lo, end - last * 64, 0);
    if m == first == last then OrWord(w, And(tail, Shl(U64_MAX, lo)))
    else if m == first then OrWord(w, Shl(U64_MAX, lo))
    else if m == last then OrWord(w, tail)
    else if first < m < last then U64_MAX else w
  }

  lemma FillOfBit(w: u64, start: nat, end: nat, i: nat)
    requires start < end
    ensures Bit(FillOf(w, start, end, i / 64), i % 64) == (Bit(w, i % 64) || start <= i < end)
  {
    var m, j := i / 64, i % 64;
    WordBounds();
    OnesBit(64, j);
    var last := (end - 1) / 64;
    FilledWord(w, start % 64, end - last * 64, j);
    assert i < end <==> m < last || (m == last && j < end - last * 64);
    assert start <= i <==> start / 64 < m || (m == start / 64 && start % 64 <= j);
  }

  /** `dst[slot] |= w << shift`, the bits shifted out going to the next word
      when there is one. */
  function ShiftIn(mask: seq<u64>, slot: nat, shift: nat, w: u64): (r: seq<u64>)
    requires slot < |mask| && shift < 64
    ensures |r| == |mask|
  {
    var r := mask[slot := OrWord(mask[slot], Shl(w, shift))];
    if shift != 0 && slot + 1 < |r|
    then r[slot + 1 := OrWord(r[slot + 1], Shr(w, 64 - shift))]
    else r
  }

  lemma ShiftInBit(mask: seq<u64>, slot: nat, shift: nat, w: u64, valid: nat, i: nat)
    requires slot < |mask| && shift < 64
    requires forall p: nat :: valid <= p ==> !Bit(w, p)
    requires 64 * slot + shift + valid <= 64 * |mask|
    ensures BitSet(ShiftIn(mask, slot, shift, w), i) ==
            (BitSet(mask, i) || (64 * slot + shift <= i && Bit(w, i - 64 * slot - shift)))
  {
    var m, j := i / 64, i % 64;
    BitSetReads(mask, i);
    BitSetReads(ShiftIn(mask, slot, shift, w), i);
    WordBounds();
    if 64 * slot + 64 <= i - shift { HighBitsClear(w, 64, i - 64 * slot - shift); }
    if m == slot {
      OrBit(mask[slot], Shl(w, shift), j);
      ShlBit(w, shift, j);
    } else if m == slot + 1 < |mask| && shift != 0 {
      OrBit(mask[m], Shr(w, 64 - shift), j);
      ShrBit(w, 64 - shift, j);
    }
  }

  /** `w` with the bits at and above `valid` cleared. */
  function Trimmed(w: u64, valid: nat): u64 {
    if valid >= 64 then w else
      ShlOne(valid);
      And(w, Shl(1, valid) - 1)
  }

  lemma TrimmedBit(w: u64, valid: nat, p: nat)
    ensures Bit(Trimmed(w, valid), p) == (p < valid && Bit(w, p))
  {
    WordBounds();
    if valid < 64 {
      ShlOne(valid);
      OnesBit(valid, p);
      AndBit(w, Pow2(valid) - 1, p);
    } else if p >= 64 {
      HighBitsClear(w, 64, p);
    }
  }

  /** `out` has the bits of `dst` and the first `srcLen` bits of `src`, moved up
      by `start`. */
  ghost predicate Merged(out: seq<u64>, dst: seq<u64>, src: seq<u64>, srcLen: nat, start: nat) {
    forall i: nat :: BitSet(out, i) == (BitSet(dst, i) || (start <= i < start + srcLen && BitSet(src, i - start)))
  }

  method OrMaskShifted(dst: seq<u64>, src: seq<u64>, srcLen: nat, start: nat) returns (out: seq<u64>)
    ensures |out| == Max(|dst|, if srcLen == 0 || src == [] then 0 else DivCeil64(start + srcLen))
    ensures Merged(out, dst, src, srcLen, start)
  {
    if srcLen == 0 || src == [] { return dst; }
    out := Grown(dst, DivCeil64(start + srcLen));
    forall i: nat ensures BitSet(out, i) == BitSet(dst, i) { GrownBits(dst, DivCeil64(start + srcLen), i); }
    var shift, base := start % 64, start / 64;
    var srcWords := if DivCeil64(srcLen) < |src| then DivCeil64(srcLen) else |src|;
    for k := 0 to srcWords
      invariant |out| == Max(|dst|, DivCeil64(start + srcLen))
      invariant forall i: nat ::
        BitSet(out, i) ==
        (BitSet(dst, i) || (start <= i < start + srcLen && i - start < 64 * k && BitSet(src, i - start)))
    {
      var valid := srcLen - k * 64;
      var w := Trimmed(src[k], valid);
      ghost var before := out;
      if w != 0 {
        out := ShiftIn(out, base + k, shift, w);
      }
      forall i: nat ensures BitSet(out, i) == (BitSet(dst, i) ||
        (start <= i < start + srcLen && i - start < 64 * (k + 1) && BitSet(src, i - start)))
      {
        ShiftedStep(dst, src, srcLen, start, before, k, i);
      }
    }
  }

  /** Word `k` of `src` adds exactly its valid bits. */
  lemma ShiftedStep(dst: seq<u64>, src: seq<u64>, srcLen: nat, start: nat, mask: seq<u64>, k: nat, i: nat)
    requires k < |src| && 64 * k < srcLen && DivCeil64(start + srcLen) <= |mask|
    requires BitSet(mask, i) ==
      (BitSet(dst, i) || (start <= i < start + srcLen && i - start < 64 * k && BitSet(src, i - start)))
    ensures var w := Trimmed(src[k], srcLen - k * 64);
            BitSet(if w != 0 then ShiftIn(mask, start / 64 + k, start % 64, w) else mask, i) ==
            (BitSet(dst, i) || (start <= i < start + srcLen && i - start < 64 * (k + 1) && BitSet(src, i - start)))
  {
    var valid := srcLen - k * 64;
    var w := Trimmed(src[k], valid);
    var bits := if valid < 64 then valid else 64;
    forall p: nat | bits <= p ensures !Bit(w, p) {
      TrimmedBit(src[k], valid, p);
      WordBounds();
      HighBitsClear(src[k], 64, if p < 64 then 64 else p);
    }
    if w != 0 { ShiftInBit(mask, start / 64 + k, start % 64, w, bits, i); }
    if start + 64 * k <= i < start + 64 * k + 64 {
      var p := i - start - 64 * k;
      TrimmedBit(src[k], valid, p);
      BitSetReads(src, i - start);
      assert (i - start) / 64 == k && (i - start) % 64 == p;
      ZeroBit(p);
    }
  }

  // ----- the packed field -----

  class ExpandedField {
    var value: Text
    var splitProtected: seq<u64>
    var globProtected: seq<u64>
    var wasQuoted: bool
    var joinSep: Option<Text>
    var quotedContent: bool
    var emptyQuotes: seq<nat>

    /** The plain reading of this field. */
    ghost function View(): (f: Field)
      reads this
    {
      Field(CellsAt(value, splitProtected, globProtected), wasQuoted, joinSep, quotedContent, emptyQuotes)
    }

    /** Mask bits at and past the end of the value are clear. */
    ghost predicate TailsClear()
      reads this
    {
      Within(splitProtected, |value|) && Within(globProtected, |value|)
    }

    ghost predicate Valid()
      reads this
    {
      TailsClear() && WellFormed(View())
    }

    constructor ()
      ensures Valid() && View() == EMPTY_FIELD
    {
      value, splitProtected, globProtected := [], [], [];
      wasQuoted, joinSep, quotedContent, emptyQuotes := false, None, false, [];
      new;
    }

    /** Every byte protected, by filling whole words: the bits past the end of
        the value are set too, so no push operation may follow. */
    constructor AllQuoted(text: Text)
      ensures View() == EMPTY_FIELD.(cells := CellsOf(text, true, true))
      ensures value == text
    {
      value := text;
      splitProtected := seq(DivCeil64(|text|), _ => U64_MAX);
      globProtected := seq(DivCeil64(|text|), _ => U64_MAX);
      wasQuoted, joinSep, quotedContent, emptyQuotes := false, None, false, [];
      new;
      AllOnes(splitProtected, DivCeil64(|value|));
    }

    /** The one reader of `splitProtected`. */
    predicate IsSplitProtected(i: nat)
      reads this
      ensures i < |value| ==> IsSplitProtected(i) == View().cells[i].split
    {
      BitSet(splitProtected, i)
    }

    predicate IsGlobProtected(i: nat)
      reads this
      ensures i < |value| ==> IsGlobProtected(i) == View().cells[i].glob
    {
      BitSet(globProtected, i)
    }

    method SetJoinSep(sep: Option<Text>)
      requires Valid()
      modifies this`joinSep
      ensures Valid() && View() == old(View()).(joinSep := sep)
    {
      joinSep := sep;
    }

    method SetWasQuoted()
      requires Valid()
      modifies this`wasQuoted
      ensures Valid() && View() == old(View()).(wasQuoted := true)
    {
      wasQuoted := true;
    }

    method PushEmptyQuote(at: nat)
      modifies this`emptyQuotes
      ensures emptyQuotes == NoteQuote(old(emptyQuotes), at)
    {
      if emptyQuotes == [] || emptyQuotes[|emptyQuotes| - 1] != at {
        emptyQuotes := emptyQuotes + [at];
      }
    }

    method PushQuoted(s: Text)
      requires Valid()
      modifies this
      ensures Valid() && View() == AddQuoted(old(View()), s)
    {
      PushKeepsWellFormed(View(), s);
      if s == [] {
        PushEmptyQuote(|value|);
      }
      var start := |value|;
      value := value + s;
      splitProtected := SetMaskRange(splitProtected, start, |s|);
      globProtected := SetMaskRange(globProtected, start, |s|);
      wasQuoted := true;
      quotedContent := true;
      PushedCells(old(value), old(splitProtected), old(globProtected), s, true, true, splitProtected, globProtected);
    }

    method PushLiteral(s: Text)
      requires Valid()
      modifies this
      ensures Valid() && View() == AddLiteral(old(View()), s)
    {
      PushKeepsWellFormed(View(), s);
      var start := |value|;
      value := value + s;
      splitProtected := SetMaskRange(splitProtected, start, |s|);
      PushedCells(old(value), old(splitProtected), old(globProtected), s, true, false, splitProtected, globProtected);
    }

    method PushExpanded(s: Text)
      requires Valid()
      modifies this
      ensures Valid() && View() == AddExpanded(old(View()), s)
    {
      PushKeepsWellFormed(View(), s);
      value := value + s;
      PushedCells(old(value), old(splitProtected), old(globProtected), s, false, false, splitProtected, globProtected);
    }

    /** Concatenation, also when `other` is an all-quoted field whose masks run
        past its value. */
    method AppendField(other: ExpandedField)
      requires Valid() && other != this && WellFormed(other.View())
      modifies this
      ensures Valid() && View() == Append(old(View()), other.View())
    {
      ghost var f, g := View(), other.View();
      AppendKeepsWellFormed(f, g);
      var start := |value|;
      AppendBytes(other);
      wasQuoted := wasQuoted || other.wasQuoted;
      quotedContent := quotedContent || other.quotedContent;
      AppendQuotes(other.emptyQuotes, start);
      assert View() == Append(f, g);
    }

    method AppendBytes(other: ExpandedField)
      requires TailsClear() && other != this
      modifies this`value, this`splitProtected, this`globProtected
      ensures TailsClear() && View() == old(View()).(cells := old(View()).cells + other.View().cells)
    {
      var len := |other.value|;
      var split := OrMaskShifted(splitProtected, other.splitProtected, len, |value|);
      var glob := OrMaskShifted(globProtected, other.globProtected, len, |value|);
      JoinedCells(value, splitProtected, globProtected, other.value, other.splitProtected, other.globProtected,
        split, glob);
      value, splitProtected, globProtected := value + other.value, split, glob;
    }

    method AppendQuotes(more: seq<nat>, shift: nat)
      modifies this`emptyQuotes
      ensures emptyQuotes == NoteQuotes(old(emptyQuotes), more, shift)
    {
      for k := 0 to |more|
        invariant emptyQuotes == NoteQuotes(old(emptyQuotes), more[..k], shift)
      {
        PushEmptyQuote(shift + more[k]);
        assert more[..k + 1][..k] == more[..k];
      }
      assert more[..|more|] == more;
    }
  }

  ghost predicate Within(mask: seq<u64>, len: nat) { forall i: nat :: BitSet(mask, i) ==> i < len }

  /** New bytes with their attributes set read as cells behind the old ones. */
  lemma PushedCells(value: Text, split: seq<u64>, glob: seq<u64>, s: Text, isSplit: bool, isGlob: bool,
                    split': seq<u64>, glob': seq<u64>)
    requires Within(split, |value|) && Within(glob, |value|)
    requires Filled(split', split, |value|, if isSplit then |s| else 0)
    requires Filled(glob', glob, |value|, if isGlob then |s| else 0)
    ensures CellsAt(value + s, split', glob') == CellsAt(value, split, glob) + CellsOf(s, isSplit, isGlob)
    ensures Within(split', |value + s|) && Within(glob', |value + s|)
  {
  }

  /** Values and masks of two fields put together read as the concatenation. */
  lemma JoinedCells(value: Text, split: seq<u64>, glob: seq<u64>, more: Text, moreSplit: seq<u64>,
                    moreGlob: seq<u64>, split': seq<u64>, glob': seq<u64>)
    requires Within(split, |value|) && Within(glob, |value|)
    requires Merged(split', split, moreSplit, |more|, |value|) && Merged(glob', glob, moreGlob, |more|, |value|)
    ensures CellsAt(value + more, split', glob') == CellsAt(value, split, glob) + CellsAt(more, moreSplit, moreGlob)
    ensures Within(split', |value + more|) && Within(glob', |value + more|)
  {
  }

  function CellsAt(value: Text, split: seq<u64>, glob: seq<u64>): (cells: seq<Cell>)
    ensures |cells| == |value|
  {
    seq(|value|, i requires 0 <= i < |value| => Cell(value[i], BitSet(split, i), BitSet(glob, i)))
  }

  lemma AllOnes(mask: seq<u64>, words: nat)
    requires |mask| == words && forall k :: 0 <= k < words ==> mask[k] == U64_MAX
    ensures forall i: nat :: BitSet(mask, i) <==> i < 64 * words
  {
    forall i: nat ensures BitSet(mask, i) <==> i < 64 * words {
      BitSetReads(mask, i);
      WordBounds();
      OnesBit(64, i % 64);
    }
  }
}
