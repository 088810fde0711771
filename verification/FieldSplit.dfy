/** The IFS state machine (src/expand/field_split.rs) on packed fields, proved
    to compute the reading of `SplitSpec`. */
module FieldSplit {
  import opened Prelude
  import opened Fields
  import opened SplitSpec
  import opened Utf8
  import opened ByteEnc
  import opened Ifs
  import opened Chars

  datatype State = Start | InField | AfterWs | AfterNws

  // ----- what is left to produce in each state -----

  /** The field under construction: its bytes and what opened it. */
  function Remaining(cells: seq<Cell>, state: State, marked: bool, content: seq<Cell>, ts: Tokens): seq<Field> {
    match state
    case Start => ReadFields(cells, ts)
    case AfterNws => ReadFields(cells, ts)
    case AfterWs => ReadFields(cells, SkipDelimiter(ts))
    case InField => FinishRun(cells, marked, content, ts)
  }

  /** The fields emitted when the next token is a delimiter. */
  function Emitted(state: State, marked: bool, content: seq<Cell>, nws: bool): seq<Field> {
    if state == InField then [KeptField(marked, content)]
    else if nws && state != AfterWs then [QUOTED_EMPTY]
    else []
  }

  lemma DelimiterStep(cells: seq<Cell>, state: State, marked: bool, content: seq<Cell>, ts: Tokens)
    requires ts.Tok? && ts.head.Delimiter()
    ensures Remaining(cells, state, marked, content, ts) ==
            Emitted(state, marked, content, ts.head.Nws?) +
            Remaining(cells, AfterDelimiter(state, ts.head.Nws?), false, [], ts.tail)
  {
    if state == InField {
      CloseRun(cells, marked, content, ts);
    } else if ts.head.Nws? && state != AfterWs {
      assert AnyQuoted([]) == false;
    }
  }

  /** The state after a delimiter. */
  function AfterDelimiter(state: State, nws: bool): State {
    if nws then AfterNws else if state == InField then AfterWs else state
  }

  /** Outside a field, a byte or a quoted empty string opens one. */
  lemma OpenStep(cells: seq<Cell>, state: State, ts: Tokens)
    requires ts.Tok? && !ts.head.Delimiter() && state != InField
    ensures Remaining(cells, state, false, [], ts) == FinishRun(cells, ts.head.Mark?, [], ts)
  {
    OpenRun(cells, ts);
  }

  // ----- passing over a run of bytes at once -----

  /** Quoted empty strings pending at a byte inside a field may be passed
      before it or after it. */
  lemma {:induction false} ByteStep(d: Delims, f: Field, i: nat, q: nat)
    requires ValidDelims(d) && i < |f.cells| && q <= |f.emptyQuotes|
    requires !IsDelimAt(d, f.cells, i)
    ensures Passes(f.cells, Tokenize(d, f, i, q), Tokenize(d, f, i + 1, q), [f.cells[i]])
    decreases |f.emptyQuotes| - q
  {
    if q < |f.emptyQuotes| && f.emptyQuotes[q] <= i {
      ByteStep(d, f, i, q + 1);
      MarkAround(f.cells, Mark(i), Mark(i + 1), Tokenize(d, f, i, q + 1), Tokenize(d, f, i + 1, q + 1), [f.cells[i]]);
    } else {
      PassToken(f.cells, Byte(i), Tokenize(d, f, i + 1, q));
    }
  }

  lemma MarkAround(cells: seq<Cell>, m: Token, m': Token, before: Tokens, after: Tokens, content: seq<Cell>)
    requires m.Mark? && m'.Mark? && Passes(cells, before, after, content)
    ensures Passes(cells, Tok(m, before), Tok(m', after), content)
  {
    PassToken(cells, m, before);
    PassToken(cells, m', after);
    PassBoth(cells, Tok(m, before), before, after, [], content);
    assert [] + content == content && content + [] == content;
    PassBoth(cells, Tok(m, before), after, Tok(m', after), content, []);
  }

  predicate NoDelimiters(d: Delims, cells: seq<Cell>, i: nat, j: nat)
    requires ValidDelims(d) && j <= |cells|
  {
    forall k :: i <= k < j ==> !IsDelimAt(d, cells, k)
  }

  lemma {:induction false} PassRun(d: Delims, f: Field, i: nat, j: nat, q: nat)
    requires ValidDelims(d) && i < j <= |f.cells| && q <= |f.emptyQuotes|
    requires NoDelimiters(d, f.cells, i, j)
    ensures Passes(f.cells, Tokenize(d, f, i, q), Tokenize(d, f, j, q), f.cells[i..j])
    decreases j - i
  {
    ByteStep(d, f, i, q);
    if i + 1 == j {
      assert f.cells[i..j] == [f.cells[i]];
    } else {
      PassRun(d, f, i + 1, j, q);
      PassBoth(f.cells, Tokenize(d, f, i, q), Tokenize(d, f, i + 1, q), Tokenize(d, f, j, q), [f.cells[i]],
          f.cells[i + 1..j]);
      assert f.cells[i..j] == [f.cells[i]] + f.cells[i + 1..j];
    }
  }

  // ----- the machine -----

  /** `rest.starts_with(m)` with every byte after the first unprotected. */
  predicate Follows(field: ExpandedField, i: nat, m: Text)
    reads field
  {
    && i + |m| <= |field.value|
    && forall j :: i <= j < i + |m| ==> field.value[j] == m[j - i] && (j > i ==> !field.IsSplitProtected(j))
  }

  lemma FollowsMatches(field: ExpandedField, i: nat, m: Text)
    ensures Follows(field, i, m) == MatchesAt(field.View().cells, i, m)
  {
    var cells := field.View().cells;
    forall j | 0 <= j < |cells|
      ensures cells[j].b == field.value[j] && cells[j].split == field.IsSplitProtected(j)
    {
    }
  }

  function FindMulti(multi: seq<Text>, field: ExpandedField, i: nat): (n: nat)
    reads field
    ensures n == FirstMatch(multi, field.View().cells, i)
  {
    if multi == [] then 0
    else FollowsMatches(field, i, multi[0]); if Follows(field, i, multi[0]) then |multi[0]|
    else FindMulti(multi[1..], field, i)
  }

  /** `Delims::class` on the packed field. */
  function ClassOf(d: Delims, field: ExpandedField, i: nat): (r: (Class, nat))
    requires ValidDelims(d) && i < |field.value|
    reads field
    ensures r == ClassAt(d, field.View().cells, i)
  {
    var c := d.table[field.value[i]];
    if c == NotDelim || field.IsSplitProtected(i) then (NotDelim, 1)
    else if c == MbLead then
      var n := FindMulti(d.multi, field, i);
      if n == 0 then (NotDelim, 1) else (NwsDelim, n)
    else (c, 1)
  }

  /** Bytes `[i, j)` with one attribute pair, none of them a delimiter. */
  ghost predicate UniformRun(d: Delims, cells: seq<Cell>, i: nat, j: nat)
    requires ValidDelims(d)
  {
    && i < j <= |cells| && NoDelimiters(d, cells, i, j)
    && forall k :: i <= k < j ==> cells[k].split == cells[i].split && cells[k].glob == cells[i].glob
  }

  /** Pushing a uniform slice extends the field by its cells. */
  lemma PushedSlice(f: Field, cells: seq<Cell>, i: nat, j: nat)
    requires i < j <= |cells| && Layered(cells)
    requires forall k :: i <= k < j ==> cells[k].split == cells[i].split && cells[k].glob == cells[i].glob
    ensures var slice := Bytes(cells)[i..j];
            Extended(f, cells[i..j]) ==
            if cells[i].glob then AddQuoted(f, slice)
            else if cells[i].split then AddLiteral(f, slice) else AddExpanded(f, slice)
  {
    var slice := Bytes(cells)[i..j];
    assert cells[i..j][0] == cells[i];
    assert CellsOf(slice, cells[i].split, cells[i].glob) == cells[i..j];
  }

  /** The run from `i` is as long as bytes keep the look of the first and start
      no delimiter for certain. */
  ghost predicate IsRun(d: Delims, cells: seq<Cell>, i: nat, j: nat)
    requires ValidDelims(d)
  {
    && UniformRun(d, cells, i, j)
    && (j == |cells| || !SameLook(cells[i], cells[j]) || (!cells[i].split && d.table[cells[j].b] != NotDelim))
  }

  /** The slice pushed starts and ends between characters. */
  method AppendRun(dest: ExpandedField, source: ExpandedField, i: nat, d: Delims) returns (j: nat)
    requires dest.Valid() && source.Valid() && dest != source && ValidDelims(d)
    requires i < |source.value| && !IsDelimAt(d, source.View().cells, i) && Sliceable(d, source.View().cells, i)
    modifies dest
    ensures IsRun(d, source.View().cells, i, j) && Sliceable(d, source.View().cells, j)
    ensures dest.Valid() && dest.View() == Extended(old(dest.View()), source.View().cells[i..j])
  {
    var split, glob := source.IsSplitProtected(i), source.IsGlobProtected(i);
    j := FindRunEnd(source, i, d);
    var slice := source.value[i..j];
    RunEndSliceable(d, source.View().cells, j);
    PushedSlice(dest.View(), source.View().cells, i, j);
    assert Bytes(source.View().cells) == source.value;
    if split && glob {
      dest.PushQuoted(slice);
    } else if split {
      dest.PushLiteral(slice);
    } else {
      dest.PushExpanded(slice);
    }
  }

  method FindRunEnd(source: ExpandedField, i: nat, d: Delims) returns (j: nat)
    requires ValidDelims(d) && i < |source.value| && !IsDelimAt(d, source.View().cells, i)
    ensures IsRun(d, source.View().cells, i, j)
  {
    var split, glob := source.IsSplitProtected(i), source.IsGlobProtected(i);
    j := i + 1;
    while j < |source.value|
      && source.IsSplitProtected(j) == split
      && source.IsGlobProtected(j) == glob
      && (split || d.table[source.value[j]] == NotDelim)
      invariant UniformRun(d, source.View().cells, i, j)
    {
      assert !IsDelimAt(d, source.View().cells, j);
      j := j + 1;
    }
  }

  /** The field under construction is what the state says it is. */
  ghost predicate Building(current: ExpandedField, state: State, marked: bool, content: seq<Cell>)
    reads current
  {
    && current.Valid()
    && current.View() == (if state == InField then KeptField(marked, content) else EMPTY_FIELD)
    && if state == InField then marked || content != [] else !marked && content == []
  }

  lemma RunOfBytesStep(d: Delims, f: Field, state: State, marked: bool, content: seq<Cell>, i: nat, j: nat, q: nat)
    requires ValidDelims(d) && i < j <= |f.cells| && q <= |f.emptyQuotes| && NoDelimiters(d, f.cells, i, j)
    requires q < |f.emptyQuotes| ==> i < f.emptyQuotes[q]
    requires state != InField ==> content == []
    ensures Remaining(f.cells, state, marked, content, Tokenize(d, f, i, q)) ==
            Remaining(f.cells, InField, state == InField && marked, content + f.cells[i..j], Tokenize(d, f, j, q))
  {
    var ts := Tokenize(d, f, i, q);
    PassRun(d, f, i, j, q);
    if state != InField { OpenStep(f.cells, state, ts); }
    FinishPass(f.cells, state == InField && marked, content, ts, Tokenize(d, f, j, q), f.cells[i..j]);
  }

  function Marks(i: nat, n: nat, ts: Tokens): Tokens {
    if n == 0 then ts else Tok(Mark(i), Marks(i, n - 1, ts))
  }

  lemma {:induction false} PendingMarks(d: Delims, f: Field, i: nat, q0: nat, q: nat)
    requires ValidDelims(d) && i <= |f.cells| && q0 <= q <= |f.emptyQuotes|
    requires forall k :: q0 <= k < q ==> f.emptyQuotes[k] <= i
    ensures Tokenize(d, f, i, q0) == Marks(i, q - q0, Tokenize(d, f, i, q))
    decreases q - q0
  {
    if q0 < q { PendingMarks(d, f, i, q0 + 1, q); }
  }

  /** The state after `n` quoted empty strings. */
  function Opened(state: State, n: nat): State { if n > 0 then InField else state }

  function OpenedByMark(state: State, marked: bool, n: nat): bool { (n > 0 && state != InField) || marked }

  lemma {:induction false} MarksPass(cells: seq<Cell>, i: nat, n: nat, ts: Tokens)
    ensures Passes(cells, Marks(i, n, ts), ts, [])
  {
    if n > 0 {
      MarksPass(cells, i, n - 1, ts);
      var rest := Marks(i, n - 1, ts);
      PassToken(cells, Mark(i), rest);
      PassBoth(cells, Tok(Mark(i), rest), rest, ts, [], []);
    }
  }

  lemma MarksStep(cells: seq<Cell>, state: State, marked: bool, content: seq<Cell>, i: nat, n: nat, ts: Tokens)
    requires state != InField ==> content == [] && !marked
    ensures Remaining(cells, state, marked, content, Marks(i, n, ts)) ==
            Remaining(cells, Opened(state, n), OpenedByMark(state, marked, n), content, ts)
  {
    if n > 0 {
      if state != InField { OpenStep(cells, state, Marks(i, n, ts)); }
      MarksPass(cells, i, n, ts);
      FinishPass(cells, OpenedByMark(state, marked, n), content, Marks(i, n, ts), ts, []);
      assert content + [] == content;
    }
  }

  lemma PassMarks(d: Delims, f: Field, state: State, marked: bool, content: seq<Cell>, i: nat, q0: nat, q: nat)
    requires ValidDelims(d) && i <= |f.cells| && q0 <= q <= |f.emptyQuotes|
    requires forall k :: q0 <= k < q ==> f.emptyQuotes[k] <= i
    requires state != InField ==> content == [] && !marked
    ensures Remaining(f.cells, state, marked, content, Tokenize(d, f, i, q0)) ==
            Remaining(f.cells, Opened(state, q - q0), OpenedByMark(state, marked, q - q0), content,
                      Tokenize(d, f, i, q))
  {
    PendingMarks(d, f, i, q0, q);
    MarksStep(f.cells, state, marked, content, i, q - q0, Tokenize(d, f, i, q));
  }

  /** The closure `open_at_empty_quote`: quoted empty strings at or before `i`
      open a field when none is open. */
  method OpenAtEmptyQuotes(current: ExpandedField, state0: State, ghost marked: bool, quotes: seq<nat>, q0: nat, i: nat,
                           ghost content: seq<Cell>)
    returns (state: State, q: nat)
    requires Building(current, state0, marked, content) && q0 <= |quotes|
    modifies current`wasQuoted
    ensures q0 <= q <= |quotes| && (q < |quotes| ==> i < quotes[q]) && forall k :: q0 <= k < q ==> quotes[k] <= i
    ensures state == Opened(state0, q - q0)
    ensures Building(current, state, OpenedByMark(state0, marked, q - q0), content)
  {
    state, q := state0, q0;
    while q < |quotes| && quotes[q] <= i
      invariant q0 <= q <= |quotes| && forall k :: q0 <= k < q ==> quotes[k] <= i
      invariant state == Opened(state0, q - q0)
      invariant Building(current, state, OpenedByMark(state0, marked, q - q0), content)
    {
      if state != InField {
        MarkOpen(current);
        state := InField;
      }
      q := q + 1;
    }
  }

  method MarkOpen(current: ExpandedField)
    requires current.Valid() && current.View() == EMPTY_FIELD
    modifies current`wasQuoted
    ensures Building(current, InField, true, [])
  {
    current.wasQuoted := true;
    assert current.View() == QUOTED_EMPTY == KeptField(true, []) by { assert AnyQuoted([]) == false; }
  }

  /** `append_run` as a step of the machine. */
  method TakeRun(current: ExpandedField, state: State, ghost marked: bool, field: ExpandedField, i: nat, d: Delims,
                 ghost cells: seq<Cell>, ghost content: seq<Cell>)
    returns (j: nat)
    requires current != field && field.Valid() && Building(current, state, marked, content) && ValidDelims(d)
    requires cells == field.View().cells
    requires i < |cells| && !IsDelimAt(d, cells, i) && Sliceable(d, cells, i)
    modifies current
    ensures i < j <= |cells| && NoDelimiters(d, cells, i, j) && Sliceable(d, cells, j)
    ensures Building(current, InField, state == InField && marked, content + cells[i..j])
  {
    j := AppendRun(current, field, i, d);
    ExtendKept(marked, content, cells[i..j]);
    assert AnyQuoted([]) == false;
  }

  /** At the end of the input the open field is emitted; nothing else is. */
  lemma FinalFlush(d: Delims, f: Field, state: State, marked: bool, content: seq<Cell>, q: nat)
    requires ValidDelims(d) && q <= |f.emptyQuotes| && (q < |f.emptyQuotes| ==> |f.cells| < f.emptyQuotes[q])
    ensures Remaining(f.cells, state, marked, content, Tokenize(d, f, |f.cells|, q)) ==
            if state == InField then [KeptField(marked, content)] else []
  {
    if state == InField { CloseRun(f.cells, marked, content, End); }
  }

  method NewQuotedEmpty() returns (o: ExpandedField)
    ensures fresh(o) && o.Valid() && o.View() == QUOTED_EMPTY
  {
    o := new ExpandedField();
    o.wasQuoted := true;
  }

  /** The fields `out` read as `vs`. */
  ghost predicate Shows(out: seq<ExpandedField>, vs: seq<Field>)
    reads out
  {
    |out| == |vs| && forall k :: 0 <= k < |out| ==> out[k].View() == vs[k]
  }

  lemma ShowsBoth(out: seq<ExpandedField>, vs: seq<Field>, more: seq<ExpandedField>, ms: seq<Field>)
    requires Shows(out, vs) && Shows(more, ms)
    ensures Shows(out + more, vs + ms)
  {
  }

  /** Everything already pushed is apart from the field being built. */
  ghost predicate Pushed(out: seq<ExpandedField>, current: ExpandedField, vs: seq<Field>)
    reads out
  {
    Shows(out, vs) && forall k :: 0 <= k < |out| ==> out[k] != current
  }

  /** `emit`: push the field under construction and start a new one. */
  method Emit(current: ExpandedField, out0: seq<ExpandedField>, ghost vs: seq<Field>)
    returns (next: ExpandedField, out: seq<ExpandedField>)
    requires Pushed(out0, current, vs)
    ensures fresh(next) && Building(next, Start, false, [])
    ensures out == out0 + [current] && Pushed(out, next, vs + [current.View()])
  {
    out := out0 + [current];
    next := new ExpandedField();
  }

  /** The arms of the machine for a delimiter. */
  method TakeDelimiter(current0: ExpandedField, state0: State, ghost marked: bool, out0: seq<ExpandedField>,
                       isNws: bool, ghost vs: seq<Field>, ghost content: seq<Cell>)
    returns (current: ExpandedField, state: State, out: seq<ExpandedField>)
    requires Building(current0, state0, marked, content) && Pushed(out0, current0, vs)
    ensures state == AfterDelimiter(state0, isNws)
    ensures Building(current, state, false, []) && (current == current0 || fresh(current))
    ensures Pushed(out, current, vs + Emitted(state0, marked, content, isNws))
  {
    current, state, out := current0, state0, out0;
    match state {
      case Start | AfterNws =>
        if isNws {
          var o := NewQuotedEmpty();
          out := out + [o];
          state := AfterNws;
        } else {
          assert vs + [] == vs;
        }
      case InField =>
        current, out := Emit(current, out, vs);
        state := if isNws then AfterNws else AfterWs;
      case AfterWs =>
        if isNws {
          state := AfterNws;
        }
        assert vs + [] == vs;
    }
  }

  // ----- the loop -----

  ghost predicate NoMarkDue(f: Field, i: nat, q: nat) {
    i <= |f.cells| && q <= |f.emptyQuotes| && (q < |f.emptyQuotes| ==> i < f.emptyQuotes[q])
  }

  function RemainingAt(d: Delims, f: Field, s: State, m: bool, c: seq<Cell>, i: nat, q: nat): seq<Field>
    requires ValidDelims(d)
  {
    if i <= |f.cells| && q <= |f.emptyQuotes| then Remaining(f.cells, s, m, c, Tokenize(d, f, i, q)) else []
  }

  lemma TokenAtDelimiter(d: Delims, f: Field, i: nat, q: nat)
    requires ValidDelims(d) && NoMarkDue(f, i, q) && i < |f.cells| && IsDelimAt(d, f.cells, i)
    ensures var (c, n) := ClassAt(d, f.cells, i);
            Tokenize(d, f, i, q) == Tok(if c == WsDelim then Ws(i, i + n) else Nws(i, i + n), Tokenize(d, f, i + n, q))
  {
  }

  lemma DelimiterAt(d: Delims, f: Field, state: State, marked: bool, content: seq<Cell>, i: nat, q: nat, nws: bool)
    requires ValidDelims(d) && NoMarkDue(f, i, q) && i < |f.cells|
    requires ClassAt(d, f.cells, i).0 == if nws then NwsDelim else WsDelim
    ensures RemainingAt(d, f, state, marked, content, i, q) ==
            Emitted(state, marked, content, nws) +
            RemainingAt(d, f, AfterDelimiter(state, nws), false, [], i + ClassAt(d, f.cells, i).1, q)
  {
    TokenAtDelimiter(d, f, i, q);
    DelimiterStep(f.cells, state, marked, content, Tokenize(d, f, i, q));
  }

  type Left = (State, bool, seq<Cell>, nat, nat) -> seq<Field>

  /** What the loop reads and all it produces: `left` is what remains at each
      point, `cuts` where it may slice. The loop itself only moves them along;
      each step's proof looks inside. */
  datatype Reading = Reading(d: Delims, f: Field, left: Left, cuts: nat -> bool, total: seq<Field>)

  ghost predicate IsReading(r: Reading) {
    && ValidDelims(r.d)
    && (forall s, m, c, i: nat, q: nat {:trigger RemainingAt(r.d, r.f, s, m, c, i, q)} ::
          r.left(s, m, c, i, q) == RemainingAt(r.d, r.f, s, m, c, i, q))
    && forall i: nat {:trigger Sliceable(r.d, r.f.cells, i)} :: r.cuts(i) == Sliceable(r.d, r.f.cells, i)
  }

  lemma CutBehindDelimiter(r: Reading, i: nat)
    requires IsReading(r) && i < |r.f.cells| && IsDelimAt(r.d, r.f.cells, i)
    ensures r.cuts(i + ClassAt(r.d, r.f.cells, i).1)
  {
    DelimiterEndSliceable(r.d, r.f.cells, i);
  }

  /** The fields pushed for one input field. */
  method SplitField(field: ExpandedField, d: Delims) returns (out: seq<ExpandedField>)
    requires field.Valid() && ValidDelims(d)
    ensures Shows(out, SplitOne(d, field.View()))
  {
    if field.value == [] && field.wasQuoted {
      var o := NewQuotedEmpty();
      out := [o];
    } else {
      ghost var f := field.View();
      ghost var left: Left := (s, m, c, i: nat, q: nat) => RemainingAt(d, f, s, m, c, i, q);
      assert RemainingAt(d, f, Start, false, [], 0, 0) == ReadFields(f.cells, Tokenize(d, f, 0, 0));
      ghost var cuts := (i: nat) => Sliceable(d, f.cells, i);
      assert Sliceable(d, f.cells, 0);
      out := RunMachine(field, d, Reading(d, f, left, cuts, left(Start, false, [], 0, 0)));
    }
  }

  /** The variables of the loop, and what they mean. */
  ghost predicate Running(current: ExpandedField, state: State, marked: bool, content: seq<Cell>,
                          out: seq<ExpandedField>, vs: seq<Field>, left: seq<Field>, total: seq<Field>)
    reads current, out
  {
    Building(current, state, marked, content) && Pushed(out, current, vs) && vs + left == total
  }

  /** Every slice the machine takes lies between characters. */
  method RunMachine(field: ExpandedField, d: Delims, ghost r: Reading) returns (out: seq<ExpandedField>)
    requires field.Valid() && d == r.d && r.f == field.View() && IsReading(r)
    requires r.total == r.left(Start, false, [], 0, 0) && r.cuts(0)
    ensures Shows(out, r.total)
  {
    var len := |field.value|;
    out := [];
    var current := new ExpandedField();
    var state, q: nat, i: nat := Start, 0, 0;
    ghost var marked, vs, content := false, [], [];
    while i < len
      invariant i <= len && q <= |r.f.emptyQuotes| && fresh(current) && r.cuts(i)
      invariant Running(current, state, marked, content, out, vs, r.left(state, marked, content, i, q), r.total)
    {
      state, q, marked := PassEmptyQuotes(current, state, marked, field, q, i, content, out, vs, r);
      current, state, i, out, marked, vs, content :=
        Step(current, state, i, out, marked, vs, content, field, q, d, r);
    }
    state, q, marked := PassEmptyQuotes(current, state, marked, field, q, len, content, out, vs, r);
    FinalFlush(d, r.f, state, marked, content, q);
    assert RemainingAt(d, r.f, state, marked, content, len, q) ==
           if state == InField then [KeptField(marked, content)] else [];
    out := Flush(current, state, marked, out, vs, content);
  }

  /** One round of the loop after the quoted empty strings. */
  method Step(current0: ExpandedField, state0: State, i0: nat, out0: seq<ExpandedField>,
              ghost marked0: bool, ghost vs0: seq<Field>, ghost content0: seq<Cell>,
              field: ExpandedField, ghost q: nat, d: Delims, ghost r: Reading)
    returns (current: ExpandedField, state: State, i: nat, out: seq<ExpandedField>,
             ghost marked: bool, ghost vs: seq<Field>, ghost content: seq<Cell>)
    requires field.Valid() && d == r.d && r.f == field.View() && IsReading(r) && current0 != field
    requires i0 < |r.f.cells| && NoMarkDue(r.f, i0, q) && r.cuts(i0)
    requires Running(current0, state0, marked0, content0, out0, vs0,
                     r.left(state0, marked0, content0, i0, q), r.total)
    modifies current0
    ensures i0 < i <= |r.f.cells| && (current == current0 || fresh(current)) && r.cuts(i)
    ensures Running(current, state, marked, content, out, vs, r.left(state, marked, content, i, q), r.total)
  {
    var c := ClassOf(d, field, i0);
    if c.0 == NotDelim {
      current, out, vs := current0, out0, vs0;
      state, i, marked, content := PassBytes(current0, state0, i0, field, d, marked0, content0, out0, vs0, q, r);
      return;
    }
    CutBehindDelimiter(r, i0);
    i, marked, content := i0 + c.1, false, [];
    current, state, out, vs :=
      PassDelimiter(current0, state0, c.0 == NwsDelim, out0, marked0, content0, vs0, i0, q, r);
  }

  method PassBytes(current: ExpandedField, state0: State, i: nat, field: ExpandedField, d: Delims,
                   ghost marked0: bool, ghost content0: seq<Cell>, ghost out: seq<ExpandedField>, ghost vs: seq<Field>,
                   ghost q: nat, ghost r: Reading)
    returns (state: State, j: nat, ghost marked: bool, ghost content: seq<Cell>)
    requires field.Valid() && d == r.d && r.f == field.View() && IsReading(r) && current != field
    requires NoMarkDue(r.f, i, q) && i < |r.f.cells| && !IsDelimAt(d, r.f.cells, i) && r.cuts(i)
    requires Running(current, state0, marked0, content0, out, vs, r.left(state0, marked0, content0, i, q), r.total)
    modifies current
    ensures i < j <= |r.f.cells| && r.cuts(j)
    ensures Running(current, state, marked, content, out, vs, r.left(state, marked, content, j, q), r.total)
  {
    var cells := r.f.cells;
    assert r.cuts(i) == Sliceable(d, cells, i);
    j := TakeRun(current, state0, marked0, field, i, d, cells, content0);
    RunOfBytesStep(d, r.f, state0, marked0, content0, i, j, q);
    assert RemainingAt(d, r.f, state0, marked0, content0, i, q) ==
           RemainingAt(d, r.f, InField, state0 == InField && marked0, content0 + cells[i..j], j, q);
    state, marked, content := InField, state0 == InField && marked0, content0 + cells[i..j];
  }

  method PassDelimiter(current0: ExpandedField, state0: State, isNws: bool, out0: seq<ExpandedField>,
                       ghost marked: bool, ghost content: seq<Cell>, ghost vs0: seq<Field>,
                       ghost i: nat, ghost q: nat, ghost r: Reading)
    returns (current: ExpandedField, state: State, out: seq<ExpandedField>, ghost vs: seq<Field>)
    requires IsReading(r) && NoMarkDue(r.f, i, q) && i < |r.f.cells|
    requires ClassAt(r.d, r.f.cells, i).0 == if isNws then NwsDelim else WsDelim
    requires Running(current0, state0, marked, content, out0, vs0, r.left(state0, marked, content, i, q), r.total)
    ensures current == current0 || fresh(current)
    ensures Running(current, state, false, [], out, vs,
                    r.left(state, false, [], i + ClassAt(r.d, r.f.cells, i).1, q), r.total)
  {
    DelimiterAt(r.d, r.f, state0, marked, content, i, q, isNws);
    vs := vs0 + Emitted(state0, marked, content, isNws);
    Assoc(vs0, Emitted(state0, marked, content, isNws),
      r.left(AfterDelimiter(state0, isNws), false, [], i + ClassAt(r.d, r.f.cells, i).1, q));
    current, state, out := TakeDelimiter(current0, state0, marked, out0, isNws, vs0, content);
  }

  method PassEmptyQuotes(current: ExpandedField, state0: State, ghost marked0: bool, field: ExpandedField, q0: nat,
                         i: nat, ghost content: seq<Cell>, ghost out: seq<ExpandedField>, ghost vs: seq<Field>,
                         ghost r: Reading)
    returns (state: State, q: nat, ghost marked: bool)
    requires r.f == field.View() && IsReading(r) && current != field
    requires i <= |r.f.cells| && q0 <= |r.f.emptyQuotes|
    requires Running(current, state0, marked0, content, out, vs, r.left(state0, marked0, content, i, q0), r.total)
    modifies current`wasQuoted
    ensures NoMarkDue(r.f, i, q)
    ensures Running(current, state, marked, content, out, vs, r.left(state, marked, content, i, q), r.total)
  {
    state, q := OpenAtEmptyQuotes(current, state0, marked0, field.emptyQuotes, q0, i, content);
    PassMarks(r.d, r.f, state0, marked0, content, i, q0, q);
    assert RemainingAt(r.d, r.f, state0, marked0, content, i, q0) ==
           RemainingAt(r.d, r.f, state, OpenedByMark(state0, marked0, q - q0), content, i, q);
    marked := OpenedByMark(state0, marked0, q - q0);
  }

  /** What is left in the field under construction at the end of the input. */
  method Flush(current: ExpandedField, ghost state: State, ghost marked: bool, out0: seq<ExpandedField>,
               ghost vs: seq<Field>, ghost content: seq<Cell>)
    returns (out: seq<ExpandedField>)
    requires Building(current, state, marked, content) && Pushed(out0, current, vs)
    ensures Shows(out, vs + if state == InField then [KeptField(marked, content)] else [])
  {
    if current.value != [] || current.wasQuoted {
      out := out0 + [current];
    } else {
      out := out0;
    }
  }

  // ----- from IFS to delimiters -----

  const DEFAULT_IFS: Str := [0x20, 0x09, 0x0A]

  function FilterBytes(t: Text, keep: byte -> bool): (r: Text)
    ensures forall b: byte :: b in r <==> b in t && keep(b)
  {
    if t == [] then [] else
      assert t == [t[0]] + t[1..];
      (if keep(t[0]) then [t[0]] else []) + FilterBytes(t[1..], keep)
  }

  ghost function Precedence(ws: Text, nws: Text, multi: seq<Text>, b: byte): Class {
    if exists k :: 0 <= k < |multi| && multi[k] != [] && multi[k][0] == b then MbLead
    else if b in ws then WsDelim else if b in nws then NwsDelim else NotDelim
  }

  /** `Delims::new`: later writes win, so a lead byte beats white space beats
      the other ASCII delimiters. */
  method NewDelims(ws: Text, nws: Text, multi: seq<Text>) returns (d: Delims)
    requires NoneEmpty(multi)
    ensures d.multi == multi && |d.table| == 256
    ensures forall b: byte :: d.table[b] == Precedence(ws, nws, multi, b)
  {
    var t := new Class[256](_ => NotDelim);
    for k := 0 to |nws|
      invariant forall b: byte :: t[b] == if b in nws[..k] then NwsDelim else NotDelim
    {
      t[nws[k]] := NwsDelim;
    }
    for k := 0 to |ws|
      invariant forall b: byte :: t[b] == if b in ws[..k] then WsDelim else if b in nws then NwsDelim else NotDelim
    {
      t[ws[k]] := WsDelim;
    }
    for k := 0 to |multi|
      invariant forall b: byte :: t[b] == Precedence(ws, nws, multi[..k], b)
    {
      assert multi[..k + 1] == multi[..k] + [multi[k]];
      t[multi[k][0]] := MbLead;
    }
    assert multi[..|multi|] == multi;
    d := Delims(t[..], multi);
  }

  method CollectSpellings(units: seq<Text>) returns (multi: seq<Text>)
    ensures multi == Spellings(units)
  {
    multi := [];
    for k := 0 to |units|
      invariant multi == Spellings(units[..k])
    {
      assert units[..k + 1][..k] == units[..k];
      multi := multi + SpellingsOf(units[k]);
    }
    assert units[..|units|] == units;
  }

  /** The delimiters of an IFS value, as `split` builds them. */
  method BuildDelims(ifs: Str) returns (d: Delims)
    ensures d == IfsDelims(ifs) && ValidDelims(d)
  {
    var bytes := AsBytes(ifs);
    var ws := FilterBytes(bytes, IsWsByte);
    var nws := FilterBytes(bytes, (b: byte) => !IsWsByte(b) && b < 0x80);
    var units: seq<Text> := [];
    if !IsAscii(bytes) {
      units := RawCharUnits(ifs);
    }
    var multi := CollectSpellings(units);
    SortedSpellings(units);
    d := NewDelims(ws, nws, SortLongest(multi));
    SameEntries(d.table, bytes, d.multi, ws, nws);
  }

  lemma SortedSpellings(units: seq<Text>)
    ensures NoneEmpty(SortLongest(Spellings(units)))
  {
    SpellingsHigh(units);
    SortKeeps(Spellings(units));
    var multi := SortLongest(Spellings(units));
    forall k | 0 <= k < |multi| ensures multi[k] != [] { assert multi[k] in Spellings(units); }
  }

  lemma SameEntries(table: seq<Class>, bytes: Text, multi: seq<Text>, ws: Text, nws: Text)
    requires |table| == 256
    requires forall b: byte :: table[b] == Precedence(ws, nws, multi, b)
    requires forall b: byte :: b in ws <==> b in bytes && IsWsByte(b)
    requires forall b: byte :: b in nws <==> b in bytes && !IsWsByte(b) && b < 0x80
    ensures table == TableOf(bytes, multi)
  {
    forall b: byte ensures table[b] == TableOf(bytes, multi)[b] {
      assert TableOf(bytes, multi)[b] == TableEntry(bytes, multi, b);
    }
  }

  // ----- the stage -----

  method NeedsSplit(fields: seq<ExpandedField>, ghost vs: seq<Field>, d: Delims) returns (r: bool)
    requires ValidDelims(d) && Shows(fields, vs)
    ensures r == exists f :: f in vs && NeedsSplitting(d, f)
  {
    for k := 0 to |fields|
      invariant forall j :: 0 <= j < k ==> !NeedsSplitting(d, vs[j])
    {
      assert fields[k].View() == vs[k];
      for i := 0 to |fields[k].value|
        invariant forall j :: 0 <= j < i ==> !IsDelimAt(d, vs[k].cells, j)
      {
        if ClassOf(d, fields[k], i).0 != NotDelim {
          assert IsDelimAt(d, vs[k].cells, i);
          assert vs[k] in vs && NeedsSplitting(d, vs[k]);
          return true;
        }
      }
    }
    return false;
  }

  method SplitAll(fields: seq<ExpandedField>, ghost vs: seq<Field>, d: Delims) returns (out: seq<ExpandedField>)
    requires ValidDelims(d) && Shows(fields, vs) && forall k :: 0 <= k < |fields| ==> fields[k].Valid()
    ensures Shows(out, SplitEach(d, vs))
  {
    out := [];
    for k := 0 to |fields|
      invariant Shows(out, SplitEach(d, vs[..k]))
    {
      var more := SplitField(fields[k], d);
      SplitEachSnoc(d, vs[..k], vs[k]);
      assert vs[..k + 1] == vs[..k] + [vs[k]];
      ShowsBoth(out, SplitEach(d, vs[..k]), more, SplitOne(d, vs[k]));
      out := out + more;
    }
    assert vs[..|vs|] == vs;
  }

  lemma {:induction false} SplitEachSnoc(d: Delims, fs: seq<Field>, f: Field)
    requires ValidDelims(d)
    ensures SplitEach(d, fs + [f]) == SplitEach(d, fs) + SplitOne(d, f)
  {
    if fs == [] {
      assert [f][1..] == [] && SplitEach(d, [f]) == SplitOne(d, f) + [];
    } else {
      SplitEachSnoc(d, fs[1..], f);
      ConcatHead(fs, [f]);
      Assoc(SplitOne(d, fs[0]), SplitEach(d, fs[1..]), SplitOne(d, f));
    }
  }

  method DropEmpty(fields: seq<ExpandedField>, ghost vs: seq<Field>) returns (out: seq<ExpandedField>)
    requires Shows(fields, vs)
    ensures Shows(out, KeepFields(vs))
  {
    out := [];
    for k := 0 to |fields|
      invariant Shows(out, KeepFields(vs[..k]))
    {
      KeepSnoc(vs[..k], vs[k]);
      assert vs[..k + 1] == vs[..k] + [vs[k]] && fields[k].View() == vs[k];
      if fields[k].value != [] || fields[k].wasQuoted {
        out := out + [fields[k]];
      }
    }
    assert vs[..|vs|] == vs;
  }

  lemma {:induction false} KeepSnoc(fs: seq<Field>, f: Field)
    ensures KeepFields(fs + [f]) == KeepFields(fs) + if Kept(f) then [f] else []
  {
    if fs == [] {
      assert [f][1..] == [];
    } else {
      KeepSnoc(fs[1..], f);
      assert (fs + [f])[1..] == fs[1..] + [f];
    }
  }

  /** `split`: the field list, the IFS variable's value if it is set. */
  method Split(ifsVar: Option<Str>, fields: seq<ExpandedField>, ghost vs: seq<Field>) returns (out: seq<ExpandedField>)
    requires Shows(fields, vs) && forall k :: 0 <= k < |fields| ==> fields[k].Valid()
    ensures var ifs := IfsValue(ifsVar);
            ValidDelims(IfsDelims(ifs)) && Shows(out, SplitSpec.Split(ifs == [], IfsDelims(ifs), vs))
  {
    var ifs := IfsValue(ifsVar);
    IfsDelimsValid(ifs);
    if ifs == [] {
      out := DropEmpty(fields, vs);
      return;
    }
    var d;
    if ifs == DEFAULT_IFS {
      d := NewDelims([0x20, 0x09, 0x0A], [], []);
      DefaultDelims(d);
    } else {
      d := BuildDelims(ifs);
    }
    var needed := NeedsSplit(fields, vs, d);
    if !needed { return fields; }
    out := SplitAll(fields, vs, d);
  }

  /** `get_ifs`. */
  function IfsValue(ifsVar: Option<Str>): Str {
    match ifsVar case Some(s) => s case None => DEFAULT_IFS
  }

  lemma IfsDelimsValid(ifs: Str)
    ensures ValidDelims(IfsDelims(ifs))
  {
    SortedSpellings(if IsAscii(AsBytes(ifs)) then [] else Units(Decoded(ifs)));
  }

  /** The statically known table of the default IFS is the one IFS gives. */
  lemma DefaultDelims(d: Delims)
    requires d.multi == [] && |d.table| == 256
    requires forall b: byte :: d.table[b] == if b in [0x20, 0x09, 0x0A] then WsDelim else NotDelim
    ensures d == IfsDelims(DEFAULT_IFS)
  {
    var bytes := AsBytes(DEFAULT_IFS);
    assert bytes == [0x20, 0x09, 0x0A] by {
      assert DEFAULT_IFS[1..] == [0x09, 0x0A] && DEFAULT_IFS[1..][1..] == [0x0A] && DEFAULT_IFS[1..][1..][1..] == [];
    }
    forall b: byte ensures d.table[b] == TableOf(bytes, [])[b] {
      assert TableOf(bytes, [])[b] == TableEntry(bytes, [], b);
    }
  }
}
