/** The gate before pathname expansion (src/expand/pathname.rs). */
module Pathname {
  import opened Prelude
  import opened Fields
  import opened FieldSplit

  const STAR: byte := 0x2A
  const QUESTION: byte := 0x3F
  const OPEN_BRACKET: byte := 0x5B
  const CLOSE_BRACKET: byte := 0x5D
  const BANG: byte := 0x21
  const BACKSLASH: byte := 0x5C
  const DASH: byte := 0x2D

  /** Where the closer of a bracket expression opened at `open` may stand: past
      an unquoted `!`, and past a `]` that is then the first member. */
  function CloserFrom(cells: seq<Cell>, open: nat): nat {
    var j := if open + 1 < |cells| && cells[open + 1].b == BANG && !cells[open + 1].glob then open + 2 else open + 1;
    if j < |cells| && cells[j].b == CLOSE_BRACKET then j + 1 else j
  }

  predicate BracketCloses(cells: seq<Cell>, open: nat) {
    exists k :: CloserFrom(cells, open) <= k < |cells| && cells[k].b == CLOSE_BRACKET && !cells[k].glob
  }

  predicate GlobAt(cells: seq<Cell>, i: nat)
    requires i < |cells|
  {
    !cells[i].glob &&
    (cells[i].b == STAR || cells[i].b == QUESTION || (cells[i].b == OPEN_BRACKET && BracketCloses(cells, i)))
  }

  predicate HasGlob(cells: seq<Cell>) { exists i :: 0 <= i < |cells| && GlobAt(cells, i) }

  predicate NeedsPatternEscape(b: byte) {
    b in [STAR, QUESTION, OPEN_BRACKET, CLOSE_BRACKET, BACKSLASH, BANG, DASH]
  }

  /** The text with each quoted pattern character behind a backslash. */
  function EscapedPattern(cells: seq<Cell>): Text {
    if cells == [] then [] else
      EscapedPattern(cells[..|cells| - 1]) +
      (var c := cells[|cells| - 1]; if NeedsPatternEscape(c.b) && c.glob then [BACKSLASH, c.b] else [c.b])
  }

  /** A field replaced by its matches, or kept when nothing matches. */
  function GlobField(matches: Text -> seq<Text>, f: Field): seq<Field> {
    if HasGlob(f.cells) && matches(EscapedPattern(f.cells)) != []
    then AllQuotedFields(matches(EscapedPattern(f.cells)))
    else [f]
  }

  function AllQuotedFields(ts: seq<Text>): seq<Field> {
    if ts == [] then [] else
      AllQuotedFields(ts[..|ts| - 1]) + [EMPTY_FIELD.(cells := CellsOf(ts[|ts| - 1], true, true))]
  }

  function GlobEach(matches: Text -> seq<Text>, fs: seq<Field>): seq<Field> {
    if fs == [] then [] else GlobEach(matches, fs[..|fs| - 1]) + GlobField(matches, fs[|fs| - 1])
  }

  // ----- on packed fields -----

  method BracketHasClose(field: ExpandedField, open: nat) returns (r: bool)
    requires open < |field.value|
    ensures r == BracketCloses(field.View().cells, open)
  {
    ghost var cells := field.View().cells;
    var j := open + 1;
    if j < |field.value| && field.value[j] == BANG && !field.IsGlobProtected(j) { j := j + 1; }
    if j < |field.value| && field.value[j] == CLOSE_BRACKET { j := j + 1; }
    for k := j to |field.value|
      invariant forall m :: j <= m < k ==> !(cells[m].b == CLOSE_BRACKET && !cells[m].glob)
    {
      if field.value[k] == CLOSE_BRACKET && !field.IsGlobProtected(k) { return true; }
    }
    return false;
  }

  method HasUnquotedGlobChars(field: ExpandedField) returns (r: bool)
    ensures r == HasGlob(field.View().cells)
  {
    ghost var cells := field.View().cells;
    for i := 0 to |field.value|
      invariant forall m :: 0 <= m < i ==> !GlobAt(cells, m)
    {
      if !field.IsGlobProtected(i) {
        var b := field.value[i];
        assert cells[i].b == b && !cells[i].glob;
        if b == STAR || b == QUESTION { assert GlobAt(cells, i); return true; }
        if b == OPEN_BRACKET {
          var closes := BracketHasClose(field, i);
          if closes { assert GlobAt(cells, i); return true; }
        }
      }
    }
    return false;
  }

  method EscapedPatternOf(field: ExpandedField) returns (out: Text)
    ensures out == EscapedPattern(field.View().cells)
  {
    ghost var cells := field.View().cells;
    out := [];
    for i := 0 to |field.value|
      invariant out == EscapedPattern(cells[..i])
    {
      assert cells[..i + 1][..i] == cells[..i] && cells[i].b == field.value[i];
      if NeedsPatternEscape(field.value[i]) && field.IsGlobProtected(i) { out := out + [BACKSLASH]; }
      out := out + [field.value[i]];
    }
    assert cells[..|cells|] == cells;
  }

  method ReplaceByMatches(texts: seq<Text>) returns (out: seq<ExpandedField>)
    ensures Shows(out, AllQuotedFields(texts))
  {
    out := [];
    for k := 0 to |texts|
      invariant Shows(out, AllQuotedFields(texts[..k]))
    {
      assert texts[..k + 1][..k] == texts[..k];
      var o := new ExpandedField.AllQuoted(texts[k]);
      out := out + [o];
    }
    assert texts[..|texts|] == texts;
  }

  /** `expand`: the list itself when no field has a glob character. */
  method Expand(matches: Text -> seq<Text>, fields: seq<ExpandedField>, ghost vs: seq<Field>)
    returns (out: seq<ExpandedField>)
    requires Shows(fields, vs)
    ensures Shows(out, GlobEach(matches, vs))
  {
    var any := AnyGlob(fields, vs);
    if !any {
      NoGlobSame(matches, vs);
      return fields;
    }
    out := ExpandAll(matches, fields, vs);
  }

  method ExpandAll(matches: Text -> seq<Text>, fields: seq<ExpandedField>, ghost vs: seq<Field>)
    returns (out: seq<ExpandedField>)
    requires Shows(fields, vs)
    ensures Shows(out, GlobEach(matches, vs))
  {
    out := [];
    ghost var done: seq<Field> := [];
    for k := 0 to |fields|
      invariant Shows(out, done) && done == GlobEach(matches, vs[..k])
    {
      GlobEachStep(matches, vs, k);
      var more := ExpandOne(matches, fields[k]);
      ShowsBoth(out, done, more, GlobField(matches, vs[k]));
      out := out + more;
      done := done + GlobField(matches, vs[k]);
    }
    assert vs[..|vs|] == vs;
  }

  lemma GlobEachStep(matches: Text -> seq<Text>, vs: seq<Field>, k: nat)
    requires k < |vs|
    ensures GlobEach(matches, vs[..k + 1]) == GlobEach(matches, vs[..k]) + GlobField(matches, vs[k])
  {
    assert vs[..k + 1][..k] == vs[..k];
  }

  method ExpandOne(matches: Text -> seq<Text>, field: ExpandedField) returns (out: seq<ExpandedField>)
    ensures Shows(out, GlobField(matches, field.View()))
  {
    var glob := HasUnquotedGlobChars(field);
    if glob {
      var pattern := EscapedPatternOf(field);
      if matches(pattern) != [] {
        out := ReplaceByMatches(matches(pattern));
        return;
      }
    }
    return [field];
  }

  method AnyGlob(fields: seq<ExpandedField>, ghost vs: seq<Field>) returns (any: bool)
    requires Shows(fields, vs)
    ensures any == exists k :: 0 <= k < |vs| && HasGlob(vs[k].cells)
  {
    for k := 0 to |fields|
      invariant forall j :: 0 <= j < k ==> !HasGlob(vs[j].cells)
    {
      assert fields[k].View() == vs[k];
      var g := HasUnquotedGlobChars(fields[k]);
      if g { return true; }
    }
    return false;
  }

  lemma {:induction false} NoGlobSame(matches: Text -> seq<Text>, fs: seq<Field>)
    requires forall k :: 0 <= k < |fs| ==> !HasGlob(fs[k].cells)
    ensures GlobEach(matches, fs) == fs
  {
    if fs != [] { NoGlobSame(matches, fs[..|fs| - 1]); }
  }
}
