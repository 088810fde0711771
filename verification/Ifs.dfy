/** From the value of IFS to a delimiter table (src/byteenc.rs, character
    units; src/expand/field_split.rs, `split` and `Delims::new`). */
module Ifs {
  import opened Prelude
  import opened Utf8
  import opened ByteEnc
  import opened Fields
  import opened SplitSpec

  // ----- character units of a byte string -----

  /** `utf8_unit_len`. */
  function UnitLen(t: Text): nat
    requires t != []
  {
    var w := if Width(t[0]) == 0 then 1 else Width(t[0]);
    if w > 1 && |t| >= w && FromUtf8(t[..w]).Valid? then w else 1
  }

  /** The length of the character at the front, or 1 where none starts. */
  lemma UnitLenIsFront(t: Text)
    requires t != []
    ensures UnitLen(t) == if FrontOf(t).Char? then FrontOf(t).len else 1
  {
    var w := Width(t[0]);
    if w > 1 && |t| >= w {
      if FrontOf(t).Char? {
        FrontOfPrefix(t, w);
        assert t[..w][w..] == [];
      } else if FromUtf8(t[..w]).Valid? {
        FrontOfWhole(t, w);
      }
    }
  }

  function Units(t: Text): seq<Text> {
    if t == [] then [] else
      UnitLenIsFront(t);
      [t[..UnitLen(t)]] + Units(t[UnitLen(t)..])
  }

  function Flat(ts: seq<Text>): Text { if ts == [] then [] else ts[0] + Flat(ts[1..]) }

  /** A single byte, or the bytes of one character. */
  predicate IsUnit(u: Text) { |u| == 1 || (u != [] && FrontOf(u).Char? && FrontOf(u).len == |u|) }

  lemma {:induction false} UnitsPartition(t: Text)
    ensures Flat(Units(t)) == t
    ensures forall k :: 0 <= k < |Units(t)| ==> IsUnit(Units(t)[k])
  {
    if t != [] {
      var n := UnitLen(t);
      UnitLenIsFront(t);
      UnitsPartition(t[n..]);
      if FrontOf(t).Char? { FrontOfPrefix(t, n); }
      assert Units(t)[1..] == Units(t[n..]);
      TakeDrop(t, n);
    }
  }

  lemma FirstUnit(t: Text)
    requires t != []
    ensures 1 <= UnitLen(t) <= |t| && Units(t) == [t[..UnitLen(t)]] + Units(t[UnitLen(t)..])
  {
    UnitLenIsFront(t);
  }

  /** Taking the unit at `i` leaves the units from behind it. */
  lemma NextUnit(bytes: Text, i: nat, len: nat, out: seq<Text>, all: seq<Text>)
    requires i < |bytes| && len == UnitLen(bytes[i..]) && out + Units(bytes[i..]) == all
    ensures 1 <= len && i + len <= |bytes| && out + [bytes[i..i + len]] + Units(bytes[i + len..]) == all
  {
    FirstUnit(bytes[i..]);
    DropSlice(bytes, i, 0, len);
    Assoc(out, [bytes[i..i + len]], Units(bytes[i + len..]));
  }

  lemma NoUnit(bytes: Text, out: seq<Text>)
    ensures out + Units(bytes[|bytes|..]) == out
  {
  }

  method RawCharUnits(s: Str) returns (out: seq<Text>)
    ensures out == Units(Decoded(s))
  {
    var bytes := DecodeBytes(s);
    ghost var all := Units(bytes);
    out := [];
    var i := 0;
    assert bytes[0..] == bytes;
    while i < |bytes|
      invariant 0 <= i <= |bytes| && out + Units(bytes[i..]) == all
    {
      var len := UnitLen(bytes[i..]);
      NextUnit(bytes, i, len, out, all);
      out := out + [bytes[i..i + len]];
      i := i + len;
    }
    NoUnit(bytes, out);
  }

  // ----- spellings of a non-ASCII character -----

  predicate NoEscapeInside(u: Text) {
    FromUtf8(u).Valid? && forall i :: 0 <= i < |FromUtf8(u).s| ==> UnescapeChar(FromUtf8(u).s[i]).None?
  }

  /** How the unit can stand in a field: as itself, if it is valid UTF-8 and
      holds no escape, and always as one escape per byte. */
  function SpellingsOf(u: Text): seq<Text> {
    if u == [] || u[0] < 0x80 then []
    else (if NoEscapeInside(u) then [u] else []) + [AsBytes(EscapeAll(u))]
  }

  function Spellings(units: seq<Text>): seq<Text> {
    if units == [] then [] else Spellings(units[..|units| - 1]) + SpellingsOf(units[|units| - 1])
  }

  /** A stable sort, longest first. */
  function SortLongest(ms: seq<Text>): seq<Text> {
    if ms == [] then [] else InsertLongest(SortLongest(ms[..|ms| - 1]), ms[|ms| - 1])
  }

  function InsertLongest(ms: seq<Text>, m: Text): seq<Text> {
    if ms == [] || |ms[|ms| - 1]| >= |m| then ms + [m]
    else InsertLongest(ms[..|ms| - 1], m) + [ms[|ms| - 1]]
  }

  predicate LongestFirst(ms: seq<Text>) { forall i, j :: 0 <= i < j < |ms| ==> |ms[i]| >= |ms[j]| }

  lemma {:induction false} InsertKeeps(ms: seq<Text>, m: Text)
    requires LongestFirst(ms)
    ensures LongestFirst(InsertLongest(ms, m))
    ensures forall x :: x in InsertLongest(ms, m) <==> x in ms || x == m
  {
    if ms != [] && |ms[|ms| - 1]| < |m| {
      var init, last := ms[..|ms| - 1], ms[|ms| - 1];
      InsertKeeps(init, m);
      assert ms == init + [last];
      forall x | x in InsertLongest(init, m) ensures |x| >= |last| {}
    }
  }

  lemma {:induction false} SortKeeps(ms: seq<Text>)
    ensures LongestFirst(SortLongest(ms))
    ensures forall x :: x in SortLongest(ms) <==> x in ms
  {
    if ms != [] {
      SortKeeps(ms[..|ms| - 1]);
      InsertKeeps(SortLongest(ms[..|ms| - 1]), ms[|ms| - 1]);
      assert ms == ms[..|ms| - 1] + [ms[|ms| - 1]];
    }
  }

  // ----- the table -----

  predicate IsWsByte(b: byte) { b == 0x20 || b == 0x09 || b == 0x0A }

  /** The class of byte `b`, from the IFS bytes and the multi-byte spellings. */
  function TableEntry(bytes: Text, multi: seq<Text>, b: byte): Class {
    if exists k :: 0 <= k < |multi| && multi[k] != [] && multi[k][0] == b then MbLead
    else if b in bytes && IsWsByte(b) then WsDelim
    else if b in bytes && b < 0x80 then NwsDelim
    else NotDelim
  }

  function TableOf(bytes: Text, multi: seq<Text>): (t: seq<Class>)
    ensures |t| == 256
  {
    seq(256, b requires 0 <= b < 256 => TableEntry(bytes, multi, b))
  }

  /** The delimiters an IFS with these raw bytes stands for. */
  function DelimsOf(raw: Text): Delims {
    var multi := SortLongest(Spellings(Units(raw)));
    Delims(TableOf(raw, multi), multi)
  }

  predicate IsAscii(t: Text) { forall i :: 0 <= i < |t| ==> t[i] < 0x80 }

  /** The delimiters the code computes from the `String` that IFS holds. */
  function IfsDelims(ifs: Str): Delims {
    var multi := SortLongest(Spellings(if IsAscii(AsBytes(ifs)) then [] else Units(Decoded(ifs))));
    Delims(TableOf(AsBytes(ifs), multi), multi)
  }

  lemma DelimsOfValid(raw: Text)
    ensures ValidDelims(DelimsOf(raw)) && LongestFirst(DelimsOf(raw).multi)
  {
    SpellingsHigh(Units(raw));
    SortKeeps(Spellings(Units(raw)));
    var multi := SortLongest(Spellings(Units(raw)));
    forall k | 0 <= k < |multi| ensures multi[k] != [] { assert multi[k] in Spellings(Units(raw)); }
  }

  // ----- only the bytes matter -----

  lemma {:induction false} SameAscii(s: Str)
    requires HighEscapes(s)
    ensures forall b: byte :: b < 0x80 ==> (b in AsBytes(s) <==> b in Decoded(s))
    ensures IsAscii(AsBytes(s)) <==> IsAscii(Decoded(s))
  {
    if s != [] {
      var a, b, c, d := EncodeChar(s[0]), AsBytes(s[1..]), DecodedChar(s[0]), Decoded(s[1..]);
      assert HighEscapes(s[1..]) by { assert forall i :: 0 <= i < |s| - 1 ==> s[1..][i] == s[i + 1]; }
      SameAscii(s[1..]);
      SameAsciiChar(s[0]);
      assert AsBytes(s) == a + b && Decoded(s) == c + d;
      AsciiSplit(a, b);
      AsciiSplit(c, d);
    }
  }

  lemma SameAsciiChar(c: Scalar)
    requires UnescapeChar(c).Some? ==> UnescapeChar(c).value >= 0x80
    ensures IsAscii(EncodeChar(c)) <==> IsAscii(DecodedChar(c))
    ensures forall b: byte :: b < 0x80 ==> (b in EncodeChar(c) <==> b in DecodedChar(c))
  {
    if c < 0x80 { assert EncodeChar(c) == DecodedChar(c); } else { assert EncodeChar(c)[0] >= 0x80; }
  }

  lemma AsciiSplit(a: Text, b: Text)
    ensures IsAscii(a + b) <==> IsAscii(a) && IsAscii(b)
  {
    assert forall i :: 0 <= i < |a| ==> (a + b)[i] == a[i];
    assert forall i :: 0 <= i < |b| ==> (a + b)[|a| + i] == b[i];
  }

  lemma {:induction false} AsciiUnits(t: Text)
    requires IsAscii(t)
    ensures Spellings(Units(t)) == []
  {
    UnitsPartition(t);
    AsciiSpellings(Units(t));
  }

  lemma {:induction false} AsciiSpellings(units: seq<Text>)
    requires IsAscii(Flat(units)) && forall k :: 0 <= k < |units| ==> units[k] != []
    ensures Spellings(units) == []
  {
    if units != [] {
      var init, u := units[..|units| - 1], units[|units| - 1];
      FlatSnoc(units);
      AsciiSplit(Flat(init), u);
      AsciiSpellings(init);
    }
  }

  lemma {:induction false} FlatSnoc(units: seq<Text>)
    requires units != []
    ensures Flat(units) == Flat(units[..|units| - 1]) + units[|units| - 1]
  {
    if |units| > 1 {
      FlatSnoc(units[1..]);
      assert units[1..][..|units| - 2] == units[..|units| - 1][1..];
    }
  }

  lemma SameTable(bytes: Text, other: Text, multi: seq<Text>)
    requires forall b: byte :: b < 0x80 ==> (b in bytes <==> b in other)
    ensures TableOf(bytes, multi) == TableOf(other, multi)
  {
    var t, t' := TableOf(bytes, multi), TableOf(other, multi);
    forall b: byte ensures t[b] == t'[b] {
      assert TableEntry(bytes, multi, b) == TableEntry(other, multi, b);
    }
  }

  /** The delimiters depend on the bytes that IFS decodes to and on nothing else. */
  lemma DelimitersOfBytes(ifs: Str)
    requires HighEscapes(ifs)
    ensures IfsDelims(ifs) == DelimsOf(Decoded(ifs))
  {
    SameAscii(ifs);
    if IsAscii(Decoded(ifs)) { AsciiUnits(Decoded(ifs)); }
    SameTable(AsBytes(ifs), Decoded(ifs), DelimsOf(Decoded(ifs)).multi);
  }

  lemma SpellingIrrelevant(ifs: Str, other: Str)
    requires HighEscapes(ifs) && HighEscapes(other) && Decoded(ifs) == Decoded(other)
    ensures IfsDelims(ifs) == IfsDelims(other)
  {
    DelimitersOfBytes(ifs);
    DelimitersOfBytes(other);
  }

  // ----- what the table recognizes -----

  lemma {:induction false} SpellingListed(units: seq<Text>, k: nat, m: Text)
    requires k < |units| && m in SpellingsOf(units[k])
    ensures m in Spellings(units)
  {
    if k < |units| - 1 {
      SpellingListed(units[..|units| - 1], k, m);
    }
  }

  /** A non-ASCII IFS character delimits wherever one of its spellings stands
      unprotected, and where several spellings stand the longest is taken. */
  lemma SpellingDelimits(raw: Text, k: nat, m: Text, cells: seq<Cell>, i: nat)
    requires k < |Units(raw)| && m in SpellingsOf(Units(raw)[k])
    requires i < |cells| && !cells[i].split && MatchesAt(cells, i, m)
    ensures ValidDelims(DelimsOf(raw))
    ensures ClassAt(DelimsOf(raw), cells, i).0 == NwsDelim && ClassAt(DelimsOf(raw), cells, i).1 >= |m|
  {
    var d, spellings := DelimsOf(raw), Spellings(Units(raw));
    DelimsOfValid(raw);
    SpellingListed(Units(raw), k, m);
    SortKeeps(spellings);
    var p :| 0 <= p < |d.multi| && d.multi[p] == m;
    assert d.multi[p][0] == cells[i].b;
    assert TableEntry(raw, d.multi, cells[i].b) == MbLead;
    FirstMatchFinds(d.multi, cells, i);
  }

  lemma {:induction false} SpellingsHigh(units: seq<Text>)
    ensures forall p :: 0 <= p < |Spellings(units)| ==> Spellings(units)[p] != [] && Spellings(units)[p][0] >= 0x80
  {
    if units != [] {
      SpellingsHigh(units[..|units| - 1]);
      var u := units[|units| - 1];
      if u != [] { assert EscapeAll(u)[0] == EscapeChar(u[0]); }
    }
  }

  /** ASCII bytes of IFS keep their class: no spelling starts with one. */
  lemma AsciiClass(raw: Text, b: byte)
    requires b < 0x80
    ensures DelimsOf(raw).table[b] ==
            if b in raw && IsWsByte(b) then WsDelim else if b in raw then NwsDelim else NotDelim
  {
    var spellings := Spellings(Units(raw));
    SpellingsHigh(Units(raw));
    SortKeeps(spellings);
    var multi := SortLongest(spellings);
    assert forall p :: 0 <= p < |multi| ==> multi[p] in spellings;
    assert TableOf(raw, multi)[b] == TableEntry(raw, multi, b);
  }
}
