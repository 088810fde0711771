/** The command history: stable numbers, the navigation cursor, and what one
    session saves. */
module HistoryList {
  import opened Prelude
  import opened Utf8
  import opened ByteEnc
  import opened HistoryFile

  /** What entries are: not empty, and decodable without loss. */
  predicate Storable(entries: seq<Str>) {
    forall i :: 0 <= i < |entries| ==> entries[i] != [] && HighEscapes(entries[i])
  }

  function DecodedEach(entries: seq<Str>): (r: seq<Text>)
    ensures |r| == |entries|
  {
    seq(|entries|, i requires 0 <= i < |entries| => Decoded(entries[i]))
  }

  // ----- reading a file -----

  predicate Ascii(t: Text) { forall i :: 0 <= i < |t| ==> t[i] < 0x80 }

  lemma {:induction false} AsciiEncoded(t: Text)
    requires Ascii(t)
    ensures Encoded(t) == t
  {
    if t != [] {
      assert FrontOf(t) == Char(t[0], 1);
      AsciiEncoded(t[1..]);
    }
  }

  /** A line reads as some ASCII text exactly when it is the bytes of it. */
  lemma ReadsAs(raw: Text, ascii: Text)
    requires Ascii(ascii)
    ensures Encoded(raw) == ascii <==> raw == ascii
  {
    AsciiEncoded(ascii);
    if Encoded(raw) == ascii { EncodedInjective(raw, ascii); }
  }

  lemma HeaderIsAscii()
    ensures Ascii(HEADER)
  {
  }

  method IsHeader(raw: Text) returns (r: bool)
    ensures r == (raw == HEADER)
  {
    var header := HEADER;
    HeaderIsAscii();
    ReadsAs(raw, header);
    var line := EncodeBytes(raw);
    r := line == header;
  }

  lemma EntryOfLine(raw: Text, v2: bool)
    requires raw != []
    ensures var e := if v2 then Unescaped(Encoded(raw)) else Encoded(raw);
            Decoded(e) == (if v2 then UnescapedBytes(raw) else raw) && Storable([e])
  {
    RoundTrip(raw);
    EncodedHighEscapes(raw);
    UnescapedStorable(Encoded(raw));
    DecodedUnescaped(Encoded(raw));
  }

  lemma {:induction false} UnescapedEachSnoc(ts: seq<Text>, t: Text)
    ensures UnescapedEach(ts + [t]) == UnescapedEach(ts) + [UnescapedBytes(t)]
  {
    if ts == [] {
      assert [t][1..] == [];
    } else {
      UnescapedEachSnoc(ts[1..], t);
      ConcatHead(ts, [t]);
    }
  }

  lemma {:induction false} NonEmptySnoc(ts: seq<Text>, t: Text)
    ensures NonEmpty(ts + [t]) == NonEmpty(ts) + if t == [] then [] else [t]
  {
    if ts == [] {
      assert [t][1..] == [];
    } else {
      NonEmptySnoc(ts[1..], t);
      ConcatHead(ts, [t]);
      Assoc(if ts[0] == [] then [] else [ts[0]], NonEmpty(ts[1..]), if t == [] then [] else [t]);
    }
  }

  function EntriesOfLines(lines: seq<Text>, v2: bool): seq<Text> {
    if v2 then UnescapedEach(NonEmpty(lines)) else NonEmpty(lines)
  }

  lemma EntriesSnoc(lines: seq<Text>, raw: Text, v2: bool)
    ensures EntriesOfLines(lines + [raw], v2) ==
      EntriesOfLines(lines, v2) + if raw == [] then [] else [if v2 then UnescapedBytes(raw) else raw]
  {
    NonEmptySnoc(lines, raw);
    if raw == [] {
      assert EntriesOfLines(lines, v2) + [] == EntriesOfLines(lines, v2);
      assert NonEmpty(lines) + [] == NonEmpty(lines);
    } else {
      UnescapedEachSnoc(NonEmpty(lines), raw);
    }
  }

  method ReadLine(raw: Text, v2: bool) returns (entry: Str)
    requires raw != []
    ensures Decoded(entry) == (if v2 then UnescapedBytes(raw) else raw) && Storable([entry])
  {
    EntryOfLine(raw, v2);
    entry := EncodeBytes(raw);
    if v2 { entry := UnescapeEntry(entry); }
  }

  method ReadEntries(file: Text) returns (entries: seq<Str>)
    ensures DecodedEach(entries) == EntriesOf(file) && Storable(entries)
  {
    var lines, v2 := Lines(file), false;
    if lines != [] { v2 := IsHeader(lines[0]); }
    if v2 { lines := lines[1..]; }
    entries := ReadLines(lines, v2);
  }

  method ReadLines(lines: seq<Text>, v2: bool) returns (entries: seq<Str>)
    ensures DecodedEach(entries) == EntriesOfLines(lines, v2) && Storable(entries)
  {
    entries := [];
    for k := 0 to |lines|
      invariant DecodedEach(entries) == EntriesOfLines(lines[..k], v2) && Storable(entries)
    {
      EntriesSnoc(lines[..k], lines[k], v2);
      assert lines[..k + 1] == lines[..k] + [lines[k]];
      if lines[k] != [] {
        var entry := ReadLine(lines[k], v2);
        ReadSnoc(entries, entry);
        entries := entries + [entry];
      }
    }
    assert lines[..|lines|] == lines;
  }

  lemma ReadSnoc(entries: seq<Str>, e: Str)
    ensures DecodedEach(entries + [e]) == DecodedEach(entries) + [Decoded(e)]
  {
  }

  // ----- the list -----

  /** Index of history number `number` among `count` entries after `base`. */
  function IndexOfNumber(number: nat, base: nat, count: nat): Option<nat> {
    if base + 1 <= number <= base + count then Some(number - (base + 1)) else None
  }

  class History {
    var entries: seq<Str>
    var base: nat
    var cursor: Option<nat>
    var savedLine: Str
    var added: nat
    /** Every command that ever got a number, in the order of the numbers. */
    ghost var log: seq<Str>

    ghost predicate Valid()
      reads this
    {
      && |log| == base + |entries| && log[base..] == entries
      && (cursor.Some? ==> cursor.value < |entries|)
      && Storable(entries)
    }

    /** The number of the entry the cursor is on. */
    ghost function Recalled(): Option<nat>
      reads this
    {
      if cursor.Some? then Some(base + cursor.value + 1) else None
    }

    /** What a save writes of this session. */
    function Session(): seq<Str>
      reads this
    {
      LastN(entries, added)
    }

    constructor ()
      ensures Valid() && log == [] && Session() == [] && Recalled() == None
    {
      entries, base, cursor, savedLine, added, log := [], 0, None, [], 0, [];
    }

    function FirstNumber(): nat
      reads this
    {
      base + 1
    }

    /** A number denotes the command that got it, for as long as it is kept. */
    method IndexOf(number: nat) returns (index: Option<nat>)
      requires Valid()
      ensures index == IndexOfNumber(number, base, |entries|)
      ensures index.Some? <==> base < number <= |log|
      ensures index.Some? ==> index.value < |entries| && entries[index.value] == log[number - 1]
    {
      index := None;
      if number >= FirstNumber() && number - FirstNumber() < |entries| { index := Some(number - FirstNumber()); }
    }

    method TruncateTo(histsize: nat)
      requires Valid()
      modifies this`entries, this`base, this`cursor
      ensures Valid()
      ensures entries == LastN(old(entries), histsize)
      ensures Session() == LastN(old(Session()), histsize)
      ensures Recalled() == if old(Recalled()).Some? && old(Recalled()).value > base then old(Recalled()) else None
    {
      LastNCommutes(entries, added, histsize);
      if |entries| > histsize {
        var excess := |entries| - histsize;
        entries := entries[excess..];
        base := base + excess;
        if cursor.Some? { cursor := if cursor.value >= excess then Some(cursor.value - excess) else None; }
      }
    }

    /** Adding a command gives it the next number and renumbers nothing. */
    method Add(line: Str, histsize: nat, ignoreSpace: bool, ignoreDups: bool)
      requires Valid() && HighEscapes(line)
      modifies this`entries, this`base, this`cursor, this`added, this`log
      ensures Valid()
      ensures var skipped := line == [] || (ignoreSpace && line[0] == 0x20)
                || (ignoreDups && old(entries) != [] && old(entries)[|old(entries)| - 1] == line);
              if skipped then
                && log == old(log) && entries == old(entries)
                && Session() == old(Session()) && Recalled() == old(Recalled())
              else
                && log == old(log) + [line]
                && entries == LastN(old(entries) + [line], histsize)
                && Session() == LastN(old(Session()) + [line], histsize)
                && Recalled() == if old(Recalled()).Some? && old(Recalled()).value > base then old(Recalled()) else None
    {
      if line == [] { return; }
      if ignoreSpace && line[0] == 0x20 { return; }
      if ignoreDups && entries != [] && entries[|entries| - 1] == line { return; }
      Push(line);
      TruncateTo(histsize);
    }

    method Push(line: Str)
      requires Valid() && line != [] && HighEscapes(line)
      modifies this`entries, this`added, this`log
      ensures Valid() && log == old(log) + [line] && entries == old(entries) + [line]
      ensures Session() == old(Session()) + [line] && Recalled() == old(Recalled())
    {
      SessionSnoc(entries, added, line);
      entries := entries + [line];
      log := log + [line];
      added := added + 1;
    }

    static lemma SessionSnoc(entries: seq<Str>, added: nat, line: Str)
      ensures LastN(entries + [line], added + 1) == LastN(entries, added) + [line]
    {
    }

    method TrimTo(histsize: nat)
      requires Valid()
      modifies this`entries, this`base, this`cursor
      ensures Valid()
      ensures entries == LastN(old(entries), histsize) && Session() == LastN(old(Session()), histsize)
      ensures Recalled() == if old(Recalled()).Some? && old(Recalled()).value > base then old(Recalled()) else None
    {
      TruncateTo(histsize);
    }

    /** The entries of a file get the next numbers. */
    method Load(file: Option<Text>)
      requires Valid()
      modifies this`entries, this`log
      ensures Valid() && old(log) <= log
      ensures DecodedEach(entries) == DecodedEach(old(entries)) + if file.None? then [] else EntriesOf(file.value)
      ensures old(entries) <= entries && log[|old(log)|..] == entries[|old(entries)|..]
    {
      if file.None? { return; }
      var read := ReadEntries(file.value);
      entries := entries + read;
      log := log + read;
    }

    // ----- navigation -----

    method NavigateUp(currentLine: Str) returns (shown: Option<Str>)
      requires Valid()
      modifies this`cursor, this`savedLine
      ensures Valid()
      ensures var was := old(Recalled());
              if entries == [] || was == Some(base + 1) then
                shown == None && Recalled() == was && savedLine == old(savedLine)
              else
                && Recalled() == Some(if was.None? then |log| else was.value - 1)
                && shown == Some(log[Recalled().value - 1])
                && savedLine == if was.None? then currentLine else old(savedLine)
    {
      if entries == [] { return None; }
      var newCursor: nat;
      match cursor {
        case None =>
          savedLine := currentLine;
          newCursor := |entries| - 1;
        case Some(pos) =>
          if pos == 0 { return None; }
          newCursor := pos - 1;
      }
      cursor := Some(newCursor);
      return Some(entries[newCursor]);
    }

    method NavigateDown() returns (shown: Option<Str>)
      requires Valid()
      modifies this`cursor
      ensures Valid()
      ensures match old(Recalled())
              case None => shown == None && cursor == None
              case Some(n) =>
                if n == |log| then cursor == None && shown == Some(savedLine)
                else Recalled() == Some(n + 1) && shown == Some(log[n])
    {
      if cursor.None? { return None; }
      var pos := cursor.value;
      if pos + 1 >= |entries| {
        cursor := None;
        return Some(savedLine);
      }
      cursor := Some(pos + 1);
      return Some(entries[pos + 1]);
    }

    method NavigateTo(idx: nat, currentLine: Str) returns (shown: Option<Str>)
      requires Valid()
      modifies this`cursor, this`savedLine
      ensures Valid()
      ensures if idx >= |entries| then shown == None && Recalled() == old(Recalled()) && savedLine == old(savedLine)
              else
                && Recalled() == Some(base + idx + 1) && shown == Some(log[base + idx])
                && savedLine == if old(Recalled()).None? then currentLine else old(savedLine)
    {
      if idx >= |entries| { return None; }
      if cursor.None? { savedLine := currentLine; }
      cursor := Some(idx);
      return Some(entries[idx]);
    }

    method ResetCursor()
      requires Valid()
      modifies this`cursor, this`savedLine
      ensures Valid() && Recalled() == None && savedLine == []
    {
      cursor, savedLine := None, [];
    }

    // ----- persistence -----

    /** The new contents of the file: what it held and what this session
        added, up to the limit. */
    method Save(file: Text, histfilesize: nat) returns (out: Text)
      requires Valid()
      ensures out == Saved(file, DecodedEach(Session()), histfilesize)
      ensures NoneEmpty(DecodedEach(Session()))
    {
      var all := ReadEntries(file);
      var kept := if added <= |entries| then added else |entries|;
      var session := entries[|entries| - kept..];
      var start := if |all| + kept <= histfilesize then 0 else |all| + kept - histfilesize;
      out := WriteEntries((all + session)[start..]);
      assert session == Session();
      SavedFrom(file, all, session, start, histfilesize);
      DecodedNoneEmpty(session);
    }

    static lemma SavedFrom(file: Text, all: seq<Str>, session: seq<Str>, start: nat, n: nat)
      requires DecodedEach(all) == EntriesOf(file) && Storable(session)
      requires start == if |all| + |session| <= n then 0 else |all| + |session| - n
      ensures FileOf(DecodedEach((all + session)[start..])) == Saved(file, DecodedEach(session), n)
    {
      DecodedEachConcat(all, session);
      DecodedEachFrom(all + session, start);
    }

    static method WriteEntries(entries: seq<Str>) returns (out: Text)
      requires Storable(entries)
      ensures out == FileOf(DecodedEach(entries))
    {
      out := HEADER + [NEWLINE];
      for k := 0 to |entries|
        invariant out + LinesOf(DecodedEach(entries[k..])) == FileOf(DecodedEach(entries))
      {
        var escaped := EscapeEntry(entries[k]);
        var line := DecodeBytes(escaped);
        DecodedEscaped(entries[k]);
        LineAt(entries, k);
        Assoc(out, line + [NEWLINE], LinesOf(DecodedEach(entries[k + 1..])));
        out := out + (line + [NEWLINE]);
      }
    }

    static lemma DecodedEachFrom(all: seq<Str>, k: nat)
      requires k <= |all|
      ensures DecodedEach(all[k..]) == DecodedEach(all)[k..]
    {
    }

    static lemma LineAt(all: seq<Str>, k: nat)
      requires k < |all|
      ensures LinesOf(DecodedEach(all[k..])) ==
        EscapedBytes(Decoded(all[k])) + [NEWLINE] + LinesOf(DecodedEach(all[k + 1..]))
    {
      assert DecodedEach(all[k..])[1..] == DecodedEach(all[k + 1..]);
    }

    static lemma DecodedEachConcat(a: seq<Str>, b: seq<Str>)
      ensures DecodedEach(a + b) == DecodedEach(a) + DecodedEach(b)
    {
    }

    static lemma DecodedNoneEmpty(entries: seq<Str>)
      requires Storable(entries)
      ensures NoneEmpty(DecodedEach(entries))
    {
      forall i | 0 <= i < |entries| ensures DecodedEach(entries)[i] != [] {
        assert Decoded(entries[i]) == DecodedChar(entries[i][0]) + Decoded(entries[i][1..]);
      }
    }
  }

  // ----- fc -----

  /** A `first` or `last` operand of `fc`, after `parse::<i64>`. */
  datatype Spec = Number(n: int) | Prefix(text: Str)

  predicate StartsWith(s: Str, prefix: Str) { prefix <= s }

  /** The last index below `count` whose entry starts with `prefix`. */
  function LastWith(entries: seq<Str>, prefix: Str, count: nat): (r: Option<nat>)
    requires count <= |entries|
    ensures match r
            case Some(i) => i < count && StartsWith(entries[i], prefix)
              && forall k :: i < k < count ==> !StartsWith(entries[k], prefix)
            case None => forall k :: 0 <= k < count ==> !StartsWith(entries[k], prefix)
  {
    if count == 0 then None
    else if StartsWith(entries[count - 1], prefix) then Some(count - 1)
    else LastWith(entries, prefix, count - 1)
  }

  function Min(a: nat, b: nat): nat { if a < b then a else b }

  function Less(a: nat, b: nat): nat { if a < b then 0 else a - b }

  function FcResolveOne(spec: Spec, entries: seq<Str>, first: nat): (r: Option<nat>)
    requires entries != []
    ensures r.Some? ==> r.value < |entries|
  {
    match spec
    case Number(n) =>
      if n > 0 then Some(Min(Less(n, first), |entries| - 1))
      else Some(Less(|entries|, if -n > 1 then -n else 1))
    case Prefix(text) => LastWith(entries, text, |entries|)
  }

  /** A positive operand is a history number: it finds the command that got
      it while that is kept, and the nearest one kept otherwise. */
  lemma NumberAgrees(n: nat, entries: seq<Str>, base: nat)
    requires entries != [] && n > 0
    ensures match IndexOfNumber(n, base, |entries|)
            case Some(i) => FcResolveOne(Number(n), entries, base + 1) == Some(i)
            case None => FcResolveOne(Number(n), entries, base + 1) == Some(if n <= base then 0 else |entries| - 1)
  {
  }

  /** `-n` is the `n`th command from the end, and 0 the last one. */
  lemma OffsetFromEnd(n: int, entries: seq<Str>, base: nat)
    requires entries != [] && n >= 0
    ensures FcResolveOne(Number(-n), entries, base + 1) ==
      IndexOfNumber(if n == 0 then base + |entries| else if n > |entries| then base + 1 else base + |entries| + 1 - n,
        base, |entries|)
  {
  }

  /** `first` and `last`; `None` when a prefix is not found. */
  function FcResolveRange(operands: seq<Spec>, isList: bool, entries: seq<Str>, first: nat): (r: Option<(nat, nat)>)
    requires entries != []
    ensures r.Some? ==> r.value.0 < |entries| && r.value.1 < |entries|
    ensures r.None? <==> exists k :: 0 <= k < |operands| && k < 2 && FcResolveOne(operands[k], entries, first).None?
    ensures r.Some? && operands != [] ==> Some(r.value.0) == FcResolveOne(operands[0], entries, first)
    ensures r.Some? && |operands| > 1 ==> Some(r.value.1) == FcResolveOne(operands[1], entries, first)
    ensures |operands| <= 1 && isList ==> r.Some? ==> r.value.1 == |entries| - 1
    ensures |operands| <= 1 && !isList ==> r.Some? ==> r.value.0 == r.value.1
    ensures operands == [] ==> r.Some? && r.value.1 == |entries| - 1
    ensures operands == [] && isList ==> r.value.1 + 1 - r.value.0 == Min(16, |entries|)
  {
    var last := |entries| - 1;
    if operands == [] then Some((if isList then Less(|entries|, 16) else last, last))
    else
      var from := FcResolveOne(operands[0], entries, first);
      if from.None? then None
      else if |operands| == 1 then Some((from.value, if isList then last else from.value))
      else
        var to := FcResolveOne(operands[1], entries, first);
        if to.None? then None else Some((from.value, to.value))
  }

  /** A text finds the last command that starts with it. */
  lemma PrefixIsLatest(prefix: Str, entries: seq<Str>, first: nat)
    requires entries != []
    ensures match FcResolveOne(Prefix(prefix), entries, first)
            case Some(i) => i < |entries| && prefix <= entries[i]
              && forall k :: i < k < |entries| ==> !(prefix <= entries[k])
            case None => forall k :: 0 <= k < |entries| ==> !(prefix <= entries[k])
  {
    var r := LastWith(entries, prefix, |entries|);
    assert forall k :: 0 <= k < |entries| ==> (StartsWith(entries[k], prefix) <==> prefix <= entries[k]);
  }
}
