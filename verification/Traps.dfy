/** The trap store, the `trap` built-in, and the re-input listing: replaying it
    in a reset store rebuilds the store. */
module Traps {
  import opened Prelude
  import opened Utf8
  import opened Quote

  const DASH: Scalar := 0x2D

  /** `trap` */
  const TRAP: Str := [0x74, 0x72, 0x61, 0x70]
  /** `--` */
  const END: Str := [DASH, DASH]
  /** `-p` */
  const PRINT: Str := [DASH, 0x70]
  /** `EXIT` */
  const EXIT: Str := [0x45, 0x58, 0x49, 0x54]
  /** `UNKNOWN` */
  const UNKNOWN: Str := [0x55, 0x4E, 0x4B, 0x4E, 0x4F, 0x57, 0x4E]

  datatype TrapAction = Default | Ignore | Command(text: Str)

  /** Which traps are set. */
  datatype Stored = Stored(exit: Option<TrapAction>, signals: map<int, TrapAction>)

  const NO_TRAPS := Stored(None, map[])

  /** The signal table, and the signals ignored when the shell started. */
  datatype Signals = Signals(nameOf: int -> Option<Str>, numberOf: Str -> Option<int>, ignoredOnEntry: set<int>)

  // ----- conditions -----

  predicate AllDigits(s: Str) { s != [] && forall i :: 0 <= i < |s| ==> IsDigit(s[i]) }

  function DigitOf(c: int): nat
    requires 0x30 <= c <= 0x39
  {
    c - 0x30
  }

  function Decimal(s: Str): nat
    requires forall i :: 0 <= i < |s| ==> IsDigit(s[i])
  {
    if s == [] then 0 else 
      assert IsDigit(s[|s| - 1]);
      10 * Decimal(s[..|s| - 1]) + DigitOf(s[|s| - 1])
  }

  function ToUpper(c: Scalar): Scalar { if 0x61 <= c <= 0x7A then c - 0x20 else c }

  function Upper(s: Str): Str { seq(|s|, i requires 0 <= i < |s| => ToUpper(s[i])) }

  /** A name a condition operand can have without being taken for another. */
  predicate ProperName(s: Str) { s != [] && AllPlain(s) && !AllDigits(s) && Upper(s) != EXIT }

  ghost predicate NamesRead(g: Signals) {
    forall n {:trigger g.nameOf(n)} :: g.nameOf(n).Some? ==>
      n > 0 && ProperName(g.nameOf(n).value) && g.numberOf(g.nameOf(n).value) == Some(n)
  }

  ghost predicate NumbersNamed(g: Signals) {
    forall s {:trigger g.numberOf(s)} :: g.numberOf(s).Some? ==> g.nameOf(g.numberOf(s).value).Some?
  }

  /** Names and numbers of signals correspond. */
  ghost predicate ValidSignals(g: Signals) {
    NamesRead(g) && NumbersNamed(g) && g.numberOf(UNKNOWN).None? && 0 !in g.ignoredOnEntry
  }

  function ConditionNumber(g: Signals, s: Str): Option<int> {
    if AllDigits(s) then
      var n := Decimal(s);
      if n <= 0x7FFF_FFFF && (n == 0 || g.nameOf(n).Some?) then Some(n) else None
    else if Upper(s) == EXIT then Some(0)
    else g.numberOf(s)
  }

  function NameOf(g: Signals, n: int): Str { if g.nameOf(n).Some? then g.nameOf(n).value else UNKNOWN }

  lemma NameIsCondition(g: Signals, n: int)
    requires ValidSignals(g)
    ensures ConditionNumber(g, NameOf(g, n)) == if g.nameOf(n).Some? then Some(n) else None
    ensures AllPlain(NameOf(g, n)) && NameOf(g, n) != []
  {
    assert NamesRead(g);
    if g.nameOf(n).None? {
      assert !IsDigit(UNKNOWN[0]);
      assert |Upper(UNKNOWN)| == 7;
    }
  }

  lemma ExitIsCondition(g: Signals)
    ensures ConditionNumber(g, EXIT) == Some(0) && AllPlain(EXIT)
  {
    assert !IsDigit(EXIT[0]);
    assert Upper(EXIT) == EXIT;
  }

  // ----- changes -----

  /** `None` for a condition that does not exist. A signal ignored on entry
      stays as it is. */
  function WithTrap(g: Signals, t: Stored, condition: Str, action: TrapAction): Option<Stored> {
    var n := ConditionNumber(g, condition);
    if n.None? then None
    else if n.value == 0 then Some(t.(exit := Some(action)))
    else if n.value in g.ignoredOnEntry then Some(t)
    else Some(t.(signals := t.signals[n.value := action]))
  }

  function WithoutTrap(g: Signals, t: Stored, condition: Str): Option<Stored> {
    var n := ConditionNumber(g, condition);
    if n.None? then None
    else if n.value == 0 then Some(t.(exit := None))
    else if n.value in g.ignoredOnEntry then Some(t)
    else Some(t.(signals := t.signals - {n.value}))
  }

  function Change(g: Signals, t: Stored, condition: Str, action: TrapAction): Option<Stored> {
    if action.Default? then WithoutTrap(g, t, condition) else WithTrap(g, t, condition, action)
  }

  /** The conditions in order; a bad one is reported and skipped. */
  function ChangeEach(g: Signals, t: Stored, conditions: seq<Str>, action: TrapAction, status: int): (Stored, int)
    decreases |conditions|
  {
    if conditions == [] then (t, status) else
      match Change(g, t, conditions[0], action)
      case Some(u) => ChangeEach(g, u, conditions[1..], action, status)
      case None => ChangeEach(g, t, conditions[1..], action, 1)
  }

  /** What the operands of `trap` ask for. */
  datatype Request = Print(only: Option<seq<Str>>) | Usage | Act(action: TrapAction, conditions: seq<Str>)

  predicate IsOption(s: Str) { |s| > 1 && s[0] == DASH }

  function AfterPrints(args: seq<Str>): seq<Str> {
    if args != [] && args[0] == PRINT then AfterPrints(args[1..]) else args
  }

  function Classify(args: seq<Str>): Request {
    var ended := args != [] && args[0] == END;
    var rest := if ended then args[1..] else args;
    if rest == [] then Print(None)
    else if !ended && rest[0] == PRINT then
      var more := AfterPrints(rest[1..]);
      var conditions := if more != [] && more[0] == END then more[1..] else more;
      if |conditions| == |more| && more != [] && IsOption(more[0]) then Usage
      else Print(if conditions == [] then None else Some(conditions))
    else if !ended && IsOption(rest[0]) then Usage
    else if |rest| == 1 || AllDigits(rest[0]) then Act(Default, rest)
    else if rest[0] == [DASH] then Act(Default, rest[1..])
    else if rest[0] == [] then Act(Ignore, rest[1..])
    else Act(Command(rest[0]), rest[1..])
  }

  /** The store after `trap` with these operands. */
  function AfterTrap(g: Signals, t: Stored, args: seq<Str>): Stored {
    match Classify(args)
    case Act(action, conditions) => ChangeEach(g, t, conditions, action, 0).0
    case _ => t
  }

  // ----- what stores are like -----

  /** Actions `trap` stores: never one it would read back as something else. */
  predicate GoodAction(a: TrapAction) {
    a.Ignore? || (a.Command? && a.text != [] && a.text != [DASH] && !AllDigits(a.text))
  }

  predicate GoodSignals(g: Signals, signals: map<int, TrapAction>) {
    forall n :: n in signals ==> n > 0 && g.nameOf(n).Some? && n !in g.ignoredOnEntry && GoodAction(signals[n])
  }

  predicate Good(g: Signals, t: Stored) {
    (t.exit.Some? ==> GoodAction(t.exit.value)) && GoodSignals(g, t.signals)
  }

  lemma ConditionIsNamed(g: Signals, s: Str)
    requires ValidSignals(g) && ConditionNumber(g, s).Some? && ConditionNumber(g, s).value != 0
    ensures ConditionNumber(g, s).value > 0 && g.nameOf(ConditionNumber(g, s).value).Some?
  {
    assert NamesRead(g) && NumbersNamed(g);
  }

  lemma {:induction false} ChangesKeepGood(g: Signals, t: Stored, conditions: seq<Str>, action: TrapAction, status: int)
    requires ValidSignals(g) && Good(g, t) && (action.Default? || GoodAction(action))
    ensures Good(g, ChangeEach(g, t, conditions, action, status).0)
    decreases |conditions|
  {
    if conditions != [] {
      ChangeKeepsGood(g, t, conditions[0], action);
      match Change(g, t, conditions[0], action)
      case Some(u) => ChangesKeepGood(g, u, conditions[1..], action, status);
      case None => ChangesKeepGood(g, t, conditions[1..], action, 1);
    }
  }

  lemma ChangeKeepsGood(g: Signals, t: Stored, condition: Str, action: TrapAction)
    requires ValidSignals(g) && Good(g, t) && (action.Default? || GoodAction(action))
    ensures var u := Change(g, t, condition, action); u.Some? ==> Good(g, u.value)
  {
    var n := ConditionNumber(g, condition);
    if n.Some? && n.value != 0 { ConditionIsNamed(g, condition); }
  }

  lemma ClassifiedIsGood(args: seq<Str>)
    ensures Classify(args).Act? ==> Classify(args).action.Default? || GoodAction(Classify(args).action)
  {
  }

  // ----- the listing -----

  function Least(s: set<int>): (m: int)
    requires s != {}
    ensures m in s && forall x :: x in s ==> m <= x
  {
    LeastExists(s);
    var m :| m in s && forall x :: x in s ==> m <= x;
    m
  }

  lemma MemberOf(s: set<int>) returns (x: int)
    requires s != {}
    ensures x in s
  {
    assert (forall y :: y !in s) ==> s == {};
    x :| x in s;
  }

  lemma {:induction false} LeastExists(s: set<int>)
    requires s != {}
    ensures exists m :: m in s && forall x :: x in s ==> m <= x
    decreases |s|
  {
    var x := MemberOf(s);
    var rest := s - {x};
    if rest == {} {
      assert s == {x};
    } else {
      LeastExists(rest);
      var m :| m in rest && forall y :: y in rest ==> m <= y;
      var least := if m <= x then m else x;
      assert forall y :: y in s ==> y == x || y in rest;
      assert least in s && forall y :: y in s ==> least <= y;
    }
  }

  /** Signal numbers, lowest first. */
  function Ascending(s: set<int>): seq<int>
    decreases |s|
  {
    if s == {} then [] else
      var m := Least(s);
      [m] + Ascending(s - {m})
  }

  /** The action a signal is listed with, if any. */
  function ListedAction(g: Signals, t: Stored, n: int): Option<TrapAction> {
    if n in t.signals then Some(t.signals[n]) else if n in g.ignoredOnEntry then Some(Ignore) else None
  }

  /** An action as the operand that sets it, with the name of its condition. */
  function Item(action: Option<TrapAction>, name: Str): seq<(Str, Str)> {
    match action
    case Some(Command(text)) => [(text, name)]
    case Some(Ignore) => [([], name)]
    case _ => []
  }

  function SignalItems(g: Signals, t: Stored, numbers: seq<int>): seq<(Str, Str)> {
    if numbers == [] then [] else
      Item(ListedAction(g, t, numbers[0]), NameOf(g, numbers[0])) + SignalItems(g, t, numbers[1..])
  }

  function ConditionItems(g: Signals, t: Stored, conditions: seq<Str>): seq<(Str, Str)> {
    if conditions == [] then [] else
      (match ConditionNumber(g, conditions[0])
       case Some(n) => if n == 0 then Item(t.exit, EXIT) else Item(ListedAction(g, t, n), NameOf(g, n))
       case None => []) + ConditionItems(g, t, conditions[1..])
  }

  function Items(g: Signals, t: Stored, conditions: Option<seq<Str>>): seq<(Str, Str)> {
    match conditions
    case Some(c) => ConditionItems(g, t, c)
    case None => Item(t.exit, EXIT) + SignalItems(g, t, Ascending(t.signals.Keys + g.ignoredOnEntry))
  }

  function Line(item: (Str, Str)): Str {
    TRAP + [SPACE] + END + [SPACE] + Quoted(item.0) + [SPACE] + item.1
  }

  function LinesOf(items: seq<(Str, Str)>): (r: seq<Str>)
    ensures |r| == |items|
  {
    seq(|items|, i requires 0 <= i < |items| => Line(items[i]))
  }

  /** The listing as it is written: every line ended. */
  function Written(lines: seq<Str>): Str {
    if lines == [] then [] else lines[0] + [NEWLINE] + Written(lines[1..])
  }

  // ----- reading the listing back -----

  function CommandsOf(items: seq<(Str, Str)>): seq<seq<Str>> {
    if items == [] then [] else [[TRAP, END, items[0].0, items[0].1]] + CommandsOf(items[1..])
  }

  predicate PlainNames(items: seq<(Str, Str)>) {
    forall i :: 0 <= i < |items| ==> items[i].1 != [] && AllPlain(items[i].1)
  }

  lemma FeedWord(r: Reader, s: Str)
    requires r.mode.Open? && r.word.None? && s != [] && AllPlain(s)
    ensures Feed(Some(r), s + [SPACE]) == Some(r.(words := r.words + [s]))
  {
    FeedConcat(Some(r), s, [SPACE]);
    FeedPlain(r, s);
    assert [] + s == s;
    FeedOne(r.(word := Some(s)), SPACE);
  }

  lemma FeedQuotedWord(r: Reader, s: Str)
    requires r.mode.Open? && r.word.None?
    ensures Feed(Some(r), Quoted(s) + [SPACE]) == Some(r.(words := r.words + [s]))
  {
    FeedConcat(Some(r), Quoted(s), [SPACE]);
    QuotedReadsBack(r, s);
    assert [] + s == s;
    FeedOne(r.(word := Some(s)), SPACE);
  }

  lemma FeedLastWord(r: Reader, s: Str)
    requires r.mode.Open? && r.word.None? && s != [] && AllPlain(s)
    ensures Feed(Some(r), s + [NEWLINE]) == Some(Reader(r.commands + [r.words + [s]], [], None, Open))
  {
    FeedConcat(Some(r), s, [NEWLINE]);
    FeedPlain(r, s);
    assert [] + s == s;
    FeedOne(r.(word := Some(s)), NEWLINE);
  }

  lemma FeedLine(r: Reader, item: (Str, Str))
    requires r.mode.Open? && r.word.None? && r.words == [] && item.1 != [] && AllPlain(item.1)
    ensures Feed(Some(r), Line(item) + [NEWLINE]) ==
      Some(Reader(r.commands + [[TRAP, END, item.0, item.1]], [], None, Open))
  {
    var a, b, c, d := TRAP + [SPACE], END + [SPACE], Quoted(item.0) + [SPACE], item.1 + [NEWLINE];
    assert Line(item) + [NEWLINE] == a + b + c + d;
    FeedConcat(Some(r), a + b + c, d);
    FeedConcat(Some(r), a + b, c);
    FeedConcat(Some(r), a, b);
    FeedWord(r, TRAP);
    var r1 := r.(words := [TRAP]);
    assert [] + [TRAP] == [TRAP];
    FeedWord(r1, END);
    var r2 := r.(words := [TRAP, END]);
    assert [TRAP] + [END] == [TRAP, END];
    FeedQuotedWord(r2, item.0);
    var r3 := r.(words := [TRAP, END, item.0]);
    assert [TRAP, END] + [item.0] == [TRAP, END, item.0];
    FeedLastWord(r3, item.1);
    assert [TRAP, END, item.0] + [item.1] == [TRAP, END, item.0, item.1];
  }

  lemma {:induction false} FeedLines(r: Reader, items: seq<(Str, Str)>)
    requires r.mode.Open? && r.word.None? && r.words == [] && PlainNames(items)
    ensures Feed(Some(r), Written(LinesOf(items))) == Some(r.(commands := r.commands + CommandsOf(items)))
    decreases |items|
  {
    if items == [] {
      assert r.commands + [] == r.commands;
    } else {
      assert LinesOf(items)[1..] == LinesOf(items[1..]);
      FeedConcat(Some(r), Line(items[0]) + [NEWLINE], Written(LinesOf(items[1..])));
      FeedLine(r, items[0]);
      var command := [TRAP, END, items[0].0, items[0].1];
      FeedLines(r.(commands := r.commands + [command]), items[1..]);
      Assoc(r.commands, [command], CommandsOf(items[1..]));
    }
  }

  /** The listing is read back as one `trap` command a line. */
  lemma ListingReads(items: seq<(Str, Str)>)
    requires PlainNames(items)
    ensures ReadCommands(Written(LinesOf(items))) == Some(CommandsOf(items))
  {
    FeedLines(Reader([], [], None, Open), items);
    assert [] + CommandsOf(items) == CommandsOf(items);
  }

  // ----- replaying it -----

  function Run(g: Signals, t: Stored, commands: seq<seq<Str>>): Stored
    decreases |commands|
  {
    if commands == [] then t else
      var words := commands[0];
      Run(g, if words != [] && words[0] == TRAP then AfterTrap(g, t, words[1..]) else t, commands[1..])
  }

  lemma {:induction false} RunConcat(g: Signals, t: Stored, a: seq<seq<Str>>, b: seq<seq<Str>>)
    ensures Run(g, t, a + b) == Run(g, Run(g, t, a), b)
    decreases |a|
  {
    if a == [] {
      assert a + b == b;
    } else {
      ConcatHead(a, b);
      RunConcat(g, if a[0] != [] && a[0][0] == TRAP then AfterTrap(g, t, a[0][1..]) else t, a[1..], b);
    }
  }

  lemma {:induction false} CommandsConcat(a: seq<(Str, Str)>, b: seq<(Str, Str)>)
    ensures CommandsOf(a + b) == CommandsOf(a) + CommandsOf(b)
  {
    if a == [] {
      assert a + b == b;
    } else {
      ConcatHead(a, b);
      CommandsConcat(a[1..], b);
      Assoc([[TRAP, END, a[0].0, a[0].1]], CommandsOf(a[1..]), CommandsOf(b));
    }
  }

  /** One listed line sets the trap it shows. */
  lemma RunItem(g: Signals, t: Stored, action: TrapAction, name: Str)
    requires GoodAction(action)
    ensures Run(g, t, CommandsOf(Item(Some(action), name))) ==
      (match WithTrap(g, t, name, action) case Some(u) => u case None => t)
  {
    var text: Str := if action.Ignore? then [] else action.text;
    var words: seq<Str> := [TRAP, END, text, name];
    var one: seq<seq<Str>> := [words];
    assert words[1..] == [END, text, name] && [END, text, name][1..] == [text, name] && [text, name][1..] == [name];
    assert Classify(words[1..]) == Act(action, [name]);
    assert AfterTrap(g, t, words[1..]) == ChangeEach(g, t, [name], action, 0).0;
    assert [name][1..] == [];
    assert CommandsOf([(text, name)]) == one;
    assert one[1..] == [];
    assert one[0] == words && words[0] == TRAP;
    assert Run(g, t, one) == Run(g, AfterTrap(g, t, words[1..]), []);
    assert Change(g, t, name, action) == WithTrap(g, t, name, action);
    assert ChangeEach(g, t, [name], action, 0).0 == match Change(g, t, name, action) case Some(u) => u case None => t;
  }

  function Restricted(m: map<int, TrapAction>, keys: set<int>): map<int, TrapAction> {
    map k | k in m && k in keys :: m[k]
  }

  function SetOf(numbers: seq<int>): set<int> {
    if numbers == [] then {} else {numbers[0]} + SetOf(numbers[1..])
  }

  lemma {:induction false} SetOfAscending(s: set<int>)
    ensures SetOf(Ascending(s)) == s
    decreases |s|
  {
    if s != {} { SetOfAscending(s - {Least(s)}); }
  }

  /** The traps of the numbers listed are the ones set again. */
  lemma {:induction false} RunSignals(g: Signals, t: Stored, u: Stored, numbers: seq<int>)
    requires ValidSignals(g) && Good(g, t)
    ensures Run(g, u, CommandsOf(SignalItems(g, t, numbers)))
      == u.(signals := u.signals + Restricted(t.signals, SetOf(numbers)))
    decreases |numbers|
  {
    if numbers == [] {
      assert u.signals + Restricted(t.signals, {}) == u.signals;
    } else {
      var n, rest := numbers[0], numbers[1..];
      var item := Item(ListedAction(g, t, n), NameOf(g, n));
      CommandsConcat(item, SignalItems(g, t, rest));
      RunConcat(g, u, CommandsOf(item), CommandsOf(SignalItems(g, t, rest)));
      RunSignal(g, t, u, n);
      var v := if n in t.signals then u.(signals := u.signals[n := t.signals[n]]) else u;
      RunSignals(g, t, v, rest);
      RestrictedStep(u.signals, t.signals, n, SetOf(rest));
    }
  }

  lemma RestrictedStep(u: map<int, TrapAction>, m: map<int, TrapAction>, n: int, keys: set<int>)
    ensures (if n in m then u[n := m[n]] else u) + Restricted(m, keys) == u + Restricted(m, {n} + keys)
  {
  }

  lemma RunSignal(g: Signals, t: Stored, u: Stored, n: int)
    requires ValidSignals(g) && Good(g, t)
    ensures Run(g, u, CommandsOf(Item(ListedAction(g, t, n), NameOf(g, n))))
      == if n in t.signals then u.(signals := u.signals[n := t.signals[n]]) else u
  {
    NameIsCondition(g, n);
    assert NamesRead(g);
    if n in t.signals {
      RunItem(g, u, t.signals[n], NameOf(g, n));
    } else if n in g.ignoredOnEntry {
      RunItem(g, u, Ignore, NameOf(g, n));
    }
  }

  lemma {:induction false} SignalNamesPlain(g: Signals, t: Stored, numbers: seq<int>)
    requires ValidSignals(g)
    ensures PlainNames(SignalItems(g, t, numbers))
    decreases |numbers|
  {
    if numbers != [] {
      NameIsCondition(g, numbers[0]);
      SignalNamesPlain(g, t, numbers[1..]);
    }
  }

  lemma RunExit(g: Signals, t: Stored, u: Stored)
    requires Good(g, t)
    ensures Run(g, u, CommandsOf(Item(t.exit, EXIT))) == if t.exit.Some? then u.(exit := t.exit) else u
  {
    ExitIsCondition(g);
    if t.exit.Some? { RunItem(g, u, t.exit.value, EXIT); }
  }

  /** `u` has a trap only where `t` has one. */
  predicate Within(u: Stored, t: Stored) { (u.exit.Some? ==> t.exit.Some?) && u.signals.Keys <= t.signals.Keys }

  /** Reading the listing of a store back and running it in a store that has
      traps for none but its conditions rebuilds the store. */
  lemma ReplayRebuilds(g: Signals, t: Stored, u: Stored)
    requires ValidSignals(g) && Good(g, t) && Within(u, t)
    ensures var commands := ReadCommands(Written(LinesOf(Items(g, t, None))));
            commands.Some? && Run(g, u, commands.value) == t
  {
    var items := Items(g, t, None);
    ItemsPlain(g, t);
    ListingReads(items);
    assert Run(g, u, CommandsOf(items)) == t by {
      RunItems(g, t, u);
      Overlaid(u, t);
    }
  }

  lemma Overlaid(u: Stored, t: Stored)
    requires Within(u, t)
    ensures Stored(if t.exit.Some? then t.exit else u.exit, u.signals + t.signals) == t
  {
    assert u.signals + t.signals == t.signals;
  }

  lemma ItemsPlain(g: Signals, t: Stored)
    requires ValidSignals(g)
    ensures PlainNames(Items(g, t, None))
  {
    ExitIsCondition(g);
    SignalNamesPlain(g, t, Ascending(t.signals.Keys + g.ignoredOnEntry));
  }

  /** In any store, the traps listed are set over those it had. */
  lemma RunItems(g: Signals, t: Stored, u: Stored)
    requires ValidSignals(g) && Good(g, t)
    ensures Run(g, u, CommandsOf(Items(g, t, None))) ==
      Stored(if t.exit.Some? then t.exit else u.exit, u.signals + t.signals)
  {
    var numbers := Ascending(t.signals.Keys + g.ignoredOnEntry);
    var exit, signals := Item(t.exit, EXIT), SignalItems(g, t, numbers);
    CommandsConcat(exit, signals);
    RunConcat(g, u, CommandsOf(exit), CommandsOf(signals));
    RunExit(g, t, u);
    RunSignals(g, t, if t.exit.Some? then u.(exit := t.exit) else u, numbers);
    SetOfAscending(t.signals.Keys + g.ignoredOnEntry);
    assert Restricted(t.signals, SetOf(numbers)) == t.signals;
  }

  // ----- the store -----

  /** What a subshell starts with. */
  function WithoutCommands(t: Stored): Stored {
    Stored(if t.exit.Some? && t.exit.value.Command? then None else t.exit,
      map n | n in t.signals && t.signals[n].Ignore? :: Ignore)
  }

  class TrapStore {
    const g: Signals
    var exitTrap: Option<TrapAction>
    var signalTraps: map<int, TrapAction>
    /** The parent's traps, shown by `trap` in a command substitution. */
    var savedTraps: Option<Stored>

    ghost predicate Valid()
      reads this
    {
      ValidSignals(g) && Good(g, Now()) && (savedTraps.Some? ==> Good(g, savedTraps.value))
    }

    function Now(): Stored
      reads this
    {
      Stored(exitTrap, signalTraps)
    }

    /** The traps a listing shows. */
    function Shown(): Stored
      reads this
    {
      if savedTraps.Some? then savedTraps.value else Now()
    }

    constructor (g: Signals)
      requires ValidSignals(g)
      ensures Valid() && this.g == g && Now() == NO_TRAPS && savedTraps == None
    {
      this.g, exitTrap, signalTraps, savedTraps := g, None, map[], None;
    }

    /** The copy a forked child has. */
    constructor Copy(s: TrapStore)
      requires s.Valid()
      ensures Valid() && g == s.g && Now() == s.Now() && savedTraps == s.savedTraps
    {
      g, exitTrap, signalTraps, savedTraps := s.g, s.exitTrap, s.signalTraps, s.savedTraps;
    }

    /** False for a condition that does not exist. */
    method SetTrap(condition: Str, action: TrapAction) returns (ok: bool)
      modifies this`exitTrap, this`signalTraps
      ensures match WithTrap(g, old(Now()), condition, action)
              case Some(t) => ok && Now() == t
              case None => !ok && Now() == old(Now())
    {
      var num := ConditionNumber(g, condition);
      if num.None? { return false; }
      if num.value == 0 {
        exitTrap := Some(action);
        return true;
      }
      if num.value in g.ignoredOnEntry { return true; }
      signalTraps := signalTraps[num.value := action];
      return true;
    }

    method RemoveTrap(condition: Str) returns (ok: bool)
      modifies this`exitTrap, this`signalTraps
      ensures match WithoutTrap(g, old(Now()), condition)
              case Some(t) => ok && Now() == t
              case None => !ok && Now() == old(Now())
    {
      var num := ConditionNumber(g, condition);
      if num.None? { return false; }
      if num.value == 0 {
        exitTrap := None;
        return true;
      }
      if num.value in g.ignoredOnEntry { return true; }
      signalTraps := signalTraps - {num.value};
      return true;
    }

    /** Commands go, ignored conditions stay ignored. */
    method ResetNonIgnored()
      requires Valid()
      modifies this`exitTrap, this`signalTraps
      ensures Valid() && Now() == WithoutCommands(old(Now()))
    {
      if exitTrap.Some? && exitTrap.value.Command? { exitTrap := None; }
      signalTraps := map n | n in signalTraps && signalTraps[n].Ignore? :: signalTraps[n];
    }

    method ResetForSubshell()
      requires Valid()
      modifies this
      ensures Valid() && savedTraps == None && Now() == WithoutCommands(old(Now()))
    {
      ResetNonIgnored();
      savedTraps := None;
    }

    /** In a command substitution the listing is still the parent's. */
    method ResetForCommandSub()
      requires Valid()
      modifies this
      ensures Valid() && Shown() == old(Now()) && Now() == WithoutCommands(old(Now()))
    {
      savedTraps := Some(Now());
      ResetNonIgnored();
    }

    method Listing(conditions: Option<seq<Str>>) returns (lines: seq<Str>)
      ensures lines == LinesOf(Items(g, Shown(), conditions))
    {
      var t := Shown();
      ghost var all := Items(g, t, conditions);
      ghost var done: seq<(Str, Str)> := [];
      lines := [];
      match conditions {
        case None =>
          done := Item(t.exit, EXIT);
          lines := ItemLines(t.exit, EXIT);
          var keys := Ascending(t.signals.Keys + g.ignoredOnEntry);
          for k := 0 to |keys|
            invariant lines == LinesOf(done) && done + SignalItems(g, t, keys[k..]) == all
          {
            assert keys[k..][1..] == keys[k + 1..];
            Assoc(done, Item(ListedAction(g, t, keys[k]), NameOf(g, keys[k])), SignalItems(g, t, keys[k + 1..]));
            var more := ItemLines(ListedAction(g, t, keys[k]), NameOf(g, keys[k]));
            LinesConcat(done, Item(ListedAction(g, t, keys[k]), NameOf(g, keys[k])));
            lines := lines + more;
            done := done + Item(ListedAction(g, t, keys[k]), NameOf(g, keys[k]));
          }
        case Some(conds) =>
          for k := 0 to |conds|
            invariant lines == LinesOf(done) && done + ConditionItems(g, t, conds[k..]) == all
          {
            assert conds[k..][1..] == conds[k + 1..];
            var n := ConditionNumber(g, conds[k]);
            var action := if n.None? then None else if n.value == 0 then t.exit else ListedAction(g, t, n.value);
            var name := if n.None? || n.value == 0 then EXIT else NameOf(g, n.value);
            Assoc(done, Item(action, name), ConditionItems(g, t, conds[k + 1..]));
            var more := ItemLines(action, name);
            LinesConcat(done, Item(action, name));
            lines := lines + more;
            done := done + Item(action, name);
          }
      }
    }

    /** The line of one condition; none when it is at its default. */
    static method ItemLines(action: Option<TrapAction>, name: Str) returns (lines: seq<Str>)
      ensures lines == LinesOf(Item(action, name))
    {
      match action {
        case Some(Command(text)) =>
          var quoted := SingleQuote(text);
          lines := [TRAP + [SPACE] + END + [SPACE] + quoted + [SPACE] + name];
        case Some(Ignore) =>
          var quotes := [QUOTE, QUOTE];
          assert quotes == Quoted([]);
          lines := [TRAP + [SPACE] + END + [SPACE] + quotes + [SPACE] + name];
        case _ => lines := [];
      }
    }

    static lemma LinesConcat(a: seq<(Str, Str)>, b: seq<(Str, Str)>)
      ensures LinesOf(a + b) == LinesOf(a) + LinesOf(b)
    {
    }
  }

  /** The `trap` built-in on a store: its exit status and what it prints, on an
      output that can be written to or not. */
  method BuiltinTrap(store: TrapStore, args: seq<Str>, writable: bool) returns (status: int, printed: seq<Str>)
    requires store.Valid()
    modifies store
    ensures store.Valid() && store.savedTraps == old(store.savedTraps)
    ensures store.Now() == AfterTrap(store.g, old(store.Now()), args)
    ensures match Classify(args)
            case Print(conditions) =>
              && printed == LinesOf(Items(store.g, old(store.Shown()), conditions))
              && status == if writable || printed == [] then 0 else 1
            case Usage => status == 2 && printed == []
            case Act(action, conditions) =>
              status == ChangeEach(store.g, old(store.Now()), conditions, action, 0).1 && printed == []
  {
    ClassifiedIsGood(args);
    match Classify(args) {
      case Print(conditions) =>
        printed := store.Listing(conditions);
        status := if writable || printed == [] then 0 else 1;
      case Usage => return 2, [];
      case Act(action, conditions) =>
        status, printed := 0, [];
        ghost var all := ChangeEach(store.g, store.Now(), conditions, action, 0);
        ChangesKeepGood(store.g, store.Now(), conditions, action, 0);
        for k := 0 to |conditions|
          invariant store.savedTraps == old(store.savedTraps)
          invariant ChangeEach(store.g, store.Now(), conditions[k..], action, status) == all
        {
          assert conditions[k..][1..] == conditions[k + 1..];
          var ok;
          if action.Default? {
            ok := store.RemoveTrap(conditions[k]);
          } else {
            ok := store.SetTrap(conditions[k], action);
          }
          if !ok { status := 1; }
        }
    }
  }

  // ----- saving and restoring traps -----

  method WrittenLines(lines: seq<Str>) returns (text: Str)
    ensures text == Written(lines)
  {
    text := [];
    for k := 0 to |lines|
      invariant text + Written(lines[k..]) == Written(lines)
    {
      assert lines[k..][1..] == lines[k + 1..];
      Assoc(text, lines[k] + [NEWLINE], Written(lines[k + 1..]));
      text := text + (lines[k] + [NEWLINE]);
    }
  }

  /** `saved=$(trap)`: the text a command substitution gets, run in a reset
      store or in the store a subshell starts with, brings the traps back. */
  method SavedInCommandSub(store: TrapStore) returns (saved: Str)
    requires store.Valid()
    ensures var t, commands := store.Now(), ReadCommands(saved);
            && commands.Some?
            && Run(store.g, NO_TRAPS, commands.value) == t
            && Run(store.g, WithoutCommands(t), commands.value) == t
  {
    var child := new TrapStore.Copy(store);
    child.ResetForCommandSub();
    var status, lines := BuiltinTrap(child, [], true);
    saved := WrittenLines(lines);
    ReplayRebuilds(store.g, store.Now(), NO_TRAPS);
    ReplayRebuilds(store.g, store.Now(), WithoutCommands(store.Now()));
  }
}
