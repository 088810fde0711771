/** What the operands of `trap` mean, and what it changes in a store. */
module TrapLaws {
  import opened Prelude
  import opened Utf8
  import opened Quote
  import opened Traps

  // ----- operands -----

  /** An operand that is an action to run. */
  predicate IsCommand(s: Str) { s != [] && s != [DASH] && !AllDigits(s) && !IsOption(s) }

  /** `trap CMD cond…`, `trap '' cond…`, `trap - cond…` */
  lemma ActionFirst(s: Str, conditions: seq<Str>)
    requires conditions != [] && !IsOption(s)
    ensures IsCommand(s) ==> Classify([s] + conditions) == Act(Command(s), conditions)
    ensures s == [] ==> Classify([s] + conditions) == Act(Ignore, conditions)
    ensures s == [DASH] ==> Classify([s] + conditions) == Act(Default, conditions)
  {
    assert ([s] + conditions)[0] == s && ([s] + conditions)[1..] == conditions;
    if s == [DASH] { assert !IsDigit(s[0]); }
  }

  /** Behind `--` an action may look like an option. */
  lemma ActionBehindEnd(s: Str, conditions: seq<Str>)
    requires conditions != [] && s != [] && s != [DASH] && !AllDigits(s)
    ensures Classify([END, s] + conditions) == Act(Command(s), conditions)
  {
    var args := [END, s] + conditions;
    assert args[0] == END && args[1..] == [s] + conditions && args[1..][1..] == conditions;
  }

  /** With a number first, and with one operand alone, all are conditions to reset. */
  lemma ConditionsFirst(s: Str, conditions: seq<Str>)
    requires !IsOption(s) && (AllDigits(s) || conditions == [])
    ensures Classify([s] + conditions) == Act(Default, [s] + conditions)
  {
    assert ([s] + conditions)[0] == s;
    if AllDigits(s) { assert IsDigit(s[0]); }
  }

  /** `trap`, `trap -p` and `trap -p cond…` list. */
  lemma Listings(conditions: seq<Str>)
    ensures Classify([]) == Classify([END]) == Classify([PRINT]) == Print(None)
    ensures conditions != [] && !IsOption(conditions[0]) ==> Classify([PRINT] + conditions) == Print(Some(conditions))
    ensures conditions != [] ==> Classify([PRINT, END] + conditions) == Print(Some(conditions))
  {
    assert [END][1..] == [] && [PRINT][1..] == [] && PRINT != END;
    assert ([PRINT] + conditions)[1..] == conditions;
    var args := [PRINT, END] + conditions;
    assert args[1..] == [END] + conditions && args[1..][1..] == conditions;
  }

  /** Any other option is a usage error, also behind `-p`. */
  lemma UnknownOption(s: Str, rest: seq<Str>)
    requires IsOption(s) && s != END && s != PRINT
    ensures Classify([s] + rest) == Usage && Classify([PRINT, s] + rest) == Usage
  {
    assert ([s] + rest)[0] == s;
    var args := [PRINT, s] + rest;
    assert args[0] == PRINT && args[1..] == [s] + rest;
  }

  // ----- numbers -----

  /** A number as it is written. */
  function Digits(n: nat): (s: Str)
    ensures AllDigits(s)
  {
    if n < 10 then [0x30 + n] else Digits(n / 10) + [0x30 + n % 10]
  }

  lemma {:induction false} DecimalOf(n: nat)
    ensures Decimal(Digits(n)) == n
  {
    var s := Digits(n);
    if n >= 10 {
      DecimalOf(n / 10);
      assert s[..|s| - 1] == Digits(n / 10);
    } else {
      assert s[..0] == [];
    }
  }

  /** A signal is named by its number, by its name, and 0 is `EXIT`. */
  lemma Conditions(g: Signals, n: nat)
    requires ValidSignals(g)
    ensures ConditionNumber(g, Digits(0)) == ConditionNumber(g, EXIT) == Some(0)
    ensures 0 < n <= 0x7FFF_FFFF && g.nameOf(n).Some? ==>
              ConditionNumber(g, Digits(n)) == ConditionNumber(g, g.nameOf(n).value) == Some(n)
    ensures n > 0 && g.nameOf(n).None? ==> ConditionNumber(g, Digits(n)) == None
  {
    DecimalOf(0);
    DecimalOf(n);
    ExitIsCondition(g);
    NameIsCondition(g, n);
  }

  // ----- what changes -----

  /** The numbers that these operands name. */
  function Named(g: Signals, conditions: seq<Str>): set<int> {
    if conditions == [] then {} else
      Named(g, conditions[1..]) + match ConditionNumber(g, conditions[0]) case Some(n) => {n} case None => {}
  }

  predicate AllKnown(g: Signals, conditions: seq<Str>) {
    forall i :: 0 <= i < |conditions| ==> ConditionNumber(g, conditions[i]).Some?
  }

  /** What is set for a number, 0 being the end of the shell. */
  function TrapOf(t: Stored, n: int): Option<TrapAction> {
    if n == 0 then t.exit else if n in t.signals then Some(t.signals[n]) else None
  }

  /** The action is set for every condition named, the default one by taking the
      trap away; signals ignored on entry and all others keep what they had. */
  lemma {:induction false} ChangeEachSets(g: Signals, t: Stored, conditions: seq<Str>, action: TrapAction, status: int,
                                          n: int)
    requires ValidSignals(g)
    ensures TrapOf(ChangeEach(g, t, conditions, action, status).0, n) ==
            if n !in Named(g, conditions) || n in g.ignoredOnEntry then TrapOf(t, n)
            else if action.Default? then None else Some(action)
    decreases |conditions|
  {
    if conditions != [] {
      var u := Change(g, t, conditions[0], action);
      match u
      case Some(next) => ChangeEachSets(g, next, conditions[1..], action, status, n);
      case None => ChangeEachSets(g, t, conditions[1..], action, 1, n);
    }
  }

  /** An unknown condition is reported by the status and does not stop the rest. */
  lemma {:induction false} ChangeEachStatus(g: Signals, t: Stored, conditions: seq<Str>, action: TrapAction,
                                            status: int)
    ensures ChangeEach(g, t, conditions, action, status).1 == if AllKnown(g, conditions) then status else 1
    decreases |conditions|
  {
    if conditions != [] {
      AllKnownCons(g, conditions);
      match Change(g, t, conditions[0], action)
      case Some(next) => ChangeEachStatus(g, next, conditions[1..], action, status);
      case None => ChangeEachStatus(g, t, conditions[1..], action, 1);
    }
  }

  lemma AllKnownCons(g: Signals, conditions: seq<Str>)
    requires conditions != []
    ensures AllKnown(g, conditions) <==>
            ConditionNumber(g, conditions[0]).Some? && AllKnown(g, conditions[1..])
  {
    assert forall i :: 1 <= i < |conditions| ==> conditions[i] == conditions[1..][i - 1];
  }

  /** A subshell keeps what is ignored and nothing else. */
  lemma SubshellKeeps(t: Stored, n: int)
    requires n == 0 ==> t.exit != Some(Default)
    requires n in t.signals ==> t.signals[n] != Default
    ensures TrapOf(WithoutCommands(t), n) == if TrapOf(t, n) == Some(Ignore) then Some(Ignore) else None
  {
  }

  /** `trap -p cond`: the line that sets the trap there is, if there is one. */
  lemma OneListed(g: Signals, t: Stored, condition: Str, n: int)
    requires ConditionNumber(g, condition) == Some(n) && (n in g.ignoredOnEntry ==> TrapOf(t, n) == None && n != 0)
    ensures var name := if n == 0 then EXIT else NameOf(g, n);
            Items(g, t, Some([condition])) ==
            match TrapOf(t, n)
            case Some(Command(text)) => [(text, name)]
            case Some(Ignore) => [([], name)]
            case _ => if n in g.ignoredOnEntry then [([], name)] else []
  {
    var item := if n == 0 then Item(t.exit, EXIT) else Item(ListedAction(g, t, n), NameOf(g, n));
    assert [condition][1..] == [] && item + [] == item;
    assert ConditionItems(g, t, [condition]) == item + ConditionItems(g, t, []);
  }

  /** A full listing begins with the trap of the shell's end. */
  lemma ExitFirst(g: Signals, t: Stored, text: Str)
    requires t.exit == Some(Command(text))
    ensures Items(g, t, None) != [] && Items(g, t, None)[0] == (text, EXIT)
  {
  }

  /** The signals follow by number, each once. */
  lemma {:induction false} AscendingSorted(s: set<int>)
    ensures forall i, j :: 0 <= i < j < |Ascending(s)| ==> Ascending(s)[i] < Ascending(s)[j]
    ensures forall n :: n in Ascending(s) <==> n in s
    decreases |s|
  {
    if s != {} {
      var m := Least(s);
      var rest := Ascending(s - {m});
      AscendingSorted(s - {m});
      assert Ascending(s) == [m] + rest;
      forall k | 0 <= k < |rest| ensures m < rest[k] { assert rest[k] in rest; }
    }
  }
}
