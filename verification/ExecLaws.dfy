/** What programs do, by the events they leave: which commands run, how often,
    and with which status the whole ends. */
module ExecLaws {
  import opened Prelude
  import opened ExecSpec

  // ----- small programs -----

  function One(c: Command): Complete { Cons(Item(AndOr(Pipe(false, c), Nil), false, 0), Nil) }

  function Cmd(id: nat): Complete { One(Simple(id)) }

  function Group(prep: nat, kind: Kind): Complete { One(Grouped(Compound(prep, kind))) }

  function Body1(c: Complete): Body { Cons(c, Nil) }

  function Body2(c: Complete, d: Complete): Body { Cons(c, Body1(d)) }

  function Event1(what: What, id: nat): Trace { [Step(what, id)] }

  /** `events`, `n` times. */
  function Times(events: Trace, n: nat): Trace { if n == 0 then [] else Times(events, n - 1) + events }

  lemma {:induction false} TimesFront(events: Trace, n: nat)
    ensures Times(events, n + 1) == events + Times(events, n)
  {
    if n > 0 {
      TimesFront(events, n - 1);
      Assoc(events, Times(events, n - 1), events);
    } else {
      assert [] + events == events + [];
    }
  }

  // ----- shells -----

  /** Neither `set -n` nor `set -e`. */
  ghost predicate Calm(o: Oracle) {
    forall t: Trace {:trigger o.errexit(t)} {:trigger o.noexec(t)} :: !o.noexec(t) && !o.errexit(t)
  }

  /** The command is a utility with this status, whatever happened before. */
  ghost predicate Tells(o: Oracle, id: nat, status: Trace -> int) {
    forall t, last {:trigger o.simple(id, t, last)} :: o.simple(id, t, last).dispatch == Other(status(t), false, None)
  }

  /** The command is a built-in of control flow. */
  ghost predicate Says(o: Oracle, id: nat, d: Dispatch) {
    forall t, last {:trigger o.simple(id, t, last)} :: o.simple(id, t, last).dispatch == d
  }

  /** Redirections and assignments of a compound command succeed. */
  ghost predicate Prepares(o: Oracle, prep: nat) {
    forall t, last {:trigger o.prepare(prep, t, last)} :: o.prepare(prep, t, last).None?
  }

  /** The variable of a `for` can be assigned. */
  ghost predicate Assigns(o: Oracle, words: nat) { forall t {:trigger o.assign(words, t)} :: o.assign(words, t).None? }

  /** The words of a `for` are `n`, and its variable can be assigned. */
  ghost predicate Lists(o: Oracle, words: nat, n: nat) {
    && (forall t, last {:trigger o.words(words, t, last)} :: o.words(words, t, last) == Words(Ok(n), false))
    && Assigns(o, words)
  }

  /** After these events, with this status. */
  function Now(state: State, events: Trace, status: int): State {
    State(status, false, state.trace + events, state.cut)
  }

  // ----- one command -----

  lemma CmdRuns(o: Oracle, fuel: nat, id: nat, scope: Scope, state: State)
    requires Calm(o)
    ensures var r := RunSimple(o, fuel, Simple(id), scope, state.(exempt := false));
            RunComplete(o, fuel, Cmd(id), scope, state)
              == Outcome(r.ending, r.status, r.state.(last := r.status, exempt := false))
  {
    ItemRuns(o, fuel, Simple(id), scope, state);
  }

  /** One command as a list, without `set -e`. */
  lemma ItemRuns(o: Oracle, fuel: nat, c: Command, scope: Scope, state: State)
    requires Calm(o)
    ensures var r := RunCommand(o, fuel, c, scope, state.(exempt := false));
            RunComplete(o, fuel, One(c), scope, state) == Outcome(r.ending, r.status, WithLast(r.state, r.status))
  {
    assert !o.noexec(state.trace);
    var andOr := AndOr(Pipe(false, c), Nil);
    var r := RunExemptible(o, fuel, andOr.first, false, scope, state);
    var p := RunPipe(o, fuel, andOr.first, scope, state.(exempt := false));
    var q := RunCommand(o, fuel, c, scope, state.(exempt := false));
    assert p == Outcome(q.ending, q.status, WithLast(q.state, q.status)) && r == p;
    assert RunRest(o, fuel, Nil, r.status, scope, r.state) == Outcome(Normal, r.status, r.state);
    var a := RunAndOr(o, fuel, andOr, scope, state);
    assert !o.errexit(a.state.trace);
    assert a == p;
    assert RunItems(o, fuel, Nil, a.status, scope, a.state) == Outcome(Normal, a.status, a.state);
    assert RunItems(o, fuel, One(c), 0, scope, state) == a;
  }

  lemma PlainRuns(o: Oracle, fuel: nat, id: nat, status: Trace -> int, scope: Scope, state: State)
    requires Calm(o) && Tells(o, id, status)
    ensures RunComplete(o, fuel, Cmd(id), scope, state)
         == Outcome(Normal, status(state.trace), Now(state, Event1(Ran, id), status(state.trace)))
  {
    CmdRuns(o, fuel, id, scope, state);
    assert o.simple(id, state.trace, state.last).dispatch == Other(status(state.trace), false, None);
  }

  /** `break n` and `continue n` in `depth` loops are about as many as there are. */
  lemma LoopControlRuns(o: Oracle, fuel: nat, id: nat, isBreak: bool, count: Operand, scope: Scope, state: State)
    requires Calm(o) && Says(o, id, LoopControl(isBreak, count)) && scope.depth > 0
    requires count == Absent || (count.Number? && count.n > 0)
    ensures var n := if count.Number? then count.n else 1;
            var k := if n < scope.depth then n else scope.depth;
            RunComplete(o, fuel, Cmd(id), scope, state)
              == Outcome(if isBreak then Break(k) else Continue(k), 0, Now(state, Event1(Ran, id), 0))
  {
    CmdRuns(o, fuel, id, scope, state);
    assert o.simple(id, state.trace, state.last).dispatch == LoopControl(isBreak, count);
  }

  lemma GroupRuns(o: Oracle, fuel: nat, prep: nat, kind: Kind, scope: Scope, state: State)
    requires Calm(o) && Prepares(o, prep)
    ensures var t := RunKind(o, fuel, kind, scope, Now(state, Event1(Prepared, prep), state.last));
            t.error.None? ==>
              RunComplete(o, fuel, Group(prep, kind), scope, state)
                == Outcome(t.out.ending, t.out.status, WithLast(t.out.state, t.out.status))
  {
    ItemRuns(o, fuel, Grouped(Compound(prep, kind)), scope, state);
    assert o.prepare(prep, state.trace, state.last).None? && !o.noexec(state.trace);
    assert After(state.(exempt := false), Prepared, prep) == Now(state, Event1(Prepared, prep), state.last);
  }

  // ----- lists -----

  lemma BodyStep(o: Oracle, fuel: nat, c: Complete, rest: Body, status: int, scope: Scope, state: State)
    requires Calm(o)
    ensures var r := RunComplete(o, fuel, c, scope, state);
            RunBody(o, fuel, Cons(c, rest), status, scope, state)
              == if r.ending.Normal? then RunBody(o, fuel, rest, r.status, scope, r.state) else r
  {
    var r := RunComplete(o, fuel, c, scope, state);
    assert !o.errexit(r.state.trace);
  }

  lemma BodyEnd(o: Oracle, fuel: nat, status: int, scope: Scope, state: State)
    ensures RunBody(o, fuel, Nil, status, scope, state) == Outcome(Normal, status, state)
  {
  }

  /** A list of one command is that command. */
  lemma BodyOne(o: Oracle, fuel: nat, c: Complete, status: int, scope: Scope, state: State)
    requires Calm(o)
    ensures RunBody(o, fuel, Body1(c), status, scope, state) == RunComplete(o, fuel, c, scope, state)
  {
    BodyStep(o, fuel, c, Nil, status, scope, state);
    var r := RunComplete(o, fuel, c, scope, state);
    BodyEnd(o, fuel, r.status, scope, r.state);
  }

  lemma NowNow(state: State, a: Trace, s: int, b: Trace, t: int)
    ensures Now(Now(state, a, s), b, t) == Now(state, a + b, t)
  {
    Assoc(state.trace, a, b);
  }

  /** A command that ends normally, and then the rest. */
  lemma BodyThen(o: Oracle, fuel: nat, c: Complete, rest: Body, status: int, scope: Scope, state: State, events: Trace,
                 s: int)
    requires Calm(o) && RunComplete(o, fuel, c, scope, state) == Outcome(Normal, s, Now(state, events, s))
    ensures RunBody(o, fuel, Cons(c, rest), status, scope, state)
         == RunBody(o, fuel, rest, s, scope, Now(state, events, s))
  {
    BodyStep(o, fuel, c, rest, status, scope, state);
  }

  /** One command after another. */
  lemma InOrder(o: Oracle, fuel: nat, a: nat, sa: Trace -> int, b: nat, sb: Trace -> int, scope: Scope, state: State)
    requires Calm(o) && Tells(o, a, sa) && Tells(o, b, sb)
    ensures var s := sb(state.trace + Event1(Ran, a));
            RunBody(o, fuel, Body2(Cmd(a), Cmd(b)), 0, scope, state)
              == Outcome(Normal, s, Now(state, [Step(Ran, a), Step(Ran, b)], s))
  {
    var now := Now(state, Event1(Ran, a), sa(state.trace));
    PlainRuns(o, fuel, a, sa, scope, state);
    BodyThen(o, fuel, Cmd(a), Body1(Cmd(b)), 0, scope, state, Event1(Ran, a), sa(state.trace));
    PlainRuns(o, fuel, b, sb, scope, now);
    BodyOne(o, fuel, Cmd(b), sa(state.trace), scope, now);
    NowNow(state, Event1(Ran, a), sa(state.trace), Event1(Ran, b), sb(now.trace));
    assert Event1(Ran, a) + Event1(Ran, b) == [Step(Ran, a), Step(Ran, b)];
  }

  // ----- for -----

  function ForEvents(prep: nat, words: nat): Trace { [Step(Prepared, prep), Step(Expanded, words)] }

  lemma ForRuns(o: Oracle, fuel: nat, prep: nat, words: nat, body: Body, n: nat, scope: Scope, state: State, r: Outcome)
    requires Calm(o) && Prepares(o, prep) && Lists(o, words, n)
    requires RunRounds(o, fuel, For(words, body), n, 0, scope, Now(state, ForEvents(prep, words), state.last))
          == Tried(r, None)
    ensures RunBody(o, fuel, Body1(Group(prep, For(words, body))), 0, scope, state)
         == Outcome(r.ending, r.status, WithLast(r.state, r.status))
  {
    var kind, now := For(words, body), Now(state, Event1(Prepared, prep), state.last);
    assert o.words(words, now.trace, now.last) == Words(Ok(n), false);
    assert After(now, Expanded, words) == Now(state, ForEvents(prep, words), state.last) by {
      NowNow(state, Event1(Prepared, prep), state.last, Event1(Expanded, words), state.last);
      assert Event1(Prepared, prep) + Event1(Expanded, words) == ForEvents(prep, words);
    }
    assert RunKind(o, fuel, kind, scope, now) == Tried(r, None);
    GroupRuns(o, fuel, prep, kind, scope, state);
    BodyOne(o, fuel, Group(prep, kind), 0, scope, state);
  }

  /** The first round of a `for`, up to the end of its body. */
  lemma RoundRuns(o: Oracle, fuel: nat, words: nat, body: Body, n: nat, status: int, scope: Scope, state: State)
    requires Assigns(o, words) && !state.exempt
    ensures var r := RunBody(o, fuel, body, 0, InLoop(scope), Now(state, Event1(Assigned, words), state.last));
            RunRounds(o, fuel, For(words, body), n + 1, status, scope, state)
              == match Round(r.ending)
                 case Some(ending) => Tried(Outcome(ending, r.status, r.state), None)
                 case None => RunRounds(o, fuel, For(words, body), n, r.status, scope, r.state)
  {
    assert o.assign(words, state.trace).None?;
    assert After(state, Assigned, words) == Now(state, Event1(Assigned, words), state.last);
  }

  /** `break` ends the loop in its first round: what follows it never runs. */
  lemma ForBreak(o: Oracle, fuel: nat, prep: nat, words: nat, n: nat, b: nat, rest: Body, scope: Scope, state: State)
    requires Calm(o) && Prepares(o, prep) && Lists(o, words, n) && n > 0 && Says(o, b, LoopControl(true, Absent))
    ensures RunBody(o, fuel, Body1(Group(prep, For(words, Cons(Cmd(b), rest)))), 0, scope, state)
         == Outcome(Normal, 0, Now(state, ForEvents(prep, words) + [Step(Assigned, words), Step(Ran, b)], 0))
  {
    var start := Now(state, ForEvents(prep, words), state.last);
    var body, r := Cons(Cmd(b), rest), Now(start, [Step(Assigned, words), Step(Ran, b)], 0);
    var now := Now(start, Event1(Assigned, words), start.last);
    RoundRuns(o, fuel, words, body, n - 1, 0, scope, start);
    LoopControlRuns(o, fuel, b, true, Absent, InLoop(scope), now);
    BodyStep(o, fuel, Cmd(b), rest, 0, InLoop(scope), now);
    NowNow(start, Event1(Assigned, words), start.last, Event1(Ran, b), 0);
    assert Event1(Assigned, words) + Event1(Ran, b) == [Step(Assigned, words), Step(Ran, b)];
    ForRuns(o, fuel, prep, words, body, n, scope, state, Outcome(Normal, 0, r));
    NowNow(state, ForEvents(prep, words), state.last, [Step(Assigned, words), Step(Ran, b)], 0);
  }

  /** Whenever the body runs, it leaves these events and ends like this. */
  ghost predicate Always(o: Oracle, fuel: nat, body: Body, scope: Scope, events: Trace, s: int, ending: Ending) {
    forall now: State {:trigger RunBody(o, fuel, body, 0, scope, now)} ::
      !now.exempt ==> RunBody(o, fuel, body, 0, scope, now) == Outcome(ending, s, Now(now, events, s))
  }

  /** `n` rounds that all leave these events and status 0 and go on. */
  lemma {:induction false} SameRounds(o: Oracle, fuel: nat, words: nat, body: Body, n: nat, status: int, scope: Scope,
                                      state: State, events: Trace, s: int, ending: Ending)
    requires Assigns(o, words) && !state.exempt && Round(ending) == None
    requires Always(o, fuel, body, InLoop(scope), events, s, ending)
    ensures RunRounds(o, fuel, For(words, body), n, status, scope, state)
         == Tried(Outcome(Normal, if n == 0 then status else s,
                          Now(state, Times(Event1(Assigned, words) + events, n), if n == 0 then state.last else s)),
                  None)
    decreases n
  {
    var now, round := Now(state, Event1(Assigned, words), state.last), Event1(Assigned, words) + events;
    if n == 0 {
      assert state.trace + [] == state.trace;
    } else {
      RoundRuns(o, fuel, words, body, n - 1, status, scope, state);
      NowNow(state, Event1(Assigned, words), state.last, events, s);
      SameRounds(o, fuel, words, body, n - 1, s, scope, Now(state, round, s), events, s, ending);
      TimesFront(round, n - 1);
      NowNow(state, round, s, Times(round, n - 1), s);
    }
  }

  /** A `for` whose body always does the same. */
  lemma ForSame(o: Oracle, fuel: nat, prep: nat, words: nat, body: Body, n: nat, scope: Scope, state: State,
                events: Trace, s: int, ending: Ending, round: Trace)
    requires Calm(o) && Prepares(o, prep) && Lists(o, words, n) && round == Event1(Assigned, words) + events
    requires Always(o, fuel, body, InLoop(scope), events, s, ending) && Round(ending) == None
    ensures var status := if n == 0 then 0 else s;
            RunBody(o, fuel, Body1(Group(prep, For(words, body))), 0, scope, state)
              == Outcome(Normal, status, Now(state, ForEvents(prep, words) + Times(round, n), status))
  {
    var start, status := Now(state, ForEvents(prep, words), state.last), if n == 0 then 0 else s;
    SameRounds(o, fuel, words, body, n, 0, scope, start, events, s, ending);
    ForRuns(o, fuel, prep, words, body, n, scope, state,
      Outcome(Normal, status, Now(start, Times(round, n), if n == 0 then start.last else s)));
    NowNow(state, ForEvents(prep, words), state.last, Times(round, n), status);
  }

  /** `continue` ends the round and not the loop: what follows it never runs. */
  lemma ForContinue(o: Oracle, fuel: nat, prep: nat, words: nat, n: nat, c: nat, rest: Body, scope: Scope, state: State)
    requires Calm(o) && Prepares(o, prep) && Lists(o, words, n) && Says(o, c, LoopControl(false, Absent))
    ensures RunBody(o, fuel, Body1(Group(prep, For(words, Cons(Cmd(c), rest)))), 0, scope, state)
         == Outcome(Normal, 0, Now(state, ForEvents(prep, words) + Times([Step(Assigned, words), Step(Ran, c)], n), 0))
  {
    ContinueAlways(o, fuel, c, rest, InLoop(scope));
    ForSame(o, fuel, prep, words, Cons(Cmd(c), rest), n, scope, state, Event1(Ran, c), 0, Continue(1),
      [Step(Assigned, words), Step(Ran, c)]);
  }

  lemma ContinueAlways(o: Oracle, fuel: nat, c: nat, rest: Body, scope: Scope)
    requires Calm(o) && Says(o, c, LoopControl(false, Absent)) && scope.depth > 0
    ensures Always(o, fuel, Cons(Cmd(c), rest), scope, Event1(Ran, c), 0, Continue(1))
  {
    forall now: State | !now.exempt
      ensures RunBody(o, fuel, Cons(Cmd(c), rest), 0, scope, now)
           == Outcome(Continue(1), 0, Now(now, Event1(Ran, c), 0))
    {
      LoopControlRuns(o, fuel, c, false, Absent, scope, now);
      BodyStep(o, fuel, Cmd(c), rest, 0, scope, now);
    }
  }

  function Constant(s: int): Trace -> int { t => s }

  lemma PlainAlways(o: Oracle, fuel: nat, a: nat, s: int, scope: Scope)
    requires Calm(o) && Tells(o, a, Constant(s))
    ensures Always(o, fuel, Body1(Cmd(a)), scope, Event1(Ran, a), s, Normal)
  {
    forall now: State | !now.exempt
      ensures RunBody(o, fuel, Body1(Cmd(a)), 0, scope, now) == Outcome(Normal, s, Now(now, Event1(Ran, a), s))
    {
      PlainRuns(o, fuel, a, Constant(s), scope, now);
      BodyOne(o, fuel, Cmd(a), 0, scope, now);
    }
  }

  /** Otherwise the body runs once for each word; without words the status is 0. */
  lemma ForEach(o: Oracle, fuel: nat, prep: nat, words: nat, n: nat, a: nat, s: int, scope: Scope, state: State)
    requires Calm(o) && Prepares(o, prep) && Lists(o, words, n) && Tells(o, a, Constant(s))
    ensures var status := if n == 0 then 0 else s;
            RunBody(o, fuel, Body1(Group(prep, For(words, Body1(Cmd(a))))), 0, scope, state)
              == Outcome(Normal, status,
                         Now(state, ForEvents(prep, words) + Times([Step(Assigned, words), Step(Ran, a)], n), status))
  {
    PlainAlways(o, fuel, a, s, InLoop(scope));
    ForSame(o, fuel, prep, words, Body1(Cmd(a)), n, scope, state, Event1(Ran, a), s, Normal,
      [Step(Assigned, words), Step(Ran, a)]);
  }

  // ----- loops in loops -----

  /** The events of one round of the outer loop up to a loop control inside. */
  function InnerEvents(words: nat, prep: nat, inner: nat, k: nat): Trace {
    [Step(Assigned, words), Step(Prepared, prep), Step(Expanded, inner), Step(Assigned, inner), Step(Ran, k)]
  }

  /** A `for` that `break` or `continue` of at least 2 leaves in its first round. */
  lemma InnerLoop(o: Oracle, fuel: nat, prep: nat, words: nat, n: nat, k: nat, isBreak: bool, count: int, rest: Body,
                  more: Body, scope: Scope, state: State)
    requires Calm(o) && Prepares(o, prep) && Lists(o, words, n) && n > 0 && scope.depth > 0
    requires Says(o, k, LoopControl(isBreak, Number(count))) && count >= 2
    ensures var left := if count - 1 < scope.depth then count - 1 else scope.depth;
            RunBody(o, fuel, Cons(Group(prep, For(words, Cons(Cmd(k), rest))), more), 0, scope, state)
              == Outcome(if isBreak then Break(left) else Continue(left), 0,
                         Now(state, ForEvents(prep, words) + [Step(Assigned, words), Step(Ran, k)], 0))
  {
    var start, body := Now(state, ForEvents(prep, words), state.last), Cons(Cmd(k), rest);
    var now := Now(start, Event1(Assigned, words), start.last);
    var left := if count - 1 < scope.depth then count - 1 else scope.depth;
    RoundRuns(o, fuel, words, body, n - 1, 0, scope, start);
    LoopControlRuns(o, fuel, k, isBreak, Number(count), InLoop(scope), now);
    BodyStep(o, fuel, Cmd(k), rest, 0, InLoop(scope), now);
    NowNow(start, Event1(Assigned, words), start.last, Event1(Ran, k), 0);
    assert Event1(Assigned, words) + Event1(Ran, k) == [Step(Assigned, words), Step(Ran, k)];
    NowNow(state, ForEvents(prep, words), state.last, [Step(Assigned, words), Step(Ran, k)], 0);
    ForRuns(o, fuel, prep, words, body, n, scope, state, Outcome(if isBreak then Break(left) else Continue(left), 0,
      Now(state, ForEvents(prep, words) + [Step(Assigned, words), Step(Ran, k)], 0)));
    BodyOne(o, fuel, Group(prep, For(words, body)), 0, scope, state);
    BodyStep(o, fuel, Group(prep, For(words, body)), more, 0, scope, state);
  }

  /** `break 2` in a loop in a loop ends both; `continue 2` goes on with the next
      round of the outer one. What follows the inner loop never runs. */
  lemma OuterLoop(o: Oracle, fuel: nat, prep: nat, words: nat, n: nat, prep': nat, words': nat, m: nat, k: nat,
                  isBreak: bool, rest: Body, more: Body, scope: Scope, state: State)
    requires Calm(o) && Prepares(o, prep) && Prepares(o, prep') && Lists(o, words, n) && Lists(o, words', m)
    requires n > 0 && m > 0 && Says(o, k, LoopControl(isBreak, Number(2)))
    ensures var inner, round := Group(prep', For(words', Cons(Cmd(k), rest))), InnerEvents(words, prep', words', k);
            RunBody(o, fuel, Body1(Group(prep, For(words, Cons(inner, more)))), 0, scope, state)
              == Outcome(Normal, 0, Now(state, ForEvents(prep, words) + if isBreak then round else Times(round, n), 0))
  {
    var body := Cons(Group(prep', For(words', Cons(Cmd(k), rest))), more);
    var events := ForEvents(prep', words') + [Step(Assigned, words'), Step(Ran, k)];
    var round := InnerEvents(words, prep', words', k);
    assert Event1(Assigned, words) + events == round;
    InnerAlways(o, fuel, prep', words', m, k, isBreak, rest, more, InLoop(scope));
    if isBreak {
      var start := Now(state, ForEvents(prep, words), state.last);
      RoundRuns(o, fuel, words, body, n - 1, 0, scope, start);
      NowNow(start, Event1(Assigned, words), start.last, events, 0);
      NowNow(state, ForEvents(prep, words), state.last, round, 0);
      ForRuns(o, fuel, prep, words, body, n, scope, state, Outcome(Normal, 0, Now(start, round, 0)));
    } else {
      ForSame(o, fuel, prep, words, body, n, scope, state, events, 0, Continue(1), round);
    }
  }

  lemma InnerAlways(o: Oracle, fuel: nat, prep: nat, words: nat, n: nat, k: nat, isBreak: bool, rest: Body, more: Body,
                    scope: Scope)
    requires Calm(o) && Prepares(o, prep) && Lists(o, words, n) && n > 0 && scope.depth > 0
    requires Says(o, k, LoopControl(isBreak, Number(2)))
    ensures Always(o, fuel, Cons(Group(prep, For(words, Cons(Cmd(k), rest))), more), scope,
                   ForEvents(prep, words) + [Step(Assigned, words), Step(Ran, k)], 0,
                   if isBreak then Break(1) else Continue(1))
  {
    var body := Cons(Group(prep, For(words, Cons(Cmd(k), rest))), more);
    forall now: State | !now.exempt
      ensures RunBody(o, fuel, body, 0, scope, now)
           == Outcome(if isBreak then Break(1) else Continue(1), 0,
                      Now(now, ForEvents(prep, words) + [Step(Assigned, words), Step(Ran, k)], 0))
    {
      InnerLoop(o, fuel, prep, words, n, k, isBreak, 2, rest, more, scope, now);
    }
  }

  // ----- while and until -----

  function WhileEvents(t: nat, a: nat): Trace { [Step(Ran, t), Step(Ran, a)] }

  /** A condition of status 0 lets `while` go on and ends `until`. */
  predicate GoesOn(until: bool, status: int) { until != (status == 0) }

  /** The test succeeds in the first `n` rounds and fails then. */
  ghost predicate Rounds(until: bool, status: Trace -> int, before: Trace, round: Trace, n: nat) {
    && (forall k: nat {:trigger Times(round, k)} :: k < n ==> GoesOn(until, status(before + Times(round, k))))
    && !GoesOn(until, status(before + Times(round, n)))
  }

  lemma RoundsNext(until: bool, status: Trace -> int, before: Trace, round: Trace, n: nat)
    requires Rounds(until, status, before, round, n) && n > 0
    ensures GoesOn(until, status(before)) && Rounds(until, status, before + round, round, n - 1)
  {
    assert Times(round, 0) == [] && before + [] == before;
    forall k: nat ensures before + Times(round, k + 1) == before + round + Times(round, k) {
      TimesFront(round, k);
      Assoc(before, round, Times(round, k));
    }
    forall k: nat | k < n - 1 ensures GoesOn(until, status(before + round + Times(round, k))) {
      assert k + 1 < n && GoesOn(until, status(before + Times(round, k + 1)));
    }
    assert n - 1 + 1 == n && before + round + Times(round, n - 1) == before + Times(round, n);
  }

  lemma {:induction false} WhileRounds(o: Oracle, fuel: nat, t: nat, st: Trace -> int, a: nat, s: int, until: bool,
                                       n: nat, status: int, scope: Scope, state: State)
    requires Calm(o) && Tells(o, t, st) && Tells(o, a, Constant(s)) && fuel > n && !state.exempt
    requires Rounds(until, st, state.trace, WhileEvents(t, a), n)
    ensures var events := Times(WhileEvents(t, a), n);
            RunWhile(o, fuel, While(Body1(Cmd(t)), Body1(Cmd(a)), until), status, scope, state)
              == Outcome(Normal, if n == 0 then status else s,
                         Now(state, events + Event1(Ran, t), st(state.trace + events)))
    decreases n
  {
    var kind, round := While(Body1(Cmd(t)), Body1(Cmd(a)), until), WhileEvents(t, a);
    var now := Now(state, Event1(Ran, t), st(state.trace));
    assert Times(round, 0) == [] && state.trace + [] == state.trace && [] + Event1(Ran, t) == Event1(Ran, t);
    PlainRuns(o, fuel - 1, t, st, Quiet(InLoop(scope)), state);
    BodyOne(o, fuel - 1, Cmd(t), 0, Quiet(InLoop(scope)), state);
    if n > 0 {
      RoundsNext(until, st, state.trace, round, n);
      PlainRuns(o, fuel - 1, a, Constant(s), InLoop(scope), now);
      BodyOne(o, fuel - 1, Cmd(a), 0, InLoop(scope), now);
      NowNow(state, Event1(Ran, t), st(state.trace), Event1(Ran, a), s);
      assert Event1(Ran, t) + Event1(Ran, a) == round;
      WhileRounds(o, fuel - 1, t, st, a, s, until, n - 1, s, scope, Now(state, round, s));
      TimesFront(round, n - 1);
      Assoc(state.trace, round, Times(round, n - 1));
      Assoc(round, Times(round, n - 1), Event1(Ran, t));
      NowNow(state, round, s, Times(round, n - 1) + Event1(Ran, t), st(state.trace + Times(round, n)));
    }
  }

  lemma WhileRuns(o: Oracle, fuel: nat, prep: nat, kind: Kind, scope: Scope, state: State, r: Outcome)
    requires Calm(o) && Prepares(o, prep) && kind.While?
    requires RunWhile(o, fuel, kind, 0, scope, Now(state, Event1(Prepared, prep), state.last)) == r
    ensures RunBody(o, fuel, Body1(Group(prep, kind)), 0, scope, state)
         == Outcome(r.ending, r.status, WithLast(r.state, r.status))
  {
    GroupRuns(o, fuel, prep, kind, scope, state);
    BodyOne(o, fuel, Group(prep, kind), 0, scope, state);
  }

  /** A loop whose test goes on `n` times runs its body `n` times and the test
      once more; its status is that of the last round, 0 without one. */
  lemma WhileTimes(o: Oracle, fuel: nat, prep: nat, t: nat, st: Trace -> int, a: nat, s: int, until: bool, n: nat,
                   scope: Scope, state: State)
    requires Calm(o) && Prepares(o, prep) && Tells(o, t, st) && Tells(o, a, Constant(s)) && fuel > n
    requires Rounds(until, st, state.trace + Event1(Prepared, prep), WhileEvents(t, a), n)
    ensures var status := if n == 0 then 0 else s;
            RunBody(o, fuel, Body1(Group(prep, While(Body1(Cmd(t)), Body1(Cmd(a)), until))), 0, scope, state)
              == Outcome(Normal, status,
                         Now(state, Event1(Prepared, prep) + (Times(WhileEvents(t, a), n) + Event1(Ran, t)), status))
  {
    var start, events := Now(state, Event1(Prepared, prep), state.last), Times(WhileEvents(t, a), n);
    var kind, status := While(Body1(Cmd(t)), Body1(Cmd(a)), until), if n == 0 then 0 else s;
    WhileRounds(o, fuel, t, st, a, s, until, n, 0, scope, start);
    WhileRuns(o, fuel, prep, kind, scope, state,
      Outcome(Normal, status, Now(start, events + Event1(Ran, t), st(start.trace + events))));
    NowNow(state, Event1(Prepared, prep), state.last, events + Event1(Ran, t), status);
  }

  /** `while t; do a; break; …`: one test, one `a`, and nothing behind. */
  lemma WhileBreak(o: Oracle, fuel: nat, prep: nat, t: nat, st: Trace -> int, a: nat, s: int, b: nat, rest: Body,
                   until: bool, scope: Scope, state: State)
    requires Calm(o) && Prepares(o, prep) && Tells(o, t, st) && Tells(o, a, Constant(s)) && fuel > 0
    requires Says(o, b, LoopControl(true, Absent)) && GoesOn(until, st(state.trace + Event1(Prepared, prep)))
    ensures var loop := While(Body1(Cmd(t)), Cons(Cmd(a), Cons(Cmd(b), rest)), until);
            RunBody(o, fuel, Body1(Group(prep, loop)), 0, scope, state)
              == Outcome(Normal, 0, Now(state, [Step(Prepared, prep), Step(Ran, t), Step(Ran, a), Step(Ran, b)], 0))
  {
    var start, f, loop := Now(state, Event1(Prepared, prep), state.last), fuel - 1, InLoop(scope);
    var body := Cons(Cmd(a), Cons(Cmd(b), rest));
    var kind := While(Body1(Cmd(t)), body, until);
    PlainRuns(o, f, t, st, Quiet(loop), start);
    BodyOne(o, f, Cmd(t), 0, Quiet(loop), start);
    var now := Now(start, Event1(Ran, t), st(start.trace));
    PlainRuns(o, f, a, Constant(s), loop, now);
    BodyThen(o, f, Cmd(a), Cons(Cmd(b), rest), 0, loop, now, Event1(Ran, a), s);
    var after := Now(now, Event1(Ran, a), s);
    LoopControlRuns(o, f, b, true, Absent, loop, after);
    BodyStep(o, f, Cmd(b), rest, s, loop, after);
    WhileRuns(o, fuel, prep, kind, scope, state, Outcome(Normal, 0, Now(after, Event1(Ran, b), 0)));
    assert [Step(Prepared, prep), Step(Ran, t), Step(Ran, a), Step(Ran, b)]
        == Event1(Prepared, prep) + Event1(Ran, t) + Event1(Ran, a) + Event1(Ran, b);
    FourSteps(state, Event1(Prepared, prep), state.last, Event1(Ran, t), st(start.trace), Event1(Ran, a), s,
      Event1(Ran, b), 0);
  }

  lemma FourSteps(state: State, a: Trace, r: int, b: Trace, s: int, c: Trace, t: int, d: Trace, u: int)
    ensures Now(Now(Now(Now(state, a, r), b, s), c, t), d, u) == Now(state, a + b + c + d, u)
  {
    NowNow(state, a, r, b, s);
    NowNow(state, a + b, s, c, t);
    NowNow(state, a + b + c, t, d, u);
  }
}
