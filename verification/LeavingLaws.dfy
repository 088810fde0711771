/** What `exit`, `return` and errors end, and what goes on around it. */
module LeavingLaws {
  import opened Prelude
  import opened ExecSpec
  import opened ExecLaws
  import opened CommandLaws

  // ----- leaving: exit, subshells, functions -----

  /** `exit n` ends the shell: nothing behind it runs. */
  lemma ExitEnds(o: Oracle, fuel: nat, x: nat, n: int, rest: Body, scope: Scope, state: State)
    requires Calm(o) && Says(o, x, ExitCommand(Number(n)))
    ensures RunBody(o, fuel, Cons(Cmd(x), rest), 0, scope, state)
         == Outcome(Quit(n % 256), n % 256, Now(state, Event1(Ran, x), n % 256))
  {
    CmdRuns(o, fuel, x, scope, state);
    assert o.simple(x, state.trace, state.last).dispatch == ExitCommand(Number(n));
    BodyStep(o, fuel, Cmd(x), rest, 0, scope, state);
  }

  /** `(body)` that exits, breaks or returns ends itself alone: the parent goes
      on, with the status of the child. */
  lemma SubshellEnds(o: Oracle, fuel: nat, prep: nat, fork: nat, x: nat, n: int, rest: Body, d: nat, sd: int,
                     scope: Scope, state: State)
    requires Calm(o) && Prepares(o, prep) && Says(o, x, ExitCommand(Number(n))) && Tells(o, d, Constant(sd))
    requires forall t {:trigger o.forkError(fork, t)} :: o.forkError(fork, t).None?
    requires forall t {:trigger o.waitFails(fork, t)} :: !o.waitFails(fork, t)
    ensures var child := state.trace + [Step(Prepared, prep), Step(Forked, fork), Step(Ran, x)];
            var group := Group(prep, Subshell(fork, Cons(Cmd(x), rest)));
            && RunBody(o, fuel, Body1(group), 0, scope, state).status == n % 256
            && RunBody(o, fuel, Body2(group, Cmd(d)), 0, scope, state)
               == Outcome(Normal, sd,
                          Now(state, [Step(Prepared, prep), Step(Forked, fork), Child(child), Step(Ran, d)], sd))
  {
    var start := Now(state, Event1(Prepared, prep), state.last);
    var forked := After(start, Forked, fork);
    var kind, status := Subshell(fork, Cons(Cmd(x), rest)), n % 256;
    var child := state.trace + [Step(Prepared, prep), Step(Forked, fork), Step(Ran, x)];
    ExitEnds(o, fuel, x, n, rest, scope.(interactive := false), forked);
    assert Event1(Prepared, prep) + Event1(Forked, fork) + Event1(Ran, x)
        == [Step(Prepared, prep), Step(Forked, fork), Step(Ran, x)];
    assert forked.trace + Event1(Ran, x) == child;
    assert o.forkError(fork, start.trace).None?;
    var after := forked.(trace := forked.trace + [Child(child)]);
    assert !o.waitFails(fork, after.trace);
    assert RunSubshell(o, fuel, kind, scope, start) == Tried(Outcome(Normal, status, after), None);
    GroupRuns(o, fuel, prep, kind, scope, state);
    BodyOne(o, fuel, Group(prep, kind), 0, scope, state);
    var now := WithLast(after, status);
    BodyStep(o, fuel, Group(prep, kind), Body1(Cmd(d)), 0, scope, state);
    PlainRuns(o, fuel, d, Constant(sd), scope, now);
    BodyOne(o, fuel, Cmd(d), status, scope, now);
    assert now.trace + Event1(Ran, d)
        == state.trace + [Step(Prepared, prep), Step(Forked, fork), Child(child), Step(Ran, d)];
  }

  /** `return n` ends the function, with that status, and nothing around it. */
  lemma ReturnEnds(o: Oracle, fuel: nat, f: nat, prep: nat, x: nat, n: int, rest: Body, d: nat, sd: int,
                   scope: Scope, state: State)
    requires Calm(o) && Prepares(o, prep) && Says(o, x, ReturnCommand(Number(n))) && Tells(o, d, Constant(sd))
    requires Says(o, f, Nested(Call(Compound(prep, Brace(Cons(Cmd(x), rest)))))) && fuel > 0
    ensures RunBody(o, fuel, Body1(Cmd(f)), 0, scope, state).status == n % 256
    ensures RunBody(o, fuel, Body2(Cmd(f), Cmd(d)), 0, scope, state)
         == Outcome(Normal, sd, Now(state, [Step(Ran, f), Step(Prepared, prep), Step(Ran, x), Step(Ran, d)], sd))
  {
    var body, status := Compound(prep, Brace(Cons(Cmd(x), rest))), n % 256;
    var called := Now(state, Event1(Ran, f), o.simple(f, state.trace, state.last).last);
    CallReturns(o, fuel - 1, prep, x, n, rest, scope, called);
    assert o.simple(f, state.trace, state.last).dispatch == Nested(Call(body));
    CmdRuns(o, fuel, f, scope, state);
    var now := Now(called, [Step(Prepared, prep), Step(Ran, x)], status);
    BodyOne(o, fuel, Cmd(f), 0, scope, state);
    BodyStep(o, fuel, Cmd(f), Body1(Cmd(d)), 0, scope, state);
    PlainRuns(o, fuel, d, Constant(sd), scope, now);
    BodyOne(o, fuel, Cmd(d), status, scope, now);
    NowNow(state, Event1(Ran, f), called.last, [Step(Prepared, prep), Step(Ran, x)], status);
    NowNow(state, Event1(Ran, f) + [Step(Prepared, prep), Step(Ran, x)], status, Event1(Ran, d), sd);
    assert Event1(Ran, f) + [Step(Prepared, prep), Step(Ran, x)] + Event1(Ran, d)
        == [Step(Ran, f), Step(Prepared, prep), Step(Ran, x), Step(Ran, d)];
  }

  lemma CallReturns(o: Oracle, fuel: nat, prep: nat, x: nat, n: int, rest: Body, scope: Scope, state: State)
    requires Calm(o) && Prepares(o, prep) && Says(o, x, ReturnCommand(Number(n))) && !state.exempt
    ensures RunCall(o, fuel, Compound(prep, Brace(Cons(Cmd(x), rest))), scope, state)
         == Outcome(Normal, n % 256, Now(state, [Step(Prepared, prep), Step(Ran, x)], n % 256))
  {
    var inner, start := Scope(0, scope.quiet, true, scope.interactive), Now(state, Event1(Prepared, prep), state.last);
    assert o.prepare(prep, state.trace, state.last).None? && After(state, Prepared, prep) == start;
    CmdRuns(o, fuel, x, inner, start);
    assert o.simple(x, start.trace, start.last).dispatch == ReturnCommand(Number(n));
    BodyStep(o, fuel, Cmd(x), rest, 0, inner, start);
    var body := Cons(Cmd(x), rest);
    assert RunKind(o, fuel, Brace(body), inner, start) == Tried(RunBody(o, fuel, body, 0, inner, start), None);
    assert start.trace + Event1(Ran, x) == state.trace + [Step(Prepared, prep), Step(Ran, x)];
  }

  /** The loops around a call are not those of the function: `break` in its body
      fails with status 1 and ends nothing. */
  lemma LoopsStayOutside(o: Oracle, fuel: nat, prep: nat, k: nat, isBreak: bool, d: nat, sd: int, scope: Scope,
                         state: State)
    requires Calm(o) && Prepares(o, prep) && Says(o, k, LoopControl(isBreak, Absent)) && Tells(o, d, Constant(sd))
    requires !state.exempt
    ensures RunCall(o, fuel, Compound(prep, Brace(Body2(Cmd(k), Cmd(d)))), scope, state)
         == Outcome(Normal, sd, Now(state, [Step(Prepared, prep), Step(Ran, k), Step(Ran, d)], sd))
    ensures RunCall(o, fuel, Compound(prep, Brace(Body1(Cmd(k)))), scope, state).status == 1
  {
    var inner, start := Scope(0, scope.quiet, true, scope.interactive), Now(state, Event1(Prepared, prep), state.last);
    var body := Body2(Cmd(k), Cmd(d));
    assert o.prepare(prep, state.trace, state.last).None? && After(state, Prepared, prep) == start;
    CmdRuns(o, fuel, k, inner, start);
    assert o.simple(k, start.trace, start.last).dispatch == LoopControl(isBreak, Absent);
    var now := Now(start, Event1(Ran, k), 1);
    BodyStep(o, fuel, Cmd(k), Body1(Cmd(d)), 0, inner, start);
    BodyOne(o, fuel, Cmd(k), 0, inner, start);
    PlainRuns(o, fuel, d, Constant(sd), inner, now);
    BodyOne(o, fuel, Cmd(d), 1, inner, now);
    assert RunKind(o, fuel, Brace(body), inner, start) == Tried(RunBody(o, fuel, body, 0, inner, start), None);
    assert RunKind(o, fuel, Brace(Body1(Cmd(k))), inner, start)
        == Tried(RunBody(o, fuel, Body1(Cmd(k)), 0, inner, start), None);
    assert start.trace + Event1(Ran, k) + Event1(Ran, d)
        == state.trace + [Step(Prepared, prep), Step(Ran, k), Step(Ran, d)];
  }

  /** `return` outside functions and dot scripts fails and ends nothing; so does
      `break` outside loops. */
  lemma NothingToLeave(o: Oracle, fuel: nat, x: nat, dispatch: Dispatch, d: nat, sd: int, scope: Scope, state: State)
    requires Calm(o) && Says(o, x, dispatch) && Tells(o, d, Constant(sd))
    requires (dispatch.ReturnCommand? && !scope.returnable) || (dispatch.LoopControl? && scope.depth == 0)
    ensures RunBody(o, fuel, Body1(Cmd(x)), 0, scope, state).status == 1
    ensures RunBody(o, fuel, Body2(Cmd(x), Cmd(d)), 0, scope, state)
         == Outcome(Normal, sd, Now(state, [Step(Ran, x), Step(Ran, d)], sd))
  {
    CmdRuns(o, fuel, x, scope, state);
    assert o.simple(x, state.trace, state.last).dispatch == dispatch;
    var now := Now(state, Event1(Ran, x), 1);
    BodyOne(o, fuel, Cmd(x), 0, scope, state);
    BodyStep(o, fuel, Cmd(x), Body1(Cmd(d)), 0, scope, state);
    PlainRuns(o, fuel, d, Constant(sd), scope, now);
    BodyOne(o, fuel, Cmd(d), 1, scope, now);
    NowNow(state, Event1(Ran, x), 1, Event1(Ran, d), sd);
    assert Event1(Ran, x) + Event1(Ran, d) == [Step(Ran, x), Step(Ran, d)];
  }

  /** An operand that is no count or status: status 2, and a shell that is not
      interactive ends. */
  lemma BadOperand(o: Oracle, fuel: nat, x: nat, dispatch: Dispatch, rest: Body, scope: Scope, state: State)
    requires Calm(o) && Says(o, x, dispatch) && !scope.interactive
    requires if dispatch.LoopControl?
             then scope.depth > 0 && (dispatch.count == NotNumber || (dispatch.count.Number? && dispatch.count.n <= 0))
             else dispatch == ReturnCommand(NotNumber) && scope.returnable
    ensures RunBody(o, fuel, Cons(Cmd(x), rest), 0, scope, state) == Outcome(Quit(2), 2, Now(state, Event1(Ran, x), 2))
    ensures RunBody(o, fuel, Body1(Cmd(x)), 0, scope.(interactive := true), state)
         == Outcome(Normal, 2, Now(state, Event1(Ran, x), 2))
  {
    assert o.simple(x, state.trace, state.last).dispatch == dispatch;
    CmdRuns(o, fuel, x, scope, state);
    BodyStep(o, fuel, Cmd(x), rest, 0, scope, state);
    CmdRuns(o, fuel, x, scope.(interactive := true), state);
    BodyOne(o, fuel, Cmd(x), 0, scope.(interactive := true), state);
  }

  /** `exit` with an operand that is no number: status 2. */
  lemma BadExit(o: Oracle, fuel: nat, x: nat, rest: Body, scope: Scope, state: State)
    requires Calm(o) && Says(o, x, ExitCommand(NotNumber))
    ensures RunBody(o, fuel, Cons(Cmd(x), rest), 0, scope, state) == Outcome(Quit(2), 2, Now(state, Event1(Ran, x), 2))
  {
    CmdRuns(o, fuel, x, scope, state);
    assert o.simple(x, state.trace, state.last).dispatch == ExitCommand(NotNumber);
    BodyStep(o, fuel, Cmd(x), rest, 0, scope, state);
  }

  // ----- leaving through loops and conditions -----

  /** `return` and `exit` in a loop leave it with whatever is around. */
  lemma LoopPassesOn(o: Oracle, fuel: nat, prep: nat, words: nat, n: nat, x: nat, k: int, exits: bool, rest: Body,
                     scope: Scope, state: State)
    requires Calm(o) && Prepares(o, prep) && Lists(o, words, n) && n > 0 && (exits || scope.returnable)
    requires Says(o, x, if exits then ExitCommand(Number(k)) else ReturnCommand(Number(k)))
    ensures RunBody(o, fuel, Body1(Group(prep, For(words, Cons(Cmd(x), rest)))), 0, scope, state)
         == Outcome(if exits then Quit(k % 256) else Return(k % 256), k % 256,
                    Now(state, ForEvents(prep, words) + [Step(Assigned, words), Step(Ran, x)], k % 256))
  {
    var start, body := Now(state, ForEvents(prep, words), state.last), Cons(Cmd(x), rest);
    var now := Now(start, Event1(Assigned, words), start.last);
    RoundRuns(o, fuel, words, body, n - 1, 0, scope, start);
    CmdRuns(o, fuel, x, InLoop(scope), now);
    assert o.simple(x, now.trace, now.last).dispatch
        == if exits then ExitCommand(Number(k)) else ReturnCommand(Number(k));
    BodyStep(o, fuel, Cmd(x), rest, 0, InLoop(scope), now);
    NowNow(start, Event1(Assigned, words), start.last, Event1(Ran, x), k % 256);
    assert Event1(Assigned, words) + Event1(Ran, x) == [Step(Assigned, words), Step(Ran, x)];
    ForRuns(o, fuel, prep, words, body, n, scope, state,
      Outcome(if exits then Quit(k % 256) else Return(k % 256), k % 256,
              Now(start, [Step(Assigned, words), Step(Ran, x)], k % 256)));
    NowNow(state, ForEvents(prep, words), state.last, [Step(Assigned, words), Step(Ran, x)], k % 256);
  }

  /** The same for `while` and `until`. */
  lemma WhilePassesOn(o: Oracle, fuel: nat, prep: nat, t: nat, st: Trace -> int, x: nat, k: int, exits: bool,
                      rest: Body, until: bool, scope: Scope, state: State)
    requires Calm(o) && Prepares(o, prep) && Tells(o, t, st) && fuel > 0 && (exits || scope.returnable)
    requires GoesOn(until, st(state.trace + Event1(Prepared, prep)))
    requires Says(o, x, if exits then ExitCommand(Number(k)) else ReturnCommand(Number(k)))
    ensures RunBody(o, fuel, Body1(Group(prep, While(Body1(Cmd(t)), Cons(Cmd(x), rest), until))), 0, scope, state)
         == Outcome(if exits then Quit(k % 256) else Return(k % 256), k % 256,
                    Now(state, [Step(Prepared, prep), Step(Ran, t), Step(Ran, x)], k % 256))
  {
    var start, f, loop := Now(state, Event1(Prepared, prep), state.last), fuel - 1, InLoop(scope);
    var kind, now := While(Body1(Cmd(t)), Cons(Cmd(x), rest), until), Now(start, Event1(Ran, t), st(start.trace));
    ConditionRuns(o, f, t, st, loop, start);
    CmdRuns(o, f, x, loop, now);
    assert o.simple(x, now.trace, now.last).dispatch
        == if exits then ExitCommand(Number(k)) else ReturnCommand(Number(k));
    BodyStep(o, f, Cmd(x), rest, 0, loop, now);
    var ending := if exits then Quit(k % 256) else Return(k % 256);
    WhileRuns(o, fuel, prep, kind, scope, state, Outcome(ending, k % 256, Now(now, Event1(Ran, x), k % 256)));
    assert state.trace + Event1(Prepared, prep) + Event1(Ran, t) + Event1(Ran, x)
        == state.trace + [Step(Prepared, prep), Step(Ran, t), Step(Ran, x)];
  }

  /** `break` in the condition of a loop ends that loop before its body. */
  lemma ConditionBreaks(o: Oracle, fuel: nat, prep: nat, b: nat, rest: Body, body: Body, until: bool, scope: Scope,
                        state: State)
    requires Calm(o) && Prepares(o, prep) && Says(o, b, LoopControl(true, Absent)) && fuel > 0
    ensures RunBody(o, fuel, Body1(Group(prep, While(Cons(Cmd(b), rest), body, until))), 0, scope, state)
         == Outcome(Normal, 0, Now(state, [Step(Prepared, prep), Step(Ran, b)], 0))
  {
    var start := Now(state, Event1(Prepared, prep), state.last);
    var kind := While(Cons(Cmd(b), rest), body, until);
    LoopControlRuns(o, fuel - 1, b, true, Absent, Quiet(InLoop(scope)), start);
    BodyStep(o, fuel - 1, Cmd(b), rest, 0, Quiet(InLoop(scope)), start);
    WhileRuns(o, fuel, prep, kind, scope, state, Outcome(Normal, 0, Now(start, Event1(Ran, b), 0)));
    NowNow(state, Event1(Prepared, prep), state.last, Event1(Ran, b), 0);
    assert Event1(Prepared, prep) + Event1(Ran, b) == [Step(Prepared, prep), Step(Ran, b)];
  }

  /** `exit` in a condition ends the shell: neither branch nor body runs. */
  lemma ConditionExits(o: Oracle, fuel: nat, prep: nat, x: nat, n: int, rest: Body, kind: Kind, scope: Scope,
                       state: State)
    requires Calm(o) && Prepares(o, prep) && Says(o, x, ExitCommand(Number(n))) && fuel > 0
    requires (kind.If? || kind.While?) && kind.condition == Cons(Cmd(x), rest)
    ensures RunBody(o, fuel, Body1(Group(prep, kind)), 0, scope, state)
         == Outcome(Quit(n % 256), n % 256, Now(state, [Step(Prepared, prep), Step(Ran, x)], n % 256))
  {
    var start := Now(state, Event1(Prepared, prep), state.last);
    if kind.If? {
      ExitEnds(o, fuel, x, n, rest, Quiet(scope), start);
    } else {
      ExitEnds(o, fuel - 1, x, n, rest, Quiet(InLoop(scope)), start);
    }
    GroupRuns(o, fuel, prep, kind, scope, state);
    BodyOne(o, fuel, Group(prep, kind), 0, scope, state);
    NowNow(state, Event1(Prepared, prep), state.last, Event1(Ran, x), n % 256);
    assert Event1(Prepared, prep) + Event1(Ran, x) == [Step(Prepared, prep), Step(Ran, x)];
  }

  // ----- failures -----

  /** A fatal error or an exit request of a command: nothing behind it runs. */
  lemma CommandStops(o: Oracle, fuel: nat, x: nat, s: int, fatal: bool, quit: Option<int>, rest: Body, scope: Scope,
                     state: State)
    requires Calm(o) && Says(o, x, Other(s, fatal, quit)) && (fatal || quit.Some?)
    ensures RunBody(o, fuel, Cons(Cmd(x), rest), 0, scope, state)
         == Outcome(if quit.None? then Fatal else if fatal then FatalQuit(quit.value) else Quit(quit.value), s,
                    Now(state, Event1(Ran, x), s))
  {
    CmdRuns(o, fuel, x, scope, state);
    assert o.simple(x, state.trace, state.last).dispatch == Other(s, fatal, quit);
    BodyStep(o, fuel, Cmd(x), rest, 0, scope, state);
  }

  /** `exit` and `return` without operand keep the status of the command before. */
  lemma LastStatus(o: Oracle, fuel: nat, a: nat, s: int, x: nat, exits: bool, rest: Body, scope: Scope, state: State)
    requires Calm(o) && Tells(o, a, Constant(s))
    requires Says(o, x, if exits then ExitCommand(Absent) else ReturnCommand(Absent))
    requires forall t, last {:trigger o.simple(x, t, last)} :: o.simple(x, t, last).last == last
    requires exits || scope.returnable
    ensures var n := if exits then s else s % 256;
            RunBody(o, fuel, Cons(Cmd(a), Cons(Cmd(x), rest)), 0, scope, state)
              == Outcome(if exits then Quit(n) else Return(n), n, Now(state, [Step(Ran, a), Step(Ran, x)], n))
  {
    var now := Now(state, Event1(Ran, a), s);
    PlainRuns(o, fuel, a, Constant(s), scope, state);
    BodyThen(o, fuel, Cmd(a), Cons(Cmd(x), rest), 0, scope, state, Event1(Ran, a), s);
    CmdRuns(o, fuel, x, scope, now);
    var out := o.simple(x, now.trace, now.last);
    assert out.dispatch == if exits then ExitCommand(Absent) else ReturnCommand(Absent);
    assert out.last == s;
    BodyStep(o, fuel, Cmd(x), rest, s, scope, now);
    assert state.trace + Event1(Ran, a) + Event1(Ran, x) == state.trace + [Step(Ran, a), Step(Ran, x)];
  }

  /** How a command ends whose error has this code, may be fatal, and may end a
      shell that is not interactive. */
  function ErrorEnding(e: Failure, fatal: bool, interactive: bool): Ending {
    if e.exits && !interactive then (if fatal then FatalQuit(e.code) else Quit(e.code))
    else if fatal then Fatal else Normal
  }

  /** A `for` whose words fail runs no body: its status is that of the error. */
  lemma WordsFail(o: Oracle, fuel: nat, prep: nat, words: nat, e: Failure, fatal: bool, body: Body, scope: Scope,
                  state: State)
    requires Calm(o) && Prepares(o, prep)
    requires forall t, last {:trigger o.words(words, t, last)} :: o.words(words, t, last) == Words(Err(e), fatal)
    ensures RunBody(o, fuel, Body1(Group(prep, For(words, body))), 0, scope, state)
         == Outcome(ErrorEnding(e, fatal, scope.interactive), e.code, Now(state, ForEvents(prep, words), e.code))
  {
    var kind, start := For(words, body), Now(state, Event1(Prepared, prep), state.last);
    var now := Now(state, ForEvents(prep, words), 1);
    NowNow(state, Event1(Prepared, prep), state.last, Event1(Expanded, words), 1);
    assert Event1(Prepared, prep) + Event1(Expanded, words) == ForEvents(prep, words);
    assert o.words(words, start.trace, start.last) == Words(Err(e), fatal);
    var r := Outcome(if fatal then Fatal else Normal, 1, now);
    assert RunKind(o, fuel, kind, scope, start) == Tried(r, Some(e));
    GroupFails(o, fuel, prep, kind, scope, state, r, e);
  }

  /** Nor does one whose variable cannot be assigned. */
  lemma VariableFails(o: Oracle, fuel: nat, prep: nat, words: nat, n: nat, e: Failure, body: Body, scope: Scope,
                      state: State)
    requires Calm(o) && Prepares(o, prep) && n > 0
    requires forall t, last {:trigger o.words(words, t, last)} :: o.words(words, t, last) == Words(Ok(n), false)
    requires forall t {:trigger o.assign(words, t)} :: o.assign(words, t) == Some(e)
    ensures RunBody(o, fuel, Body1(Group(prep, For(words, body))), 0, scope, state)
         == Outcome(ErrorEnding(e, false, scope.interactive), e.code,
                    Now(state, ForEvents(prep, words) + Event1(Assigned, words), e.code))
  {
    var kind, start := For(words, body), Now(state, Event1(Prepared, prep), state.last);
    var now := Now(state, ForEvents(prep, words), state.last);
    NowNow(state, Event1(Prepared, prep), state.last, Event1(Expanded, words), state.last);
    assert Event1(Prepared, prep) + Event1(Expanded, words) == ForEvents(prep, words);
    assert o.words(words, start.trace, start.last) == Words(Ok(n), false) && o.assign(words, now.trace) == Some(e);
    var after := After(now, Assigned, words);
    assert RunRounds(o, fuel, kind, n, 0, scope, now) == Tried(Outcome(Normal, 0, after), Some(e));
    assert RunKind(o, fuel, kind, scope, start) == Tried(Outcome(Normal, 0, after), Some(e));
    Assoc(state.trace, ForEvents(prep, words), Event1(Assigned, words));
    GroupFails(o, fuel, prep, kind, scope, state, Outcome(Normal, 0, after), e);
  }

  lemma GroupFails(o: Oracle, fuel: nat, prep: nat, kind: Kind, scope: Scope, state: State, r: Outcome, e: Failure)
    requires Calm(o) && Prepares(o, prep)
    requires RunKind(o, fuel, kind, scope, Now(state, Event1(Prepared, prep), state.last)) == Tried(r, Some(e))
    ensures RunBody(o, fuel, Body1(Group(prep, kind)), 0, scope, state)
         == Outcome(ErrorEnding(e, r.ending.Fatal? || r.ending.FatalQuit?, scope.interactive), e.code,
                    WithLast(r.state, e.code))
  {
    ItemRuns(o, fuel, Grouped(Compound(prep, kind)), scope, state);
    assert o.prepare(prep, state.trace, state.last).None? && !o.noexec(state.trace);
    assert After(state.(exempt := false), Prepared, prep) == Now(state, Event1(Prepared, prep), state.last);
    BodyOne(o, fuel, Group(prep, kind), 0, scope, state);
  }

  /** A `case` whose word fails runs no item. */
  lemma CaseFails(o: Oracle, fuel: nat, prep: nat, w: nat, e: Failure, fatal: bool, items: List<CaseItem>, scope: Scope,
                  state: State)
    requires Calm(o) && Prepares(o, prep)
    requires forall t, last {:trigger o.word(w, t, last)} :: o.word(w, t, last) == Words(Err(e), fatal)
    ensures RunBody(o, fuel, Body1(Group(prep, Case(w, items))), 0, scope, state)
         == Outcome(ErrorEnding(e, fatal, scope.interactive), e.code, Now(state, CaseEvents(prep, w), e.code))
  {
    var kind, start := Case(w, items), Now(state, Event1(Prepared, prep), state.last);
    var now := Now(state, CaseEvents(prep, w), 1);
    NowNow(state, Event1(Prepared, prep), state.last, Event1(Expanded, w), 1);
    assert Event1(Prepared, prep) + Event1(Expanded, w) == CaseEvents(prep, w);
    assert o.word(w, start.trace, start.last) == Words(Err(e), fatal);
    var r := Outcome(if fatal then Fatal else Normal, 1, now);
    assert RunKind(o, fuel, kind, scope, start) == Tried(r, Some(e));
    GroupFails(o, fuel, prep, kind, scope, state, r, e);
  }

  /** A pattern that fails gives the `case` up: no item behind it is tried. */
  lemma PatternFails(o: Oracle, fuel: nat, prep: nat, w: nat, p: nat, e: Failure, body: Body, falls: bool,
                     items: List<CaseItem>, scope: Scope, state: State)
    requires Calm(o) && Prepares(o, prep) && CaseWord(o, w)
    requires forall t, last {:trigger o.pattern(p, t, last)} :: o.pattern(p, t, last) == Err(e)
    ensures var group := Group(prep, Case(w, Cons(CaseItem(Cons(p, Nil), body, falls), items)));
            RunBody(o, fuel, Body1(group), 0, scope, state)
              == Outcome(ErrorEnding(e, false, scope.interactive), e.code,
                         Now(state, CaseEvents(prep, w) + Event1(Tested, p), e.code))
  {
    var kind := Case(w, Cons(CaseItem(Cons(p, Nil), body, falls), items));
    var start := Now(state, Event1(Prepared, prep), state.last);
    var now := Now(state, CaseEvents(prep, w), state.last);
    NowNow(state, Event1(Prepared, prep), state.last, Event1(Expanded, w), state.last);
    assert Event1(Prepared, prep) + Event1(Expanded, w) == CaseEvents(prep, w);
    assert o.word(w, start.trace, start.last) == Words(Ok(()), false);
    assert o.pattern(p, now.trace, now.last) == Err(e);
    var tested := Now(now, Event1(Tested, p), 1);
    NowNow(state, CaseEvents(prep, w), state.last, Event1(Tested, p), 1);
    assert MatchAny(o, Cons(p, Nil), now) == (Err(e), After(now, Tested, p));
    assert RunItemsOfCase(o, fuel, kind.items, false, 0, scope, now) == Tried(Outcome(Normal, 0, tested), Some(e));
    assert RunKind(o, fuel, kind, scope, start) == Tried(Outcome(Normal, 0, tested), Some(e));
    GroupFails(o, fuel, prep, kind, scope, state, Outcome(Normal, 0, tested), e);
  }

  /** Each pattern of an item is tried, up to the first that matches. */
  lemma PatternsTried(o: Oracle, p: nat, yes: bool, q: nat, also: bool, state: State)
    requires Patterns(o, p, yes) && Patterns(o, q, also) && !state.exempt
    ensures MatchAny(o, Cons(p, Cons(q, Nil)), state) ==
            (Ok(yes || also),
             Now(state, if yes then Event1(Tested, p) else [Step(Tested, p), Step(Tested, q)], state.last))
  {
    var now := Now(state, Event1(Tested, p), state.last);
    assert o.pattern(p, state.trace, state.last) == Ok(yes) && After(state, Tested, p) == now;
    TestRuns(o, q, also, now);
    NowNow(state, Event1(Tested, p), state.last, Event1(Tested, q), state.last);
    assert Event1(Tested, p) + Event1(Tested, q) == [Step(Tested, p), Step(Tested, q)];
  }

  // ----- the status of children and calls -----

  /** What a subshell's parent sees: 1 when it cannot be waited for, else the
      child's exit code, whatever `!` made of its status. */
  lemma ChildStatusSeen(o: Oracle, fuel: nat, prep: nat, fork: nat, x: nat, s: int, fatal: bool, quit: Option<int>,
                        negated: bool, lost: bool, scope: Scope, state: State)
    requires Calm(o) && Prepares(o, prep) && Says(o, x, Other(s, fatal, quit))
    requires forall t {:trigger o.forkError(fork, t)} :: o.forkError(fork, t).None?
    requires forall t {:trigger o.waitFails(fork, t)} :: o.waitFails(fork, t) == lost
    ensures var body := Body1(Listed(AndOr(Pipe(negated, Simple(x)), Nil)));
            var r := RunBody(o, fuel, Body1(Group(prep, Subshell(fork, body))), 0, scope, state);
            && r.ending == Normal
            && r.status == if lost then 1 else (if quit.Some? then quit.value else if fatal then 1
                                                else if negated then (if s == 0 then 1 else 0) else s) % 256
  {
    var inner, list := scope.(interactive := false), AndOr(Pipe(negated, Simple(x)), Nil);
    var body := Body1(Listed(list));
    var start := Now(state, Event1(Prepared, prep), state.last);
    var forked, kind := After(start, Forked, fork), Subshell(fork, body);
    var ending := if quit.None? then (if fatal then Fatal else Normal)
                  else if fatal then FatalQuit(quit.value) else Quit(quit.value);
    SaysPipe(o, fuel, x, s, fatal, quit, negated, inner, forked, ending);
    ListRuns(o, fuel, list, inner, forked);
    assert o.forkError(fork, start.trace).None?;
    var r := RunBody(o, fuel, body, 0, inner, forked);
    var after := forked.(trace := forked.trace + [Child(r.state.trace)], cut := r.state.cut);
    assert o.waitFails(fork, after.trace) == lost;
    var t := RunSubshell(o, fuel, kind, scope, start);
    assert t.error.None? && t.out.ending == Normal;
    GroupRuns(o, fuel, prep, kind, scope, state);
    BodyOne(o, fuel, Group(prep, kind), 0, scope, state);
  }

  lemma SaysPipe(o: Oracle, fuel: nat, x: nat, s: int, fatal: bool, quit: Option<int>, negated: bool, scope: Scope,
                 state: State, ending: Ending)
    requires Calm(o) && Says(o, x, Other(s, fatal, quit))
    requires ending == if quit.None? then (if fatal then Fatal else Normal)
                       else if fatal then FatalQuit(quit.value) else Quit(quit.value)
    ensures var r := RunAndOr(o, fuel, AndOr(Pipe(negated, Simple(x)), Nil), scope, state);
            r.ending == ending && r.status == if negated then (if s == 0 then 1 else 0) else s
  {
    var list, before := AndOr(Pipe(negated, Simple(x)), Nil), state.(exempt := false);
    var inner := if negated then Quiet(scope) else scope;
    assert !o.noexec(state.trace);
    assert o.simple(x, state.trace, state.last).dispatch == Other(s, fatal, quit);
    assert RunSimple(o, fuel, Simple(x), inner, before).ending == ending;
    var c := RunCommand(o, fuel, Simple(x), inner, before);
    assert c.ending == ending && c.status == s;
    var p := RunPipe(o, fuel, list.first, inner, before);
    var first := RunExemptible(o, fuel, list.first, negated, scope, state);
    assert first.ending == ending && first.status == if negated then (if s == 0 then 1 else 0) else s;
    assert RunRest(o, fuel, Nil, first.status, scope, first.state) == Outcome(Normal, first.status, first.state);
  }

  /** A subshell that cannot be forked is an error. */
  lemma ForkFails(o: Oracle, fuel: nat, prep: nat, fork: nat, body: Body, e: Failure, scope: Scope, state: State)
    requires Calm(o) && Prepares(o, prep)
    requires forall t {:trigger o.forkError(fork, t)} :: o.forkError(fork, t) == Some(e)
    ensures RunBody(o, fuel, Body1(Group(prep, Subshell(fork, body))), 0, scope, state)
         == Outcome(ErrorEnding(e, false, scope.interactive), e.code,
                    Now(state, [Step(Prepared, prep), Step(Forked, fork)], e.code))
  {
    var kind, start := Subshell(fork, body), Now(state, Event1(Prepared, prep), state.last);
    assert o.forkError(fork, start.trace) == Some(e);
    var now := After(start, Forked, fork);
    assert RunKind(o, fuel, kind, scope, start) == Tried(Outcome(Normal, 0, now), Some(e));
    GroupFails(o, fuel, prep, kind, scope, state, Outcome(Normal, 0, now), e);
    assert now.trace == state.trace + [Step(Prepared, prep), Step(Forked, fork)];
  }

  /** `! return n` returns n: what `!` makes of the status is not what the
      function ends with. */
  lemma NegatedReturn(o: Oracle, fuel: nat, prep: nat, x: nat, n: int, scope: Scope, state: State)
    requires Calm(o) && Prepares(o, prep) && Says(o, x, ReturnCommand(Number(n))) && !state.exempt
    ensures var body := Body1(Listed(AndOr(Pipe(true, Simple(x)), Nil)));
            var r := RunCall(o, fuel, Compound(prep, Brace(body)), scope, state);
            r.ending == Normal && r.status == n % 256
  {
    var inner, list := Scope(0, scope.quiet, true, scope.interactive), AndOr(Pipe(true, Simple(x)), Nil);
    var body, start := Body1(Listed(list)), Now(state, Event1(Prepared, prep), state.last);
    assert o.prepare(prep, state.trace, state.last).None? && After(state, Prepared, prep) == start;
    assert !o.noexec(start.trace);
    assert o.simple(x, start.trace, start.last).dispatch == ReturnCommand(Number(n));
    assert RunSimple(o, fuel, Simple(x), Quiet(inner), start).ending == Return(n % 256);
    assert RunCommand(o, fuel, Simple(x), Quiet(inner), start).ending == Return(n % 256);
    assert RunPipe(o, fuel, list.first, Quiet(inner), start).ending == Return(n % 256);
    assert RunExemptible(o, fuel, list.first, true, inner, start).ending == Return(n % 256);
    ListRuns(o, fuel, list, inner, start);
    assert RunKind(o, fuel, Brace(body), inner, start) == Tried(RunBody(o, fuel, body, 0, inner, start), None);
  }

  /** At the nesting limit a call is a fatal error of status 1. */
  lemma LimitReached(o: Oracle, f: nat, code: Code, rest: Body, scope: Scope, state: State)
    requires Calm(o) && Says(o, f, Nested(code))
    ensures var r := RunBody(o, 0, Cons(Cmd(f), rest), 0, scope, state);
            r.ending == Fatal && r.status == 1 && r.state.trace == state.trace + Event1(Ran, f)
  {
    CmdRuns(o, 0, f, scope, state);
    assert o.simple(f, state.trace, state.last).dispatch == Nested(code);
    BodyStep(o, 0, Cmd(f), rest, 0, scope, state);
  }

  /** Words that raise a fatal error: no body runs and the error stays. */
  lemma WordsFatal(o: Oracle, fuel: nat, prep: nat, w: nat, body: Body, items: List<CaseItem>, isFor: bool,
                   scope: Scope, state: State)
    requires Calm(o) && Prepares(o, prep)
    requires isFor ==> forall t, last {:trigger o.words(w, t, last)} ::
               o.words(w, t, last).result.Ok? && o.words(w, t, last).fatal
    requires !isFor ==> forall t, last {:trigger o.word(w, t, last)} :: o.word(w, t, last) == Words(Ok(()), true)
    ensures RunBody(o, fuel, Body1(Group(prep, if isFor then For(w, body) else Case(w, items))), 0, scope, state)
         == Outcome(Fatal, 1, Now(state, ForEvents(prep, w), 1))
  {
    var kind, start := if isFor then For(w, body) else Case(w, items), Now(state, Event1(Prepared, prep), state.last);
    NowNow(state, Event1(Prepared, prep), state.last, Event1(Expanded, w), 1);
    assert Event1(Prepared, prep) + Event1(Expanded, w) == ForEvents(prep, w);
    if isFor {
      assert o.words(w, start.trace, start.last).fatal && o.words(w, start.trace, start.last).result.Ok?;
    } else {
      assert o.word(w, start.trace, start.last) == Words(Ok(()), true);
    }
    assert RunKind(o, fuel, kind, scope, start)
        == Tried(Outcome(Fatal, 1, WithLast(After(start, Expanded, w), 1)), None);
    GroupRuns(o, fuel, prep, kind, scope, state);
    BodyOne(o, fuel, Group(prep, kind), 0, scope, state);
  }

  /** A subshell is not interactive, whatever the shell is: there an error that
      ends such shells ends it, and nothing behind runs. */
  lemma SubshellsAreNot(o: Oracle, fuel: nat, prep: nat, fork: nat, failing: nat, kind: Kind, e: Failure, rest: Body,
                        scope: Scope, state: State)
    requires Calm(o) && Prepares(o, prep) && e.exits
    requires forall t, last {:trigger o.prepare(failing, t, last)} :: o.prepare(failing, t, last) == Some((e, false))
    requires forall t {:trigger o.forkError(fork, t)} :: o.forkError(fork, t).None?
    requires forall t {:trigger o.waitFails(fork, t)} :: !o.waitFails(fork, t)
    ensures var group := Group(prep, Subshell(fork, Cons(Group(failing, kind), rest)));
            var r := RunBody(o, fuel, Body1(group), 0, scope, state);
            var child := state.trace + [Step(Prepared, prep), Step(Forked, fork), Step(Prepared, failing)];
            && r.ending == Normal && r.status == e.code % 256
            && r.state.trace == state.trace + [Step(Prepared, prep), Step(Forked, fork), Child(child)]
  {
    var start := Now(state, Event1(Prepared, prep), state.last);
    var forked, inner := After(start, Forked, fork), scope.(interactive := false);
    var body, kind' := Cons(Group(failing, kind), rest), Subshell(fork, Cons(Group(failing, kind), rest));
    assert o.prepare(failing, forked.trace, forked.last) == Some((e, false)) && o.forkError(fork, start.trace).None?;
    ItemRuns(o, fuel, Grouped(Compound(failing, kind)), inner, forked);
    assert !o.noexec(forked.trace);
    BodyStep(o, fuel, Group(failing, kind), rest, 0, inner, forked);
    var child := state.trace + [Step(Prepared, prep), Step(Forked, fork), Step(Prepared, failing)];
    assert forked.trace + Event1(Prepared, failing) == child;
    var after := forked.(trace := forked.trace + [Child(child)]);
    assert !o.waitFails(fork, after.trace);
    assert RunSubshell(o, fuel, kind', scope, start) == Tried(Outcome(Normal, e.code % 256, after), None);
    GroupRuns(o, fuel, prep, kind', scope, state);
    BodyOne(o, fuel, Group(prep, kind'), 0, scope, state);
    assert after.trace == state.trace + [Step(Prepared, prep), Step(Forked, fork), Child(child)];
  }
}
