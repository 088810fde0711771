/** Where `set -e` ends the shell, and where it does not. */
module ErrexitLaws {
  import opened Prelude
  import opened ExecSpec
  import opened ExecLaws
  import opened CommandLaws

  // ----- set -e -----

  /** `set -e` is on, `set -n` is not. */
  ghost predicate Strict(o: Oracle) {
    forall t: Trace {:trigger o.errexit(t)} {:trigger o.noexec(t)} :: o.errexit(t) && !o.noexec(t)
  }

  /** An AND-OR list and the commands behind it, under `set -e`. */
  lemma StrictList(o: Oracle, fuel: nat, list: AndOr, rest: Body, scope: Scope, state: State)
    requires Strict(o) && !scope.quiet
    ensures var r := RunAndOr(o, fuel, list, scope, state);
            RunBody(o, fuel, Cons(Listed(list), rest), 0, scope, state) ==
            if !r.ending.Normal? then r.(state := WithLast(r.state, r.status))
            else if r.status != 0 && !r.state.exempt then Outcome(Quit(r.status), r.status, WithLast(r.state, r.status))
            else RunBody(o, fuel, rest, r.status, scope, WithLast(r.state, r.status))
  {
    assert !o.noexec(state.trace);
    var r := RunAndOr(o, fuel, list, scope, state);
    assert o.errexit(r.state.trace);
    var c := Checked(o, scope, r);
    assert RunItems(o, fuel, Nil, c.status, scope, c.state) == Outcome(Normal, c.status, c.state);
    assert RunItems(o, fuel, Listed(list), 0, scope, state) == c;
  }

  /** A command that fails ends the shell with its status: nothing behind it runs. */
  lemma FailureEnds(o: Oracle, fuel: nat, t: nat, s: int, rest: Body, scope: Scope, state: State)
    requires Strict(o) && !scope.quiet && Tells(o, t, Constant(s)) && s != 0
    ensures RunBody(o, fuel, Cons(Cmd(t), rest), 0, scope, state)
         == Outcome(Quit(s), s, Now(state, Event1(Ran, t), s))
  {
    assert !o.noexec(state.trace);
    PlainList(o, fuel, t, s, false, scope, state);
    StrictList(o, fuel, AndOr(Pipe(false, Simple(t)), Nil), rest, scope, state);
  }

  /** One that succeeds, and any negated one, does not. */
  lemma SuccessGoesOn(o: Oracle, fuel: nat, t: nat, s: int, negated: bool, d: nat, scope: Scope, state: State)
    requires Strict(o) && !scope.quiet && Tells(o, t, Constant(s)) && Tells(o, d, Constant(0)) && (negated || s == 0)
    ensures var first := Listed(AndOr(Pipe(negated, Simple(t)), Nil));
            RunBody(o, fuel, Body2(first, Cmd(d)), 0, scope, state)
              == Outcome(Normal, 0, Now(state, [Step(Ran, t), Step(Ran, d)], 0))
  {
    var status := if negated then (if s == 0 then 1 else 0) else s;
    var now := State(status, negated, state.trace + Event1(Ran, t), state.cut);
    assert !o.noexec(state.trace);
    PlainList(o, fuel, t, s, negated, scope, state);
    StrictList(o, fuel, AndOr(Pipe(negated, Simple(t)), Nil), Body1(Cmd(d)), scope, state);
    LastRuns(o, fuel, d, status, scope, now);
    Assoc(state.trace, Event1(Ran, t), Event1(Ran, d));
    assert Event1(Ran, t) + Event1(Ran, d) == [Step(Ran, t), Step(Ran, d)];
  }

  lemma LastRuns(o: Oracle, fuel: nat, d: nat, status: int, scope: Scope, state: State)
    requires Strict(o) && !scope.quiet && Tells(o, d, Constant(0))
    ensures RunBody(o, fuel, Body1(Cmd(d)), status, scope, state) == Outcome(Normal, 0, Now(state, Event1(Ran, d), 0))
  {
    assert !o.noexec(state.trace);
    PlainList(o, fuel, d, 0, false, scope, state);
    StrictList(o, fuel, AndOr(Pipe(false, Simple(d)), Nil), Nil, scope, state);
    assert RunBody(o, fuel, Body1(Cmd(d)), status, scope, state) == RunBody(o, fuel, Body1(Cmd(d)), 0, scope, state);
  }

  /** Of an AND-OR list only the last command can end the shell. */
  lemma OnlyTheLastEnds(o: Oracle, fuel: nat, t: nat, s: int, op: Op, a: nat, sa: int, d: nat, scope: Scope,
                        state: State)
    requires Strict(o) && !scope.quiet
    requires Tells(o, t, Constant(s)) && Tells(o, a, Constant(sa)) && Tells(o, d, Constant(0))
    ensures var runs := if op == AndIf then s == 0 else s != 0;
            var events := if runs then [Step(Ran, t), Step(Ran, a)] else [Step(Ran, t)];
            RunBody(o, fuel, Body2(Two(t, op, a), Cmd(d)), 0, scope, state)
              == if runs && sa != 0 then Outcome(Quit(sa), sa, Now(state, events, sa))
                 else Outcome(Normal, 0, Now(state, events + [Step(Ran, d)], 0))
  {
    var list := Two(t, op, a).head.andOr;
    var runs := if op == AndIf then s == 0 else s != 0;
    var first := State(s, true, state.trace + Event1(Ran, t), state.cut);
    var second := State(sa, false, state.trace + [Step(Ran, t), Step(Ran, a)], state.cut);
    assert !o.noexec(state.trace) && !o.noexec(first.trace);
    PlainPipe(o, fuel, t, s, true, false, scope, state);
    PlainPipe(o, fuel, a, sa, false, false, scope, first);
    Assoc(state.trace, Event1(Ran, t), Event1(Ran, a));
    assert Event1(Ran, t) + Event1(Ran, a) == [Step(Ran, t), Step(Ran, a)];
    assert RunRest(o, fuel, Nil, sa, scope, second) == Outcome(Normal, sa, second);
    assert RunRest(o, fuel, Nil, s, scope, first) == Outcome(Normal, s, first);
    RestStep(o, fuel, list.rest.head, Nil, s, scope, first);
    var now := if runs then second else first;
    assert RunAndOr(o, fuel, list, scope, state) == Outcome(Normal, now.last, now);
    StrictList(o, fuel, list, Body1(Cmd(d)), scope, state);
    LastRuns(o, fuel, d, now.last, scope, now);
    var events := if runs then [Step(Ran, t), Step(Ran, a)] else [Step(Ran, t)];
    Assoc(state.trace, events, Event1(Ran, d));
  }

  /** A failing condition does not end the shell. */
  lemma ConditionSpared(o: Oracle, fuel: nat, prep: nat, t: nat, s: int, part: Body, d: nat, scope: Scope, state: State)
    requires Strict(o) && !scope.quiet && Prepares(o, prep)
    requires Tells(o, t, Constant(s)) && s != 0 && Tells(o, d, Constant(0))
    ensures RunBody(o, fuel, Body2(Group(prep, If(Body1(Cmd(t)), part, Else(None))), Cmd(d)), 0, scope, state)
         == Outcome(Normal, 0, Now(state, [Step(Prepared, prep), Step(Ran, t), Step(Ran, d)], 0))
  {
    var kind := If(Body1(Cmd(t)), part, Else(None));
    var start := Now(state, Event1(Prepared, prep), state.last);
    var now := Now(start, Event1(Ran, t), s);
    QuietRuns(o, fuel, t, s, scope, start);
    assert RunOthers(o, fuel, Else(None), scope, now) == Outcome(Normal, 0, now);
    assert RunIf(o, fuel, kind, scope, start) == Outcome(Normal, 0, now);
    StrictGroup(o, fuel, prep, kind, Body1(Cmd(d)), scope, state, Outcome(Normal, 0, now));
    LastRuns(o, fuel, d, 0, scope, WithLast(now, 0));
    ThreeSteps(state, Event1(Prepared, prep), state.last, Event1(Ran, t), s, Event1(Ran, d), 0);
    assert Event1(Prepared, prep) + Event1(Ran, t) + Event1(Ran, d)
        == [Step(Prepared, prep), Step(Ran, t), Step(Ran, d)];
  }

  lemma ThreeSteps(state: State, a: Trace, r: int, b: Trace, s: int, c: Trace, t: int)
    ensures Now(WithLast(Now(Now(state, a, r), b, s), t), c, t) == Now(state, a + b + c, t)
  {
    NowNow(state, a, r, b, s);
    NowNow(state, a + b, s, c, t);
  }

  lemma QuietRuns(o: Oracle, fuel: nat, t: nat, s: int, scope: Scope, state: State)
    requires Strict(o) && Tells(o, t, Constant(s))
    ensures RunBody(o, fuel, Body1(Cmd(t)), 0, Quiet(scope), state) == Outcome(Normal, s, Now(state, Event1(Ran, t), s))
  {
    assert !o.noexec(state.trace);
    PlainList(o, fuel, t, s, false, Quiet(scope), state);
    var r := Outcome(Normal, s, Now(state, Event1(Ran, t), s));
    assert RunItems(o, fuel, Nil, s, Quiet(scope), r.state) == r;
    assert RunItems(o, fuel, Cmd(t), 0, Quiet(scope), state) == r;
    BodyEnd(o, fuel, s, Quiet(scope), r.state);
  }

  lemma StrictGroup(o: Oracle, fuel: nat, prep: nat, kind: Kind, rest: Body, scope: Scope, state: State, r: Outcome)
    requires Strict(o) && !scope.quiet && Prepares(o, prep) && r.ending == Normal && r.status == 0
    requires RunKind(o, fuel, kind, scope, Now(state, Event1(Prepared, prep), state.last)) == Tried(r, None)
    ensures RunBody(o, fuel, Cons(Group(prep, kind), rest), 0, scope, state)
         == RunBody(o, fuel, rest, 0, scope, WithLast(r.state, 0))
  {
    var list := AndOr(Pipe(false, Grouped(Compound(prep, kind))), Nil);
    GroupList(o, fuel, prep, kind, scope, state, r);
    SuccessStep(o, fuel, list, rest, scope, state, r.(state := WithLast(r.state, 0)));
    assert Group(prep, kind) == Listed(list);
  }

  lemma SuccessStep(o: Oracle, fuel: nat, list: AndOr, rest: Body, scope: Scope, state: State, r: Outcome)
    requires Strict(o) && !scope.quiet && r.ending == Normal && r.status == 0 && r.state.last == 0
    requires RunAndOr(o, fuel, list, scope, state) == r
    ensures RunBody(o, fuel, Cons(Listed(list), rest), 0, scope, state) == RunBody(o, fuel, rest, 0, scope, r.state)
  {
    StrictList(o, fuel, list, rest, scope, state);
    assert WithLast(r.state, 0) == r.state;
  }

  lemma GroupList(o: Oracle, fuel: nat, prep: nat, kind: Kind, scope: Scope, state: State, r: Outcome)
    requires Strict(o) && Prepares(o, prep) && r.ending == Normal
    requires RunKind(o, fuel, kind, scope, Now(state, Event1(Prepared, prep), state.last)) == Tried(r, None)
    ensures RunAndOr(o, fuel, AndOr(Pipe(false, Grouped(Compound(prep, kind))), Nil), scope, state)
         == r.(state := WithLast(r.state, r.status))
  {
    var c, after := Grouped(Compound(prep, kind)), WithLast(r.state, r.status);
    GroupCommand(o, fuel, prep, kind, scope, state, r);
    assert RunPipe(o, fuel, Pipe(false, c), scope, state.(exempt := false)) == Outcome(Normal, r.status, after);
    assert RunExemptible(o, fuel, Pipe(false, c), false, scope, state) == Outcome(Normal, r.status, after);
    assert RunRest(o, fuel, Nil, r.status, scope, after) == Outcome(Normal, r.status, after);
  }

  lemma GroupCommand(o: Oracle, fuel: nat, prep: nat, kind: Kind, scope: Scope, state: State, r: Outcome)
    requires Strict(o) && Prepares(o, prep)
    requires RunKind(o, fuel, kind, scope, Now(state, Event1(Prepared, prep), state.last)) == Tried(r, None)
    ensures RunCommand(o, fuel, Grouped(Compound(prep, kind)), scope, state.(exempt := false))
         == r.(state := WithLast(r.state, r.status))
  {
    assert !o.noexec(state.trace) && o.prepare(prep, state.trace, state.last).None?;
    assert After(state.(exempt := false), Prepared, prep) == Now(state, Event1(Prepared, prep), state.last);
  }

  // ----- what the exemption crosses -----

  /** The failing first command of `t && a` at the end of `{ …; }` does not end
      the shell either: the group's status is exempt like the list's. */
  lemma GroupKeepsExemption(o: Oracle, fuel: nat, prep: nat, t: nat, s: int, a: nat, sa: int, d: nat, scope: Scope,
                            state: State)
    requires Strict(o) && !scope.quiet && Prepares(o, prep)
    requires Tells(o, t, Constant(s)) && s != 0 && Tells(o, a, Constant(sa)) && Tells(o, d, Constant(0))
    ensures RunBody(o, fuel, Body2(Group(prep, Brace(Body1(Two(t, AndIf, a)))), Cmd(d)), 0, scope, state)
         == Outcome(Normal, 0, Now(state, [Step(Prepared, prep), Step(Ran, t), Step(Ran, d)], 0))
  {
    var start := Now(state, Event1(Prepared, prep), state.last);
    var kind, now := Brace(Body1(Two(t, AndIf, a))), State(s, true, start.trace + Event1(Ran, t), state.cut);
    ExemptList(o, fuel, t, s, a, sa, scope, start);
    var list := AndOr(Pipe(false, Grouped(Compound(prep, kind))), Nil);
    assert RunKind(o, fuel, kind, scope, start) == Tried(Outcome(Normal, s, now), None);
    GroupList(o, fuel, prep, kind, scope, state, Outcome(Normal, s, now));
    StrictList(o, fuel, list, Body1(Cmd(d)), scope, state);
    LastRuns(o, fuel, d, s, scope, now);
    assert state.trace + Event1(Prepared, prep) + Event1(Ran, t) + Event1(Ran, d)
        == state.trace + [Step(Prepared, prep), Step(Ran, t), Step(Ran, d)];
  }

  lemma ExemptList(o: Oracle, fuel: nat, t: nat, s: int, a: nat, sa: int, scope: Scope, state: State)
    requires Strict(o) && !scope.quiet && Tells(o, t, Constant(s)) && s != 0 && Tells(o, a, Constant(sa))
    ensures RunBody(o, fuel, Body1(Two(t, AndIf, a)), 0, scope, state)
         == Outcome(Normal, s, State(s, true, state.trace + Event1(Ran, t), state.cut))
  {
    var list := Two(t, AndIf, a).head.andOr;
    var now := State(s, true, state.trace + Event1(Ran, t), state.cut);
    assert !o.noexec(state.trace);
    PlainPipe(o, fuel, t, s, true, false, scope, state);
    assert RunRest(o, fuel, Nil, s, scope, now) == Outcome(Normal, s, now);
    RestStep(o, fuel, list.rest.head, Nil, s, scope, now);
    assert RunAndOr(o, fuel, list, scope, state) == Outcome(Normal, s, now);
    StrictList(o, fuel, list, Nil, scope, state);
  }

  /** It does not cross a call: a function whose body ends like that has failed. */
  lemma CallDropsExemption(o: Oracle, fuel: nat, prep: nat, t: nat, s: int, a: nat, sa: int, scope: Scope, state: State)
    requires Strict(o) && !scope.quiet && Prepares(o, prep) && !state.exempt
    requires Tells(o, t, Constant(s)) && s != 0 && Tells(o, a, Constant(sa))
    ensures RunCall(o, fuel, Compound(prep, Brace(Body1(Two(t, AndIf, a)))), scope, state)
         == Outcome(Normal, s, Now(state, [Step(Prepared, prep), Step(Ran, t)], s))
  {
    var inner, start := Scope(0, scope.quiet, true, scope.interactive), Now(state, Event1(Prepared, prep), state.last);
    var kind := Brace(Body1(Two(t, AndIf, a)));
    ExemptList(o, fuel, t, s, a, sa, inner, start);
    assert o.prepare(prep, state.trace, state.last).None? && After(state, Prepared, prep) == start;
    assert RunKind(o, fuel, kind, inner, start)
        == Tried(Outcome(Normal, s, State(s, true, start.trace + Event1(Ran, t), state.cut)), None);
    assert state.trace + Event1(Prepared, prep) + Event1(Ran, t) == state.trace + [Step(Prepared, prep), Step(Ran, t)];
  }

  /** A pipeline of several members is one step; under `set -e` its failure ends
      the shell like a command's. */
  lemma PipelineRuns(o: Oracle, fuel: nat, m: nat, rest: Body, scope: Scope, state: State)
    requires Strict(o) && !scope.quiet
    ensures var s := o.multi(m, state.trace, state.last);
            var r := RunBody(o, fuel, Cons(One(Multi(m)), rest), 0, scope, state);
            s != 0 ==> r == Outcome(Quit(s), s, Now(state, Event1(Piped, m), s))
    ensures var s := o.multi(m, state.trace, state.last);
            var r := RunBody(o, fuel, Body1(One(Multi(m))), 0, scope, state);
            s == 0 ==> r == Outcome(Normal, s, Now(state, Event1(Piped, m), s))
  {
    var list, s := AndOr(Pipe(false, Multi(m)), Nil), o.multi(m, state.trace, state.last);
    var before := state.(exempt := false);
    var now := Now(state, Event1(Piped, m), s);
    assert RunCommand(o, fuel, Multi(m), scope, before) == Outcome(Normal, s, After(before, Piped, m));
    assert RunPipe(o, fuel, Pipe(false, Multi(m)), scope, before) == Outcome(Normal, s, now);
    assert RunExemptible(o, fuel, Pipe(false, Multi(m)), false, scope, state) == Outcome(Normal, s, now);
    assert RunRest(o, fuel, Nil, s, scope, now) == Outcome(Normal, s, now);
    assert RunAndOr(o, fuel, list, scope, state) == Outcome(Normal, s, now);
    StrictList(o, fuel, list, rest, scope, state);
    StrictList(o, fuel, list, Nil, scope, state);
  }
}
