/** What lists, `if`, `case` and evaluated texts do, by the events they leave. */
module CommandLaws {
  import opened Prelude
  import opened ExecSpec
  import opened ExecLaws

  // ----- if -----

  /** The body of the first condition of status 0 runs, or else the `else` part;
      without one the status is 0. */
  lemma IfRuns(o: Oracle, fuel: nat, prep: nat, t: nat, st: Trace -> int, a: nat, sa: int, e: Option<nat>, se: int,
               scope: Scope, state: State)
    requires Calm(o) && Prepares(o, prep) && Tells(o, t, st) && Tells(o, a, Constant(sa))
    requires e.Some? ==> Tells(o, e.value, Constant(se))
    ensures var others := Else(if e.Some? then Some(Body1(Cmd(e.value))) else None);
            var yes := st(state.trace + Event1(Prepared, prep)) == 0;
            var events := if yes then Event1(Ran, a) else if e.Some? then Event1(Ran, e.value) else [];
            var status := if yes then sa else if e.Some? then se else 0;
            RunBody(o, fuel, Body1(Group(prep, If(Body1(Cmd(t)), Body1(Cmd(a)), others))), 0, scope, state)
              == Outcome(Normal, status, Now(state, Event1(Prepared, prep) + Event1(Ran, t) + events, status))
  {
    var others := Else(if e.Some? then Some(Body1(Cmd(e.value))) else None);
    var start := Now(state, Event1(Prepared, prep), state.last);
    var now := Now(start, Event1(Ran, t), st(start.trace));
    var kind := If(Body1(Cmd(t)), Body1(Cmd(a)), others);
    ConditionRuns(o, fuel, t, st, scope, start);
    PartRuns(o, fuel, a, sa, scope, now);
    if e.Some? { PartRuns(o, fuel, e.value, se, scope, now); }
    assert !(st(start.trace) == 0) ==> RunIf(o, fuel, kind, scope, start) == RunOthers(o, fuel, others, scope, now);
    GroupRuns(o, fuel, prep, kind, scope, state);
    BodyOne(o, fuel, Group(prep, kind), 0, scope, state);
    NowNow(state, Event1(Prepared, prep), state.last, Event1(Ran, t), st(start.trace));
    var both := Event1(Prepared, prep) + Event1(Ran, t);
    NowNow(state, both, st(start.trace), Event1(Ran, a), sa);
    if e.Some? { NowNow(state, both, st(start.trace), Event1(Ran, e.value), se); }
    assert both + [] == both;
  }

  lemma ConditionRuns(o: Oracle, fuel: nat, t: nat, st: Trace -> int, scope: Scope, state: State)
    requires Calm(o) && Tells(o, t, st)
    ensures RunBody(o, fuel, Body1(Cmd(t)), 0, Quiet(scope), state)
         == Outcome(Normal, st(state.trace), Now(state, Event1(Ran, t), st(state.trace)))
  {
    PlainRuns(o, fuel, t, st, Quiet(scope), state);
    BodyOne(o, fuel, Cmd(t), 0, Quiet(scope), state);
  }

  lemma PartRuns(o: Oracle, fuel: nat, a: nat, s: int, scope: Scope, state: State)
    requires Calm(o) && Tells(o, a, Constant(s))
    ensures RunBody(o, fuel, Body1(Cmd(a)), 0, scope, state) == Outcome(Normal, s, Now(state, Event1(Ran, a), s))
  {
    PlainRuns(o, fuel, a, Constant(s), scope, state);
    BodyOne(o, fuel, Cmd(a), 0, scope, state);
  }

  /** An `elif` is tried after a condition that failed, and only then. */
  lemma ElifRuns(o: Oracle, fuel: nat, prep: nat, t: nat, st: Trace -> int, a: nat, sa: int,
                 u: nat, su: Trace -> int, b: nat, sb: int, scope: Scope, state: State)
    requires Calm(o) && Prepares(o, prep) && Tells(o, t, st) && Tells(o, a, Constant(sa))
    requires Tells(o, u, su) && Tells(o, b, Constant(sb))
    ensures var others := Elif(Body1(Cmd(u)), Body1(Cmd(b)), Else(None));
            var first := Event1(Prepared, prep) + Event1(Ran, t);
            var yes := st(state.trace + Event1(Prepared, prep)) == 0;
            var again := su(state.trace + first) == 0;
            var events := if yes then Event1(Ran, a)
                          else if again then [Step(Ran, u), Step(Ran, b)] else Event1(Ran, u);
            var status := if yes then sa else if again then sb else 0;
            RunBody(o, fuel, Body1(Group(prep, If(Body1(Cmd(t)), Body1(Cmd(a)), others))), 0, scope, state)
              == Outcome(Normal, status, Now(state, first + events, status))
  {
    var others := Elif(Body1(Cmd(u)), Body1(Cmd(b)), Else(None));
    var start := Now(state, Event1(Prepared, prep), state.last);
    var now := Now(start, Event1(Ran, t), st(start.trace));
    var later := Now(now, Event1(Ran, u), su(now.trace));
    var kind, first := If(Body1(Cmd(t)), Body1(Cmd(a)), others), Event1(Prepared, prep) + Event1(Ran, t);
    ConditionRuns(o, fuel, t, st, scope, start);
    PartRuns(o, fuel, a, sa, scope, now);
    ConditionRuns(o, fuel, u, su, scope, now);
    PartRuns(o, fuel, b, sb, scope, later);
    assert RunOthers(o, fuel, Else(None), scope, later) == Outcome(Normal, 0, later);
    assert !(st(start.trace) == 0) ==> RunIf(o, fuel, kind, scope, start) == RunOthers(o, fuel, others, scope, now);
    GroupRuns(o, fuel, prep, kind, scope, state);
    BodyOne(o, fuel, Group(prep, kind), 0, scope, state);
    NowNow(state, Event1(Prepared, prep), state.last, Event1(Ran, t), st(start.trace));
    NowNow(state, first, now.last, Event1(Ran, a), sa);
    NowNow(state, first, now.last, Event1(Ran, u), later.last);
    NowNow(state, first + Event1(Ran, u), later.last, Event1(Ran, b), sb);
    Assoc(first, Event1(Ran, u), Event1(Ran, b));
    assert Event1(Ran, u) + Event1(Ran, b) == [Step(Ran, u), Step(Ran, b)];
  }

  // ----- && and || -----

  function Listed(list: AndOr): Complete { Cons(Item(list, false, 0), Nil) }

  /** `t && a`, `t || a` */
  function Two(t: nat, op: Op, a: nat): Complete {
    Listed(AndOr(Pipe(false, Simple(t)), Cons(Branch(op, Pipe(false, Simple(a))), Nil)))
  }

  lemma PlainPipe(o: Oracle, fuel: nat, id: nat, s: int, exempt: bool, negated: bool, scope: Scope, state: State)
    requires !o.noexec(state.trace) && Tells(o, id, Constant(s))
    ensures var status := if negated then (if s == 0 then 1 else 0) else s;
            RunExemptible(o, fuel, Pipe(negated, Simple(id)), exempt, scope, state)
              == Outcome(Normal, status, State(status, exempt, state.trace + Event1(Ran, id), state.cut))
  {
    var before := state.(exempt := false);
    assert o.simple(id, state.trace, state.last).dispatch == Other(Constant(s)(state.trace), false, None);
    var now := State(s, false, state.trace + Event1(Ran, id), state.cut);
    var inner := if exempt then Quiet(scope) else scope;
    assert RunSimple(o, fuel, Simple(id), inner, before) == Outcome(Normal, s, now.(exempt := false));
    assert RunCommand(o, fuel, Simple(id), inner, before) == Outcome(Normal, s, now);
    var status := if negated then (if s == 0 then 1 else 0) else s;
    assert RunPipe(o, fuel, Pipe(negated, Simple(id)), inner, before) == Outcome(Normal, status, WithLast(now, status));
  }

  /** `t && a` runs `a` after status 0 alone, `t || a` after any other. */
  lemma TwoRun(o: Oracle, fuel: nat, t: nat, s: int, op: Op, a: nat, sa: int, scope: Scope, state: State)
    requires Calm(o) && Tells(o, t, Constant(s)) && Tells(o, a, Constant(sa))
    ensures var runs := if op == AndIf then s == 0 else s != 0;
            var r := RunBody(o, fuel, Body1(Two(t, op, a)), 0, scope, state);
            && r.ending == Normal && r.status == r.state.last == (if runs then sa else s)
            && r.state.trace == state.trace + if runs then [Step(Ran, t), Step(Ran, a)] else [Step(Ran, t)]
  {
    TwoList(o, fuel, t, s, op, a, sa, scope, state);
    BodyOne(o, fuel, Two(t, op, a), 0, scope, state);
  }

  lemma TwoList(o: Oracle, fuel: nat, t: nat, s: int, op: Op, a: nat, sa: int, scope: Scope, state: State)
    requires Calm(o) && Tells(o, t, Constant(s)) && Tells(o, a, Constant(sa))
    ensures var runs := if op == AndIf then s == 0 else s != 0;
            var status := if runs then sa else s;
            var events := if runs then [Step(Ran, t), Step(Ran, a)] else [Step(Ran, t)];
            RunComplete(o, fuel, Two(t, op, a), scope, state)
              == Outcome(Normal, status, State(status, !runs, state.trace + events, state.cut))
  {
    var list := Two(t, op, a).head.andOr;
    var runs := if op == AndIf then s == 0 else s != 0;
    var first := State(s, true, state.trace + Event1(Ran, t), state.cut);
    assert !o.noexec(state.trace) && !o.noexec(first.trace);
    PlainPipe(o, fuel, t, s, true, false, scope, state);
    PlainPipe(o, fuel, a, sa, false, false, scope, first);
    Assoc(state.trace, Event1(Ran, t), Event1(Ran, a));
    assert Event1(Ran, t) + Event1(Ran, a) == [Step(Ran, t), Step(Ran, a)];
    var second := State(sa, false, state.trace + [Step(Ran, t), Step(Ran, a)], state.cut);
    assert RunRest(o, fuel, Nil, sa, scope, second) == Outcome(Normal, sa, second);
    assert RunRest(o, fuel, Nil, s, scope, first) == Outcome(Normal, s, first);
    assert RunRest(o, fuel, list.rest, s, scope, first)
        == if runs then Outcome(Normal, sa, second) else Outcome(Normal, s, first);
    var r := RunAndOr(o, fuel, list, scope, state);
    assert r == if runs then Outcome(Normal, sa, second) else Outcome(Normal, s, first);
    assert !o.errexit(r.state.trace);
    assert RunItems(o, fuel, Nil, r.status, scope, r.state) == Outcome(Normal, r.status, r.state);
  }

  /** `t op a op e`: each looks at the status of the last command that ran. */
  function Three(t: nat, op: Op, a: nat, next: Op, e: nat): Complete {
    Listed(AndOr(Pipe(false, Simple(t)),
      Cons(Branch(op, Pipe(false, Simple(a))), Cons(Branch(next, Pipe(false, Simple(e))), Nil))))
  }

  lemma ThreeRun(o: Oracle, fuel: nat, t: nat, s: int, op: Op, a: nat, sa: int, next: Op, e: nat, se: int,
                 scope: Scope, state: State)
    requires Calm(o) && Tells(o, t, Constant(s)) && Tells(o, a, Constant(sa)) && Tells(o, e, Constant(se))
    ensures var second := if op == AndIf then s == 0 else s != 0;
            var so := if second then sa else s;
            var third := if next == AndIf then so == 0 else so != 0;
            var r := RunBody(o, fuel, Body1(Three(t, op, a, next, e)), 0, scope, state);
            && r.ending == Normal && r.status == (if third then se else so)
            && r.state.trace == state.trace + Event1(Ran, t) + (if second then Event1(Ran, a) else [])
                                + if third then Event1(Ran, e) else []
  {
    var list := Three(t, op, a, next, e).head.andOr;
    var second := if op == AndIf then s == 0 else s != 0;
    var so := if second then sa else s;
    var first := State(s, true, state.trace + Event1(Ran, t), state.cut);
    var after := if second then State(sa, true, first.trace + Event1(Ran, a), state.cut) else first;
    var last := State(se, false, after.trace + Event1(Ran, e), state.cut);
    assert !o.noexec(state.trace) && !o.noexec(first.trace) && !o.noexec(after.trace);
    PlainPipe(o, fuel, t, s, true, false, scope, state);
    PlainPipe(o, fuel, a, sa, true, false, scope, first);
    PlainPipe(o, fuel, e, se, false, false, scope, after);
    assert RunRest(o, fuel, Nil, se, scope, last) == Outcome(Normal, se, last);
    assert RunRest(o, fuel, Nil, so, scope, after) == Outcome(Normal, so, after);
    RestStep(o, fuel, list.rest.head, list.rest.tail, s, scope, first);
    RestStep(o, fuel, list.rest.tail.head, Nil, so, scope, after);
    ListRuns(o, fuel, list, scope, state);
  }

  lemma RestStep(o: Oracle, fuel: nat, branch: Branch, more: List<Branch>, status: int, scope: Scope, state: State)
    ensures RunRest(o, fuel, Cons(branch, more), status, scope, state) ==
            if (status == 0) != branch.op.AndIf? then RunRest(o, fuel, more, status, scope, state) else
              var r := RunExemptible(o, fuel, branch.pipe, branch.pipe.negated || more.Cons?, scope, state);
              if r.ending.Normal? then RunRest(o, fuel, more, r.status, scope, r.state) else r
  {
  }

  lemma ListRuns(o: Oracle, fuel: nat, list: AndOr, scope: Scope, state: State)
    requires Calm(o)
    ensures var r := RunAndOr(o, fuel, list, scope, state);
            var s := RunBody(o, fuel, Body1(Listed(list)), 0, scope, state);
            s.ending == r.ending && s.status == r.status && s.state.trace == r.state.trace
  {
    assert !o.noexec(state.trace);
    var r := RunAndOr(o, fuel, list, scope, state);
    assert !o.errexit(r.state.trace);
    assert RunItems(o, fuel, Nil, r.status, scope, r.state) == Outcome(Normal, r.status, r.state);
    BodyOne(o, fuel, Listed(list), 0, scope, state);
  }

  /** `! t` turns success into failure and any failure into success. */
  lemma NotRuns(o: Oracle, fuel: nat, t: nat, s: int, scope: Scope, state: State)
    requires Calm(o) && Tells(o, t, Constant(s))
    ensures var r := RunBody(o, fuel, Body1(Listed(AndOr(Pipe(true, Simple(t)), Nil))), 0, scope, state);
            && r.ending == Normal && r.status == (if s == 0 then 1 else 0)
            && r.state.trace == state.trace + Event1(Ran, t)
  {
    var list := AndOr(Pipe(true, Simple(t)), Nil);
    var status := if s == 0 then 1 else 0;
    assert !o.noexec(state.trace);
    PlainPipe(o, fuel, t, s, true, true, scope, state);
    var now := State(status, true, state.trace + Event1(Ran, t), state.cut);
    assert RunRest(o, fuel, Nil, status, scope, now) == Outcome(Normal, status, now);
    ListRuns(o, fuel, list, scope, state);
  }

  lemma PlainList(o: Oracle, fuel: nat, t: nat, s: int, negated: bool, scope: Scope, state: State)
    requires !o.noexec(state.trace) && Tells(o, t, Constant(s))
    ensures var status := if negated then (if s == 0 then 1 else 0) else s;
            RunAndOr(o, fuel, AndOr(Pipe(negated, Simple(t)), Nil), scope, state)
              == Outcome(Normal, status, State(status, negated, state.trace + Event1(Ran, t), state.cut))
  {
    var status := if negated then (if s == 0 then 1 else 0) else s;
    PlainPipe(o, fuel, t, s, negated, negated, scope, state);
    var now := State(status, negated, state.trace + Event1(Ran, t), state.cut);
    assert RunRest(o, fuel, Nil, status, scope, now) == Outcome(Normal, status, now);
  }

  // ----- several lists in one command -----

  /** `a; b`, `a & b` */
  function Line2(a: nat, async: bool, id: nat, b: nat): Complete {
    Cons(Item(AndOr(Pipe(false, Simple(a)), Nil), async, id), Cmd(b))
  }

  /** `a; b` on one line: both run; `a & b`: the first is only started. */
  lemma LineRuns(o: Oracle, fuel: nat, a: nat, s: int, async: bool, id: nat, b: nat, t: int, scope: Scope, state: State)
    requires Calm(o) && Tells(o, a, Constant(s)) && Tells(o, b, Constant(t))
    ensures var first := if async then Step(Started, id) else Step(Ran, a);
            RunBody(o, fuel, Body1(Line2(a, async, id, b)), 0, scope, state)
              == Outcome(Normal, t, Now(state, [first, Step(Ran, b)], t))
  {
    var first := if async then Step(Started, id) else Step(Ran, a);
    var list, line := AndOr(Pipe(false, Simple(a)), Nil), Line2(a, async, id, b);
    assert !o.noexec(state.trace);
    PlainList(o, fuel, a, s, false, scope, state);
    var r := if async then Outcome(Normal, o.start(id, state.trace, state.last), After(state, Started, id))
             else RunAndOr(o, fuel, list, scope, state);
    assert !o.errexit(r.state.trace) && !o.noexec(r.state.trace);
    LastItem(o, fuel, b, t, r.status, scope, r.state);
    assert r.state.trace == state.trace + [first];
    assert state.trace + [first] + Event1(Ran, b) == state.trace + [first, Step(Ran, b)];
    assert RunItems(o, fuel, line, 0, scope, state) == RunItems(o, fuel, Cmd(b), r.status, scope, r.state);
    BodyOne(o, fuel, line, 0, scope, state);
  }

  lemma LastItem(o: Oracle, fuel: nat, b: nat, t: int, status: int, scope: Scope, state: State)
    requires Calm(o) && Tells(o, b, Constant(t))
    ensures RunItems(o, fuel, Cmd(b), status, scope, state) == Outcome(Normal, t, Now(state, Event1(Ran, b), t))
  {
    assert !o.noexec(state.trace);
    PlainList(o, fuel, b, t, false, scope, state);
    var now := Now(state, Event1(Ran, b), t);
    assert !o.errexit(now.trace);
    assert RunItems(o, fuel, Nil, t, scope, now) == Outcome(Normal, t, now);
  }

  // ----- case -----

  /** Which patterns match. */
  ghost predicate Patterns(o: Oracle, p: nat, matches: bool) {
    forall t, last {:trigger o.pattern(p, t, last)} :: o.pattern(p, t, last) == Ok(matches)
  }

  ghost predicate CaseWord(o: Oracle, w: nat) {
    forall t, last {:trigger o.word(w, t, last)} :: o.word(w, t, last) == Words(Ok(()), false)
  }

  function CaseEvents(prep: nat, w: nat): Trace { [Step(Prepared, prep), Step(Expanded, w)] }

  lemma CaseRuns(o: Oracle, fuel: nat, prep: nat, w: nat, items: List<CaseItem>, scope: Scope, state: State, r: Outcome)
    requires Calm(o) && Prepares(o, prep) && CaseWord(o, w)
    requires RunItemsOfCase(o, fuel, items, false, 0, scope, Now(state, CaseEvents(prep, w), state.last))
          == Tried(r, None)
    ensures RunBody(o, fuel, Body1(Group(prep, Case(w, items))), 0, scope, state)
         == Outcome(r.ending, r.status, WithLast(r.state, r.status))
  {
    var kind, start := Case(w, items), Now(state, Event1(Prepared, prep), state.last);
    assert o.word(w, start.trace, start.last) == Words(Ok(()), false);
    NowNow(state, Event1(Prepared, prep), state.last, Event1(Expanded, w), state.last);
    assert Event1(Prepared, prep) + Event1(Expanded, w) == CaseEvents(prep, w);
    assert RunKind(o, fuel, kind, scope, start) == RunCase(o, fuel, kind, scope, start) == Tried(r, None);
    GroupRuns(o, fuel, prep, kind, scope, state);
    BodyOne(o, fuel, Group(prep, kind), 0, scope, state);
  }

  lemma TestRuns(o: Oracle, p: nat, matches: bool, state: State)
    requires Patterns(o, p, matches) && !state.exempt
    ensures MatchAny(o, Cons(p, Nil), state) == (Ok(matches), Now(state, Event1(Tested, p), state.last))
  {
    assert o.pattern(p, state.trace, state.last) == Ok(matches);
    assert After(state, Tested, p) == Now(state, Event1(Tested, p), state.last);
  }

  /** The first item whose pattern matches runs, and none else; with `;&` behind
      it the next one runs too, whatever its pattern. */
  lemma CaseOfTwo(o: Oracle, fuel: nat, prep: nat, w: nat, p: nat, yes: bool, a: nat, sa: int, falls: bool,
                  q: nat, also: bool, b: nat, sb: int, scope: Scope, state: State)
    requires Calm(o) && Prepares(o, prep) && CaseWord(o, w) && Patterns(o, p, yes) && Patterns(o, q, also)
    requires Tells(o, a, Constant(sa)) && Tells(o, b, Constant(sb))
    ensures var items := Cons(CaseItem(Cons(p, Nil), Body1(Cmd(a)), falls),
                              Cons(CaseItem(Cons(q, Nil), Body1(Cmd(b)), false), Nil));
            var tests := if yes then Event1(Tested, p) else [Step(Tested, p), Step(Tested, q)];
            var events := if yes then (if falls then [Step(Ran, a), Step(Ran, b)] else Event1(Ran, a))
                          else if also then Event1(Ran, b) else [];
            var status := if yes then (if falls then sb else sa) else if also then sb else 0;
            RunBody(o, fuel, Body1(Group(prep, Case(w, items))), 0, scope, state)
              == Outcome(Normal, status, Now(state, CaseEvents(prep, w) + tests + events, status))
  {
    var second := CaseItem(Cons(q, Nil), Body1(Cmd(b)), false);
    var first, start := CaseItem(Cons(p, Nil), Body1(Cmd(a)), falls), Now(state, CaseEvents(prep, w), state.last);
    var items, tested := Cons(first, Cons(second, Nil)), Now(start, Event1(Tested, p), start.last);
    TestRuns(o, p, yes, start);
    var events, status;
    if yes {
      PartRuns(o, fuel, a, sa, scope, tested);
      var ran := Now(tested, Event1(Ran, a), sa);
      PartRuns(o, fuel, b, sb, scope, ran);
      events := if falls then [Step(Ran, a), Step(Ran, b)] else Event1(Ran, a);
      status := if falls then sb else sa;
      assert Event1(Ran, a) + Event1(Ran, b) == [Step(Ran, a), Step(Ran, b)];
      NowNow(tested, Event1(Ran, a), sa, Event1(Ran, b), sb);
      assert RunItemsOfCase(o, fuel, Cons(second, Nil), true, sa, scope, ran)
          == Tried(Outcome(Normal, sb, Now(ran, Event1(Ran, b), sb)), None);
      NowNow(start, Event1(Tested, p), start.last, events, status);
      CaseRuns(o, fuel, prep, w, items, scope, state, Outcome(Normal, status, Now(tested, events, status)));
      NowNow(state, CaseEvents(prep, w), state.last, Event1(Tested, p) + events, status);
      Assoc(CaseEvents(prep, w), Event1(Tested, p), events);
    } else {
      var again := Now(tested, Event1(Tested, q), start.last);
      TestRuns(o, q, also, tested);
      PartRuns(o, fuel, b, sb, scope, again);
      events, status := if also then Event1(Ran, b) else [], if also then sb else 0;
      assert RunItemsOfCase(o, fuel, Nil, false, 0, scope, again) == Tried(Outcome(Normal, 0, again), None);
      assert RunItemsOfCase(o, fuel, Cons(second, Nil), false, 0, scope, tested)
          == Tried(Outcome(Normal, status, if also then Now(again, Event1(Ran, b), sb) else again), None);
      CaseRuns(o, fuel, prep, w, items, scope, state,
        Outcome(Normal, status, if also then Now(again, Event1(Ran, b), sb) else again));
      NowNow(start, Event1(Tested, p), start.last, Event1(Tested, q), start.last);
      assert Event1(Tested, p) + Event1(Tested, q) == [Step(Tested, p), Step(Tested, q)];
      var tests := [Step(Tested, p), Step(Tested, q)];
      NowNow(state, CaseEvents(prep, w), state.last, tests, state.last);
      NowNow(state, CaseEvents(prep, w) + tests, state.last, events, status);
      assert CaseEvents(prep, w) + tests + [] == CaseEvents(prep, w) + tests;
    }
  }

  // ----- texts: eval and dot -----

  /** A text of one command, ended by its end or by a syntax error. */
  ghost predicate Text1(o: Oracle, text: nat, c: Complete, last: Parsed) {
    && (forall t {:trigger o.parse(text, 0, t)} :: o.parse(text, 0, t) == Read(c))
    && (forall t {:trigger o.parse(text, 1, t)} :: o.parse(text, 1, t) == last)
  }

  lemma TextRuns(o: Oracle, fuel: nat, code: Code, c: Complete, last: Parsed, scope: Scope, state: State,
                 ending: Ending, s: int, events: Trace)
    requires !code.Call? && Text1(o, code.text, c, last) && !last.Read? && fuel > 1 && !state.exempt
    requires var now := Now(state, Event1(What.Parsed, code.text), state.last);
             RunComplete(o, fuel - 1, c, scope, now) == Outcome(ending, s, Now(now, events, s))
    ensures var parsed := Event1(What.Parsed, code.text);
            RunText(o, fuel, code, 0, 0, scope, state)
              == TextEnd(Outcome(ending, s, Now(state, parsed + events + if ending.Normal? then parsed else [], s)),
                         ending.Normal? && last.SyntaxError?)
  {
    var parsed := Event1(What.Parsed, code.text);
    var now := Now(state, parsed, state.last);
    var ran := Now(now, events, s);
    assert o.parse(code.text, 0, state.trace) == Read(c) && After(state, What.Parsed, code.text) == now;
    assert o.parse(code.text, 1, ran.trace) == last;
    NowNow(state, parsed, state.last, events, s);
    NowNow(state, parsed + events, s, parsed, s);
    assert After(ran, What.Parsed, code.text) == Now(ran, parsed, s);
    if ending.Normal? {
      assert RunText(o, fuel - 1, code, 1, s, scope, ran)
          == TextEnd(Outcome(Normal, s, Now(ran, parsed, s)), last.SyntaxError?);
    } else {
      assert parsed + events + [] == parsed + events;
    }
  }

  lemma NestedRuns(o: Oracle, fuel: nat, x: nat, code: Code, scope: Scope, state: State)
    requires Calm(o) && Says(o, x, Nested(code)) && fuel > 0
    ensures var last := o.simple(x, state.trace, state.last).last;
            var r := RunNested(o, fuel - 1, code, scope, Now(state, Event1(Ran, x), last));
            RunComplete(o, fuel, Cmd(x), scope, state)
              == Outcome(r.ending, r.status, r.state.(last := r.status, exempt := false))
  {
    assert o.simple(x, state.trace, state.last).dispatch == Nested(code);
    CmdRuns(o, fuel, x, scope, state);
  }

  /** `eval a` is `a`; with a syntax error behind it the status is 2. */
  lemma EvalRuns(o: Oracle, fuel: nat, x: nat, text: nat, a: nat, sa: int, last: Parsed, scope: Scope, state: State)
    requires Calm(o) && Says(o, x, Nested(Eval(text))) && Tells(o, a, Constant(sa)) && fuel > 2
    requires Text1(o, text, Cmd(a), last) && !last.Read?
    ensures var status, parsed := if last.SyntaxError? then 2 else sa, Step(What.Parsed, text);
            RunBody(o, fuel, Body1(Cmd(x)), 0, scope, state)
              == Outcome(Normal, status, Now(state, [Step(Ran, x), parsed, Step(Ran, a), parsed], status))
  {
    var status, parsed := if last.SyntaxError? then 2 else sa, Event1(What.Parsed, text);
    var start := Now(state, Event1(Ran, x), o.simple(x, state.trace, state.last).last);
    PlainRuns(o, fuel - 2, a, Constant(sa), scope, Now(start, parsed, start.last));
    TextRuns(o, fuel - 1, Eval(text), Cmd(a), last, scope, start, Normal, sa, Event1(Ran, a));
    NestedRuns(o, fuel, x, Eval(text), scope, state);
    BodyOne(o, fuel, Cmd(x), 0, scope, state);
    NowNow(state, Event1(Ran, x), start.last, parsed + Event1(Ran, a) + parsed, status);
    assert Event1(Ran, x) + (parsed + Event1(Ran, a) + parsed)
        == [Step(Ran, x), Step(What.Parsed, text), Step(Ran, a), Step(What.Parsed, text)];
  }

  /** `break` in an evaluated text is about the loops around the `eval`. */
  lemma EvalBreaks(o: Oracle, fuel: nat, x: nat, text: nat, k: nat, isBreak: bool, last: Parsed, rest: Body,
                   scope: Scope, state: State)
    requires Calm(o) && Says(o, x, Nested(Eval(text))) && Says(o, k, LoopControl(isBreak, Absent)) && fuel > 2
    requires Text1(o, text, Cmd(k), last) && !last.Read? && scope.depth > 0
    ensures RunBody(o, fuel, Cons(Cmd(x), rest), 0, scope, state)
         == Outcome(if isBreak then Break(1) else Continue(1), 0,
                    Now(state, [Step(Ran, x), Step(What.Parsed, text), Step(Ran, k)], 0))
  {
    var parsed, ending := Event1(What.Parsed, text), if isBreak then Break(1) else Continue(1);
    var start := Now(state, Event1(Ran, x), o.simple(x, state.trace, state.last).last);
    LoopControlRuns(o, fuel - 2, k, isBreak, Absent, scope, Now(start, parsed, start.last));
    TextRuns(o, fuel - 1, Eval(text), Cmd(k), last, scope, start, ending, 0, Event1(Ran, k));
    NestedRuns(o, fuel, x, Eval(text), scope, state);
    BodyStep(o, fuel, Cmd(x), rest, 0, scope, state);
    NowNow(state, Event1(Ran, x), start.last, parsed + Event1(Ran, k), 0);
    assert parsed + Event1(Ran, k) + [] == parsed + Event1(Ran, k);
    assert Event1(Ran, x) + (parsed + Event1(Ran, k)) == [Step(Ran, x), Step(What.Parsed, text), Step(Ran, k)];
  }

  /** So is a dot script. */
  lemma DotRuns(o: Oracle, fuel: nat, x: nat, text: nat, a: nat, sa: int, last: Parsed, scope: Scope, state: State)
    requires Calm(o) && Says(o, x, Nested(Dot(text))) && Tells(o, a, Constant(sa)) && fuel > 2
    requires Text1(o, text, Cmd(a), last) && !last.Read?
    ensures var status, parsed := if last.SyntaxError? then 2 else sa, Step(What.Parsed, text);
            RunBody(o, fuel, Body1(Cmd(x)), 0, scope, state)
              == Outcome(Normal, status, Now(state, [Step(Ran, x), parsed, Step(Ran, a), parsed], status))
  {
    var status, parsed := if last.SyntaxError? then 2 else sa, Event1(What.Parsed, text);
    var inner := scope.(returnable := true);
    var start := Now(state, Event1(Ran, x), o.simple(x, state.trace, state.last).last);
    PlainRuns(o, fuel - 2, a, Constant(sa), inner, Now(start, parsed, start.last));
    TextRuns(o, fuel - 1, Dot(text), Cmd(a), last, inner, start, Normal, sa, Event1(Ran, a));
    NestedRuns(o, fuel, x, Dot(text), scope, state);
    BodyOne(o, fuel, Cmd(x), 0, scope, state);
    NowNow(state, Event1(Ran, x), start.last, parsed + Event1(Ran, a) + parsed, status);
    assert Event1(Ran, x) + (parsed + Event1(Ran, a) + parsed)
        == [Step(Ran, x), Step(What.Parsed, text), Step(Ran, a), Step(What.Parsed, text)];
  }

  /** `return n` in a dot script ends the script, with that status. */
  lemma DotReturns(o: Oracle, fuel: nat, x: nat, text: nat, k: nat, n: int, last: Parsed, scope: Scope, state: State)
    requires Calm(o) && Says(o, x, Nested(Dot(text))) && Says(o, k, ReturnCommand(Number(n))) && fuel > 2
    requires Text1(o, text, Cmd(k), last) && !last.Read?
    ensures RunBody(o, fuel, Body1(Cmd(x)), 0, scope, state)
         == Outcome(Normal, n % 256, Now(state, [Step(Ran, x), Step(What.Parsed, text), Step(Ran, k)], n % 256))
  {
    var parsed, inner := Event1(What.Parsed, text), scope.(returnable := true);
    var start := Now(state, Event1(Ran, x), o.simple(x, state.trace, state.last).last);
    var now := Now(start, parsed, start.last);
    CmdRuns(o, fuel - 2, k, inner, now);
    assert o.simple(k, now.trace, now.last).dispatch == ReturnCommand(Number(n));
    TextRuns(o, fuel - 1, Dot(text), Cmd(k), last, inner, start, Return(n % 256), n % 256, Event1(Ran, k));
    NestedRuns(o, fuel, x, Dot(text), scope, state);
    BodyOne(o, fuel, Cmd(x), 0, scope, state);
    NowNow(state, Event1(Ran, x), start.last, parsed + Event1(Ran, k), n % 256);
    assert parsed + Event1(Ran, k) + [] == parsed + Event1(Ran, k);
    assert Event1(Ran, x) + (parsed + Event1(Ran, k)) == [Step(Ran, x), Step(What.Parsed, text), Step(Ran, k)];
  }

  // ----- what does not run -----

  /** `list &` is started and not waited for. */
  lemma AsyncStarts(o: Oracle, fuel: nat, list: AndOr, id: nat, scope: Scope, state: State)
    requires Calm(o)
    ensures var s := o.start(id, state.trace, state.last);
            var r := RunBody(o, fuel, Body1(Cons(Item(list, true, id), Nil)), 0, scope, state);
            r.ending == Normal && r.status == s && r.state.trace == state.trace + Event1(Started, id)
  {
    var s := o.start(id, state.trace, state.last);
    var now := After(state, Started, id);
    assert !o.noexec(state.trace) && !o.errexit(now.trace);
    assert RunItems(o, fuel, Nil, s, scope, now) == Outcome(Normal, s, now);
    BodyOne(o, fuel, Cons(Item(list, true, id), Nil), 0, scope, state);
  }

  /** A compound command whose redirections fail does not run: its status is that
      of the error, which may be fatal, and may end a shell that is not
      interactive. */
  lemma NotPrepared(o: Oracle, fuel: nat, prep: nat, kind: Kind, e: Failure, fatal: bool, scope: Scope, state: State)
    requires Calm(o) && o.prepare(prep, state.trace, state.last) == Some((e, fatal))
    ensures var quits := e.exits && !scope.interactive;
            RunBody(o, fuel, Body1(Group(prep, kind)), 0, scope, state)
              == Outcome(if quits then (if fatal then FatalQuit(e.code) else Quit(e.code))
                         else if fatal then Fatal else Normal, e.code, Now(state, Event1(Prepared, prep), e.code))
  {
    ItemRuns(o, fuel, Grouped(Compound(prep, kind)), scope, state);
    assert !o.noexec(state.trace);
    BodyOne(o, fuel, Group(prep, kind), 0, scope, state);
  }

  /** With `set -n` nothing runs. */
  lemma NoExec(o: Oracle, fuel: nat, c: Complete, scope: Scope, state: State)
    requires o.noexec(state.trace)
    ensures RunBody(o, fuel, Body1(c), 0, scope, state) == Outcome(Normal, 0, state)
  {
    BodyEnd(o, fuel, 0, scope, state);
  }

  /** A function definition leaves status 0, unless the name is one of a special
      built-in: then it is an error of status 2. */
  lemma Defines(o: Oracle, fuel: nat, f: nat, scope: Scope, state: State)
    requires Calm(o)
    ensures var r := RunBody(o, fuel, Body1(One(Define(f))), 0, scope, state);
            && r.state.trace == state.trace + Event1(Defined, f) && r.status == (if o.isSpecialName(f) then 2 else 0)
            && r.ending == if o.isSpecialName(f) && !scope.interactive then Quit(2) else Normal
  {
    ItemRuns(o, fuel, Define(f), scope, state);
    assert !o.noexec(state.trace);
    BodyOne(o, fuel, One(Define(f)), 0, scope, state);
  }
}
