/** What the outcome of a program does not depend on: any more fuel than it
    needs, and `set -e` where that is ignored. */
module ExecProps {
  import opened Prelude
  import opened ExecSpec

  /** One shell, or two that differ in `set -e` where it is ignored. */
  ghost predicate Alike(o: Oracle, p: Oracle, scope: Scope) {
    p == o || (scope.quiet && p == o.(errexit := p.errexit))
  }

  lemma {:induction false} BodySame(o: Oracle, p: Oracle, fuel: nat, more: nat,
      body: Body, status: int, scope: Scope, state: State)
    requires Alike(o, p, scope) && fuel <= more
    requires (fuel == more || !RunBody(o, fuel, body, status, scope, state).state.cut)
    ensures RunBody(p, more, body, status, scope, state) == RunBody(o, fuel, body, status, scope, state)
    decreases fuel, body, 0
  {
    if body.Cons? {
      CompleteSame(o, p, fuel, more, body.head, scope, state);
      var r := Checked(o, scope, RunComplete(o, fuel, body.head, scope, state));
      if r.ending.Normal? { BodySame(o, p, fuel, more, body.tail, r.status, scope, r.state); }
    }
  }

  lemma {:induction false} CompleteSame(o: Oracle, p: Oracle, fuel: nat, more: nat,
      command: Complete, scope: Scope, state: State)
    requires Alike(o, p, scope) && fuel <= more
    requires (fuel == more || !RunComplete(o, fuel, command, scope, state).state.cut)
    ensures RunComplete(p, more, command, scope, state) == RunComplete(o, fuel, command, scope, state)
    decreases fuel, command, 1
  {
    if !o.noexec(state.trace) { ItemsSame(o, p, fuel, more, command, 0, scope, state); }
  }

  lemma {:induction false} ItemsSame(o: Oracle, p: Oracle, fuel: nat, more: nat,
      items: List<Item>, status: int, scope: Scope, state: State)
    requires Alike(o, p, scope) && fuel <= more
    requires (fuel == more || !RunItems(o, fuel, items, status, scope, state).state.cut)
    ensures RunItems(p, more, items, status, scope, state) == RunItems(o, fuel, items, status, scope, state)
    decreases fuel, items, 0
  {
    if items.Cons? {
      var item := items.head;
      if !item.async { AndOrSame(o, p, fuel, more, item.andOr, scope, state); }
      var r := Checked(o, scope,
        if item.async then Outcome(Normal, o.start(item.id, state.trace, state.last), After(state, Started, item.id))
        else RunAndOr(o, fuel, item.andOr, scope, state));
      if r.ending.Normal? { ItemsSame(o, p, fuel, more, items.tail, r.status, scope, r.state); }
    }
  }

  lemma {:induction false} AndOrSame(o: Oracle, p: Oracle, fuel: nat, more: nat,
      andOr: AndOr, scope: Scope, state: State)
    requires Alike(o, p, scope) && fuel <= more && (fuel == more || !RunAndOr(o, fuel, andOr, scope, state).state.cut)
    ensures RunAndOr(p, more, andOr, scope, state) == RunAndOr(o, fuel, andOr, scope, state)
    decreases fuel, andOr, 0
  {
    var exempt := andOr.first.negated || andOr.rest.Cons?;
    ExemptibleSame(o, p, fuel, more, andOr.first, exempt, scope, state);
    var first := RunExemptible(o, fuel, andOr.first, exempt, scope, state);
    if first.ending.Normal? { RestSame(o, p, fuel, more, andOr.rest, first.status, scope, first.state); }
  }

  lemma {:induction false} RestSame(o: Oracle, p: Oracle, fuel: nat, more: nat,
      rest: List<Branch>, status: int, scope: Scope, state: State)
    requires Alike(o, p, scope) && fuel <= more
    requires (fuel == more || !RunRest(o, fuel, rest, status, scope, state).state.cut)
    ensures RunRest(p, more, rest, status, scope, state) == RunRest(o, fuel, rest, status, scope, state)
    decreases fuel, rest, 0
  {
    if rest.Cons? {
      var branch, tail := rest.head, rest.tail;
      if (status == 0) != branch.op.AndIf? {
        RestSame(o, p, fuel, more, tail, status, scope, state);
      } else {
        var exempt := branch.pipe.negated || tail.Cons?;
        ExemptibleSame(o, p, fuel, more, branch.pipe, exempt, scope, state);
        var r := RunExemptible(o, fuel, branch.pipe, exempt, scope, state);
        if r.ending.Normal? { RestSame(o, p, fuel, more, tail, r.status, scope, r.state); }
      }
    }
  }

  lemma {:induction false} ExemptibleSame(o: Oracle, p: Oracle, fuel: nat, more: nat,
      pipe: Pipe, exempt: bool, scope: Scope, state: State)
    requires Alike(o, p, scope) && fuel <= more
    requires (fuel == more || !RunExemptible(o, fuel, pipe, exempt, scope, state).state.cut)
    ensures RunExemptible(p, more, pipe, exempt, scope, state) == RunExemptible(o, fuel, pipe, exempt, scope, state)
    decreases fuel, pipe, 1
  {
    PipeSame(o, p, fuel, more, pipe, if exempt then Quiet(scope) else scope, state.(exempt := false));
  }

  lemma {:induction false} PipeSame(o: Oracle, p: Oracle, fuel: nat, more: nat, pipe: Pipe, scope: Scope, state: State)
    requires Alike(o, p, scope) && fuel <= more && (fuel == more || !RunPipe(o, fuel, pipe, scope, state).state.cut)
    ensures RunPipe(p, more, pipe, scope, state) == RunPipe(o, fuel, pipe, scope, state)
    decreases fuel, pipe, 0
  {
    CommandSame(o, p, fuel, more, pipe.command, scope, state);
  }

  lemma {:induction false} CommandSame(o: Oracle, p: Oracle, fuel: nat, more: nat,
      command: Command, scope: Scope, state: State)
    requires Alike(o, p, scope) && fuel <= more
    requires (fuel == more || !RunCommand(o, fuel, command, scope, state).state.cut)
    ensures RunCommand(p, more, command, scope, state) == RunCommand(o, fuel, command, scope, state)
    decreases fuel, command, 1
  {
    if !o.noexec(state.trace) {
      if command.Simple? { SimpleSame(o, p, fuel, more, command, scope, state); }
      if command.Grouped? { CompoundSame(o, p, fuel, more, command.compound, scope, state); }
    }
  }

  lemma {:induction false} SimpleSame(o: Oracle, p: Oracle, fuel: nat, more: nat,
      command: Command, scope: Scope, state: State)
    requires Alike(o, p, scope) && fuel <= more && command.Simple?
    requires (fuel == more || !RunSimple(o, fuel, command, scope, state).state.cut)
    ensures RunSimple(p, more, command, scope, state) == RunSimple(o, fuel, command, scope, state)
    decreases fuel, command, 0
  {
    var out := o.simple(command.id, state.trace, state.last);
    if out.dispatch.Nested? && fuel > 0 {
      var now := WithLast(After(state, Ran, command.id), out.last);
      NestedSame(o, p, fuel - 1, more - 1, out.dispatch.shellCode, scope, now);
    }
  }

  lemma {:induction false} NestedSame(o: Oracle, p: Oracle, fuel: nat, more: nat,
      code: Code, scope: Scope, state: State)
    requires Alike(o, p, scope) && fuel <= more && (fuel == more || !RunNested(o, fuel, code, scope, state).state.cut)
    ensures RunNested(p, more, code, scope, state) == RunNested(o, fuel, code, scope, state)
    decreases fuel, code, 2
  {
    match code
    case Call(body) => CallSame(o, p, fuel, more, body, scope, state);
    case Eval(_) => TextSame(o, p, fuel, more, code, 0, 0, scope, state);
    case Dot(_) => TextSame(o, p, fuel, more, code, 0, 0, scope.(returnable := true), state);
  }

  lemma {:induction false} CallSame(o: Oracle, p: Oracle, fuel: nat, more: nat,
      body: Compound, scope: Scope, state: State)
    requires Alike(o, p, scope) && fuel <= more && (fuel == more || !RunCall(o, fuel, body, scope, state).state.cut)
    ensures RunCall(p, more, body, scope, state) == RunCall(o, fuel, body, scope, state)
    decreases fuel, body, 3
  {
    CompoundSame(o, p, fuel, more, body, Scope(0, scope.quiet, true, scope.interactive), state);
  }

  lemma {:induction false} TextSame(o: Oracle, p: Oracle, fuel: nat, more: nat,
      code: Code, k: nat, status: int, scope: Scope, state: State)
    requires Alike(o, p, scope) && fuel <= more && !code.Call?
    requires (fuel == more || !RunText(o, fuel, code, k, status, scope, state).out.state.cut)
    ensures RunText(p, more, code, k, status, scope, state) == RunText(o, fuel, code, k, status, scope, state)
    decreases fuel, code, 0
  {
    var parsed, now := o.parse(code.text, k, state.trace), After(state, What.Parsed, code.text);
    if parsed.Read? && fuel > 0 {
      CompleteSame(o, p, fuel - 1, more - 1, parsed.command, scope, now);
      var r := RunComplete(o, fuel - 1, parsed.command, scope, now);
      if r.ending.Normal? { TextSame(o, p, fuel - 1, more - 1, code, k + 1, r.status, scope, r.state); }
    }
  }

  lemma {:induction false} CompoundSame(o: Oracle, p: Oracle, fuel: nat, more: nat,
      c: Compound, scope: Scope, state: State)
    requires Alike(o, p, scope) && fuel <= more && (fuel == more || !RunCompound(o, fuel, c, scope, state).state.cut)
    ensures RunCompound(p, more, c, scope, state) == RunCompound(o, fuel, c, scope, state)
    decreases fuel, c, 0
  {
    if o.prepare(c.prep, state.trace, state.last).None? {
      KindSame(o, p, fuel, more, c.kind, scope, After(state, Prepared, c.prep));
    }
  }

  lemma {:induction false} KindSame(o: Oracle, p: Oracle, fuel: nat, more: nat, kind: Kind, scope: Scope, state: State)
    requires Alike(o, p, scope) && fuel <= more && (fuel == more || !RunKind(o, fuel, kind, scope, state).out.state.cut)
    ensures RunKind(p, more, kind, scope, state) == RunKind(o, fuel, kind, scope, state)
    decreases fuel, kind, 2
  {
    match kind
    case Brace(body) => BodySame(o, p, fuel, more, body, 0, scope, state);
    case Subshell(_, _) => SubshellSame(o, p, fuel, more, kind, scope, state);
    case If(_, _, _) => IfSame(o, p, fuel, more, kind, scope, state);
    case While(_, _, _) => WhileSame(o, p, fuel, more, kind, 0, scope, state);
    case For(_, _) => ForSame(o, p, fuel, more, kind, scope, state);
    case Case(_, _) => CaseSame(o, p, fuel, more, kind, scope, state);
  }

  lemma {:induction false} SubshellSame(o: Oracle, p: Oracle, fuel: nat, more: nat,
      kind: Kind, scope: Scope, state: State)
    requires Alike(o, p, scope) && fuel <= more && kind.Subshell?
    requires (fuel == more || !RunSubshell(o, fuel, kind, scope, state).out.state.cut)
    ensures RunSubshell(p, more, kind, scope, state) == RunSubshell(o, fuel, kind, scope, state)
    decreases fuel, kind, 1
  {
    if o.forkError(kind.fork, state.trace).None? {
      BodySame(o, p, fuel, more, kind.body, 0, scope.(interactive := false), After(state, Forked, kind.fork));
    }
  }

  lemma {:induction false} IfSame(o: Oracle, p: Oracle, fuel: nat, more: nat, kind: Kind, scope: Scope, state: State)
    requires Alike(o, p, scope) && fuel <= more && kind.If?
    requires (fuel == more || !RunIf(o, fuel, kind, scope, state).state.cut)
    ensures RunIf(p, more, kind, scope, state) == RunIf(o, fuel, kind, scope, state)
    decreases fuel, kind, 1
  {
    BodySame(o, p, fuel, more, kind.condition, 0, Quiet(scope), state);
    var c := RunBody(o, fuel, kind.condition, 0, Quiet(scope), state);
    if c.ending.Normal? {
      if c.status == 0 {
        BodySame(o, p, fuel, more, kind.thenPart, 0, scope, c.state);
      } else {
        OthersSame(o, p, fuel, more, kind.others, scope, c.state);
      }
    }
  }

  lemma {:induction false} OthersSame(o: Oracle, p: Oracle, fuel: nat, more: nat,
      others: Others, scope: Scope, state: State)
    requires Alike(o, p, scope) && fuel <= more && (fuel == more || !RunOthers(o, fuel, others, scope, state).state.cut)
    ensures RunOthers(p, more, others, scope, state) == RunOthers(o, fuel, others, scope, state)
    decreases fuel, others, 0
  {
    match others
    case Else(None) =>
    case Else(Some(body)) => BodySame(o, p, fuel, more, body, 0, scope, state);
    case Elif(condition, body, rest) =>
      BodySame(o, p, fuel, more, condition, 0, Quiet(scope), state);
      var c := RunBody(o, fuel, condition, 0, Quiet(scope), state);
      if c.ending.Normal? {
        if c.status == 0 {
          BodySame(o, p, fuel, more, body, 0, scope, c.state);
        } else {
          OthersSame(o, p, fuel, more, rest, scope, c.state);
        }
      }
  }

  lemma {:induction false} WhileSame(o: Oracle, p: Oracle, fuel: nat, more: nat,
      kind: Kind, status: int, scope: Scope, state: State)
    requires Alike(o, p, scope) && fuel <= more && kind.While?
    requires (fuel == more || !RunWhile(o, fuel, kind, status, scope, state).state.cut)
    ensures RunWhile(p, more, kind, status, scope, state) == RunWhile(o, fuel, kind, status, scope, state)
    decreases fuel, kind, 1
  {
    if fuel > 0 {
      BodySame(o, p, fuel - 1, more - 1, kind.condition, 0, Quiet(InLoop(scope)), state);
      var c := RunBody(o, fuel - 1, kind.condition, 0, Quiet(InLoop(scope)), state);
      if c.ending.Break? || c.ending.Continue? {
        if Round(c.ending).None? { WhileSame(o, p, fuel - 1, more - 1, kind, status, scope, c.state); }
      } else if c.ending.Normal? && (c.status == 0) != kind.until {
        BodySame(o, p, fuel - 1, more - 1, kind.body, 0, InLoop(scope), c.state);
        var r := RunBody(o, fuel - 1, kind.body, 0, InLoop(scope), c.state);
        if Round(r.ending).None? { WhileSame(o, p, fuel - 1, more - 1, kind, r.status, scope, r.state); }
      }
    }
  }

  lemma {:induction false} ForSame(o: Oracle, p: Oracle, fuel: nat, more: nat, kind: Kind, scope: Scope, state: State)
    requires Alike(o, p, scope) && fuel <= more && kind.For?
    requires (fuel == more || !RunFor(o, fuel, kind, scope, state).out.state.cut)
    ensures RunFor(p, more, kind, scope, state) == RunFor(o, fuel, kind, scope, state)
    decreases fuel, kind, 1
  {
    var words := o.words(kind.words, state.trace, state.last);
    if words.result.Ok? && !words.fatal {
      RoundsSame(o, p, fuel, more, kind, words.result.value, 0, scope, After(state, Expanded, kind.words));
    }
  }

  lemma {:induction false} RoundsSame(o: Oracle, p: Oracle, fuel: nat, more: nat,
      kind: Kind, left: nat, status: int, scope: Scope, state: State)
    requires Alike(o, p, scope) && fuel <= more && kind.For?
    requires (fuel == more || !RunRounds(o, fuel, kind, left, status, scope, state).out.state.cut)
    ensures RunRounds(p, more, kind, left, status, scope, state) == RunRounds(o, fuel, kind, left, status, scope, state)
    decreases fuel, kind, 0, left
  {
    if left > 0 && o.assign(kind.words, state.trace).None? {
      var now := After(state, Assigned, kind.words);
      BodySame(o, p, fuel, more, kind.body, 0, InLoop(scope), now);
      var r := RunBody(o, fuel, kind.body, 0, InLoop(scope), now);
      if Round(r.ending).None? { RoundsSame(o, p, fuel, more, kind, left - 1, r.status, scope, r.state); }
    }
  }

  lemma {:induction false} CaseSame(o: Oracle, p: Oracle, fuel: nat, more: nat, kind: Kind, scope: Scope, state: State)
    requires Alike(o, p, scope) && fuel <= more && kind.Case?
    requires (fuel == more || !RunCase(o, fuel, kind, scope, state).out.state.cut)
    ensures RunCase(p, more, kind, scope, state) == RunCase(o, fuel, kind, scope, state)
    decreases fuel, kind, 1
  {
    var word := o.word(kind.word, state.trace, state.last);
    if word.result.Ok? && !word.fatal {
      CaseItemsSame(o, p, fuel, more, kind.items, false, 0, scope, After(state, Expanded, kind.word));
    }
  }

  lemma {:induction false} CaseItemsSame(o: Oracle, p: Oracle, fuel: nat, more: nat,
      items: List<CaseItem>, falling: bool, status: int,
      scope: Scope, state: State)
    requires Alike(o, p, scope) && fuel <= more
    requires (fuel == more || !RunItemsOfCase(o, fuel, items, falling, status, scope, state).out.state.cut)
    ensures RunItemsOfCase(p, more, items, falling, status, scope, state)
      == RunItemsOfCase(o, fuel, items, falling, status, scope, state)
    decreases fuel, items, 0
  {
    if items.Cons? {
      var item, rest := items.head, items.tail;
      if !falling { MatchSame(o, p, scope, item.patterns, state); }
      var (found, now) := if falling then (Ok(true), state) else MatchAny(o, item.patterns, state);
      if found.Ok? && !found.value {
        CaseItemsSame(o, p, fuel, more, rest, false, status, scope, now);
      } else if found.Ok? {
        BodySame(o, p, fuel, more, item.body, 0, scope, now);
        var r := RunBody(o, fuel, item.body, 0, scope, now);
        if r.ending.Normal? && item.fallThrough {
          CaseItemsSame(o, p, fuel, more, rest, true, r.status, scope, r.state);
        }
      }
    }
  }

  lemma {:induction false} MatchSame(o: Oracle, p: Oracle, scope: Scope, patterns: List<nat>, state: State)
    requires Alike(o, p, scope)
    ensures MatchAny(p, patterns, state) == MatchAny(o, patterns, state)
    decreases patterns
  {
    if patterns.Cons? { MatchSame(o, p, scope, patterns.tail, After(state, Tested, patterns.head)); }
  }

  // ----- the two theorems -----

  /** A run its fuel suffices for is the same with any more fuel. */
  lemma FuelSuffices(o: Oracle, fuel: nat, more: nat, program: Body, scope: Scope, state: State)
    requires fuel <= more && !RunBody(o, fuel, program, 0, scope, state).state.cut
    ensures RunBody(o, more, program, 0, scope, state) == RunBody(o, fuel, program, 0, scope, state)
  {
    BodySame(o, o, fuel, more, program, 0, scope, state);
  }

  /** Conditions, negated pipelines and all but the last pipeline of an AND-OR
      list run the same with `set -e` and without, functions and texts called
      from them included. */
  lemma QuietIgnoresErrexit(o: Oracle, errexit: Trace -> bool, fuel: nat, list: Body, scope: Scope, state: State)
    requires scope.quiet
    ensures RunBody(o.(errexit := errexit), fuel, list, 0, scope, state) == RunBody(o, fuel, list, 0, scope, state)
  {
    BodySame(o, o.(errexit := errexit), fuel, fuel, list, 0, scope, state);
  }
}
