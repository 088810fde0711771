/** What shell programs mean, as a structured evaluator: `break`, `continue`,
    `return`, fatal errors and `exit` are values that commands end with, the
    loop depth and the `set -e` suppression are lexical parameters, and no
    counter or flag is ever saved, changed or restored. */
module ExecSpec {
  import opened Prelude

  // ----- programs -----

  datatype List<+T> = Nil | Cons(head: T, tail: List<T>)

  /** One AND-OR list of a complete command; `async` when `&` follows it. */
  datatype Item = Item(andOr: AndOr, async: bool, id: nat)

  type Complete = List<Item>

  type Body = List<Complete>

  datatype AndOr = AndOr(first: Pipe, rest: List<Branch>)

  datatype Op = AndIf | OrIf

  datatype Branch = Branch(op: Op, pipe: Pipe)

  /** A pipeline; those of several members are the one command `Multi`. */
  datatype Pipe = Pipe(negated: bool, command: Command)

  datatype Command =
    | Simple(id: nat)
    | Grouped(compound: Compound)
    | Define(id: nat)
    | Multi(id: nat)

  /** A compound command; `prep` names its assignments and redirections. */
  datatype Compound = Compound(prep: nat, kind: Kind)

  datatype Kind =
    | Brace(body: Body)
    | Subshell(fork: nat, body: Body)
    | If(condition: Body, thenPart: Body, others: Others)
    | While(condition: Body, body: Body, until: bool)
    | For(words: nat, body: Body)
    | Case(word: nat, items: List<CaseItem>)

  /** The `elif` parts of an `if`, in order, and its `else` part if any. */
  datatype Others = Elif(condition: Body, body: Body, rest: Others) | Else(part: Option<Body>)

  datatype CaseItem = CaseItem(patterns: List<nat>, body: Body, fallThrough: bool)

  // ----- what programs run on -----

  /** What happened, in order. A subshell is one event holding its own. */
  datatype Event = Step(what: What, id: nat) | Child(events: Trace)

  datatype What = Ran | Prepared | Expanded | Assigned | Tested | Started | Piped | Parsed | Defined | Forked

  type Trace = seq<Event>

  /** `ShellError`: its exit code, and whether it ends a non-interactive shell. */
  datatype Failure = Failure(code: int, exits: bool)

  /** An operand of `break`, `return`, … after `parse`. */
  datatype Operand = Absent | Number(n: int) | NotNumber

  /** What a simple command turns out to be once its words are expanded. */
  datatype Dispatch =
    | Other(status: int, fatal: bool, quit: Option<int>)
    | LoopControl(isBreak: bool, count: Operand)
    | ReturnCommand(code: Operand)
    | ExitCommand(code: Operand)
    | Nested(shellCode: Code)

  /** Shell code a simple command runs: a function, an operand, a file. */
  datatype Code = Call(body: Compound) | Eval(text: nat) | Dot(text: nat)

  datatype SimpleOut = SimpleOut(last: int, dispatch: Dispatch)

  /** Words that expand to `value`; `fatal` when an expansion error is raised. */
  datatype Words<+T> = Words(result: Result<T, Failure>, fatal: bool)

  datatype Parsed = End | Read(command: Complete) | SyntaxError

  /** The rest of the shell, as functions of everything that happened before. */
  datatype Oracle = Oracle(
    simple: (nat, Trace, int) -> SimpleOut,
    prepare: (nat, Trace, int) -> Option<(Failure, bool)>,
    words: (nat, Trace, int) -> Words<nat>,
    assign: (nat, Trace) -> Option<Failure>,
    word: (nat, Trace, int) -> Words<()>,
    pattern: (nat, Trace, int) -> Result<bool, Failure>,
    multi: (nat, Trace, int) -> int,
    start: (nat, Trace, int) -> int,
    isSpecialName: nat -> bool,
    forkError: (nat, Trace) -> Option<Failure>,
    waitFails: (nat, Trace) -> bool,
    parse: (nat, nat, Trace) -> Parsed,
    errexit: Trace -> bool,
    noexec: Trace -> bool)

  // ----- endings -----

  datatype Ending =
    | Normal
    | Break(n: nat)
    | Continue(n: nat)
    | Return(code: int)
    | Fatal
    | Quit(code: int)
    | FatalQuit(code: int)

  /** Where a command stands: loops around it in this function body, whether
      `set -e` is ignored, whether a function or dot script is around it, and
      whether the shell is interactive: its subshells are not. */
  datatype Scope = Scope(depth: nat, quiet: bool, returnable: bool, interactive: bool)

  /** `$?`, the `set -e` exemption of the last status, the past, and whether
      the fuel ran out on the way. */
  datatype State = State(last: int, exempt: bool, trace: Trace, cut: bool)

  datatype Outcome = Outcome(ending: Ending, status: int, state: State)

  /** A compound command carried out, or given up with an error to report. */
  datatype Tried = Tried(out: Outcome, error: Option<Failure>)

  /** A text run to its end; `bad` when a syntax error ended it. */
  datatype TextEnd = TextEnd(out: Outcome, bad: bool)

  /** The exit request that stands for a run cut short. */
  const OUT_OF_FUEL := -1

  predicate InScope(e: Ending, scope: Scope) {
    match e
    case Break(n) => 1 <= n <= scope.depth
    case Continue(n) => 1 <= n <= scope.depth
    case Return(_) => scope.returnable
    case _ => true
  }

  function Stopped(fatal: bool, quit: Option<int>): Ending {
    match quit
    case None => if fatal then Fatal else Normal
    case Some(code) => if fatal then FatalQuit(code) else Quit(code)
  }

  predicate IsFatal(e: Ending) { e.Fatal? || e.FatalQuit? }

  function After(state: State, what: What, id: nat): State {
    state.(trace := state.trace + [Step(what, id)])
  }

  function Cut(state: State): State { state.(cut := true) }

  function WithLast(state: State, status: int): State { state.(last := status) }

  /** A failed command: its error is reported and may end the shell. */
  function Reported(interactive: bool, e: Failure, fatal: bool, state: State): Outcome {
    Outcome(Stopped(fatal, if !interactive && e.exits then Some(e.code) else None), e.code, WithLast(state, e.code))
  }

  /** An item of a list: `set -e` may end the shell on its status. */
  function Checked(o: Oracle, scope: Scope, r: Outcome): Outcome {
    if r.ending.Normal? && r.status != 0 && !r.state.exempt && o.errexit(r.state.trace) && !scope.quiet
    then r.(ending := Quit(r.status)) else r
  }

  /** What the loop around it makes of how its body ended: `None` goes on. */
  function Round(e: Ending): Option<Ending> {
    match e
    case Normal => None
    case Break(n) => Some(if n > 1 then Break(n - 1) else Normal)
    case Continue(n) => if n > 1 then Some(Continue(n - 1)) else None
    case _ => Some(e)
  }

  function Quiet(scope: Scope): Scope { scope.(quiet := true) }

  function InLoop(scope: Scope): Scope { scope.(depth := scope.depth + 1) }

  // ----- the built-ins of control flow -----

  /** The loop count of `break` or `continue`, at most the loops there are. */
  function LoopCount(count: Operand, depth: nat): Option<nat>
    requires depth > 0
  {
    match count
    case Absent => Some(1)
    case Number(n) => if n <= 0 then None else Some(if n <= depth then n else depth)
    case NotNumber => None
  }

  function RunLoopControl(isBreak: bool, count: Operand, scope: Scope, state: State): (r: Outcome)
    ensures InScope(r.ending, scope) && (state.cut ==> r.state.cut)
  {
    if scope.depth == 0 then Outcome(Normal, 1, WithLast(state, 1)) else
      match LoopCount(count, scope.depth)
      case None => Outcome(Stopped(false, if scope.interactive then None else Some(2)), 2, WithLast(state, 2))
      case Some(n) => Outcome(if isBreak then Break(n) else Continue(n), 0, WithLast(state, 0))
  }

  function RunReturn(code: Operand, scope: Scope, state: State): (r: Outcome)
    ensures InScope(r.ending, scope) && (state.cut ==> r.state.cut)
  {
    if !scope.returnable then Outcome(Normal, 1, WithLast(state, 1)) else
      match code
      case Absent => Outcome(Return(state.last % 256), state.last % 256, WithLast(state, state.last % 256))
      case Number(n) => Outcome(Return(n % 256), n % 256, WithLast(state, n % 256))
      case NotNumber => Outcome(Stopped(false, if scope.interactive then None else Some(2)), 2, WithLast(state, 2))
  }

  function RunExit(code: Operand, state: State): Outcome {
    var c := match code case Absent => state.last case Number(n) => n % 256 case NotNumber => 2;
    Outcome(Quit(c), c, WithLast(state, c))
  }

  // ----- lists -----

  function RunBody(o: Oracle, fuel: nat, body: Body, status: int, scope: Scope, state: State): (r: Outcome)
    ensures InScope(r.ending, scope) && (state.cut ==> r.state.cut)
    decreases fuel, body, 0
  {
    match body
    case Nil => Outcome(Normal, status, state)
    case Cons(command, rest) =>
      var r := Checked(o, scope, RunComplete(o, fuel, command, scope, state));
      if r.ending.Normal? then RunBody(o, fuel, rest, r.status, scope, r.state) else r
  }

  function RunComplete(o: Oracle, fuel: nat, command: Complete, scope: Scope, state: State): (r: Outcome)
    ensures InScope(r.ending, scope) && (state.cut ==> r.state.cut)
    decreases fuel, command, 1
  {
    if o.noexec(state.trace) then Outcome(Normal, 0, state) else
      var r := RunItems(o, fuel, command, 0, scope, state);
      r.(state := WithLast(r.state, r.status))
  }

  function RunItems(o: Oracle, fuel: nat, items: List<Item>, status: int, scope: Scope, state: State): (r: Outcome)
    ensures InScope(r.ending, scope) && (state.cut ==> r.state.cut)
    decreases fuel, items, 0
  {
    match items
    case Nil => Outcome(Normal, status, state)
    case Cons(item, rest) =>
      var r := Checked(o, scope,
        if item.async then Outcome(Normal, o.start(item.id, state.trace, state.last), After(state, Started, item.id))
        else RunAndOr(o, fuel, item.andOr, scope, state));
      if r.ending.Normal? then RunItems(o, fuel, rest, r.status, scope, r.state) else r
  }

  function RunAndOr(o: Oracle, fuel: nat, andOr: AndOr, scope: Scope, state: State): (r: Outcome)
    ensures InScope(r.ending, scope) && (state.cut ==> r.state.cut)
    decreases fuel, andOr, 0
  {
    var first := RunExemptible(o, fuel, andOr.first, andOr.first.negated || andOr.rest.Cons?, scope, state);
    if !first.ending.Normal? then first else
      var r := RunRest(o, fuel, andOr.rest, first.status, scope, first.state);
      r.(state := WithLast(r.state, r.status))
  }

  function RunRest(o: Oracle, fuel: nat, rest: List<Branch>, status: int, scope: Scope, state: State): (r: Outcome)
    ensures InScope(r.ending, scope) && (state.cut ==> r.state.cut)
    decreases fuel, rest, 0
  {
    match rest
    case Nil => Outcome(Normal, status, state)
    case Cons(branch, more) =>
      if (status == 0) != branch.op.AndIf? then RunRest(o, fuel, more, status, scope, state) else
        var r := RunExemptible(o, fuel, branch.pipe, branch.pipe.negated || more.Cons?, scope, state);
        if r.ending.Normal? then RunRest(o, fuel, more, r.status, scope, r.state) else r
  }

  /** A pipeline whose status `set -e` ignores when `exempt`. */
  function RunExemptible(o: Oracle, fuel: nat, pipe: Pipe, exempt: bool, scope: Scope, state: State): (r: Outcome)
    ensures InScope(r.ending, scope) && (state.cut ==> r.state.cut)
    decreases fuel, pipe, 1
  {
    var r := RunPipe(o, fuel, pipe, if exempt then Quiet(scope) else scope, state.(exempt := false));
    r.(state := r.state.(exempt := exempt || r.state.exempt))
  }

  function RunPipe(o: Oracle, fuel: nat, pipe: Pipe, scope: Scope, state: State): (r: Outcome)
    ensures InScope(r.ending, scope) && (state.cut ==> r.state.cut)
    decreases fuel, pipe, 0
  {
    var r := RunCommand(o, fuel, pipe.command, scope, state);
    var status := if pipe.negated then (if r.status == 0 then 1 else 0) else r.status;
    Outcome(r.ending, status, WithLast(r.state, status))
  }

  function RunCommand(o: Oracle, fuel: nat, command: Command, scope: Scope, state: State): (r: Outcome)
    ensures InScope(r.ending, scope) && (state.cut ==> r.state.cut)
    decreases fuel, command, 1
  {
    if command.Multi? then
      Outcome(Normal, o.multi(command.id, state.trace, state.last), After(state, Piped, command.id))
    else if o.noexec(state.trace) then Outcome(Normal, 0, state)
    else
      match command
      case Simple(id) => var r := RunSimple(o, fuel, command, scope, state); r.(state := r.state.(exempt := false))
      case Grouped(compound) => RunCompound(o, fuel, compound, scope, state)
      case Define(id) => RunDefine(o, id, scope, After(state, Defined, id))
  }

  function RunDefine(o: Oracle, id: nat, scope: Scope, state: State): Outcome {
    if o.isSpecialName(id)
    then Outcome(Stopped(false, if scope.interactive then None else Some(2)), 2, WithLast(state, 2))
    else Outcome(Normal, 0, state)
  }

  // ----- simple commands -----

  function RunSimple(o: Oracle, fuel: nat, command: Command, scope: Scope, state: State): (r: Outcome)
    requires command.Simple?
    ensures InScope(r.ending, scope) && (state.cut ==> r.state.cut)
    decreases fuel, command, 0
  {
    var out := o.simple(command.id, state.trace, state.last);
    var now := WithLast(After(state, Ran, command.id), out.last);
    match out.dispatch
    case Other(status, fatal, quit) => Outcome(Stopped(fatal, quit), status, WithLast(now, status))
    case LoopControl(isBreak, count) => RunLoopControl(isBreak, count, scope, now)
    case ReturnCommand(code) => RunReturn(code, scope, now)
    case ExitCommand(code) => RunExit(code, now)
    case Nested(code) => if fuel == 0 then TooDeep(now) else RunNested(o, fuel - 1, code, scope, now)
  }

  function RunNested(o: Oracle, fuel: nat, code: Code, scope: Scope, state: State): (r: Outcome)
    ensures InScope(r.ending, scope) && (state.cut ==> r.state.cut)
    decreases fuel, code, 2
  {
    match code
    case Call(body) => RunCall(o, fuel, body, scope, state)
    case Eval(_) => RunEval(o, fuel, code, scope, state)
    case Dot(_) => RunDot(o, fuel, code, scope, state)
  }

  /** The nesting limit: a fatal error. */
  function TooDeep(state: State): Outcome { Outcome(Fatal, 1, Cut(WithLast(state, 1))) }

  /** A function body has no loop around it, and `return` ends it. */
  function RunCall(o: Oracle, fuel: nat, body: Compound, scope: Scope, state: State): (r: Outcome)
    ensures (r.ending in {Normal, Fatal} || r.ending.Quit? || r.ending.FatalQuit?) && (state.cut ==> r.state.cut)
    decreases fuel, body, 3
  {
    var r := RunCompound(o, fuel, body, Scope(0, scope.quiet, true, scope.interactive), state);
    var status := if r.ending.Return? then r.ending.code else r.status;
    Outcome(if r.ending.Return? then Normal else r.ending, status, r.state.(last := status, exempt := false))
  }

  function RunEval(o: Oracle, fuel: nat, code: Code, scope: Scope, state: State): (r: Outcome)
    requires code.Eval?
    ensures InScope(r.ending, scope) && (state.cut ==> r.state.cut)
    decreases fuel, code, 1
  {
    var TextEnd(r, bad) := RunText(o, fuel, code, 0, 0, scope, state);
    var status := if bad then 2 else r.status;
    Outcome(r.ending, status, WithLast(r.state, status))
  }

  /** What a dot script makes of its text: `return` ends it. */
  function AfterDot(text: TextEnd): Outcome {
    var TextEnd(r, bad) := text;
    var status := if bad then 2 else if r.ending.Return? then r.ending.code else r.status;
    Outcome(if r.ending.Return? then Normal else r.ending, status, WithLast(r.state, status))
  }

  /** A dot script runs in the loops around it, and `return` ends it. */
  function RunDot(o: Oracle, fuel: nat, code: Code, scope: Scope, state: State): (r: Outcome)
    requires code.Dot?
    ensures InScope(r.ending, scope) && (state.cut ==> r.state.cut) && !r.ending.Return?
    decreases fuel, code, 1
  {
    AfterDot(RunText(o, fuel, code, 0, 0, scope.(returnable := true), state))
  }

  /** The commands of a text from the `k`th on; `true` after a syntax error. */
  function RunText(o: Oracle, fuel: nat, code: Code, k: nat, status: int, scope: Scope, state: State): (r: TextEnd)
    requires !code.Call?
    ensures InScope(r.out.ending, scope) && (state.cut ==> r.out.state.cut) && (r.bad ==> r.out.ending.Normal?)
    decreases fuel, code, 0
  {
    if fuel == 0 then TextEnd(Outcome(Quit(OUT_OF_FUEL), status, Cut(WithLast(state, status))), false) else
      var parsed, now := o.parse(code.text, k, state.trace), After(state, What.Parsed, code.text);
      match parsed
      case End => TextEnd(Outcome(Normal, status, WithLast(now, status)), false)
      case SyntaxError => TextEnd(Outcome(Normal, status, WithLast(now, status)), true)
      case Read(command) =>
        var r := RunComplete(o, fuel - 1, command, scope, now);
        if r.ending.Normal? then RunText(o, fuel - 1, code, k + 1, r.status, scope, r.state)
        else TextEnd(r.(state := WithLast(r.state, r.status)), false)
  }

  // ----- compound commands -----

  function RunCompound(o: Oracle, fuel: nat, c: Compound, scope: Scope, state: State): (r: Outcome)
    ensures InScope(r.ending, scope) && (state.cut ==> r.state.cut)
    decreases fuel, c, 0
  {
    var prepared, now := o.prepare(c.prep, state.trace, state.last), After(state, Prepared, c.prep);
    match prepared
    case Some((e, fatal)) => Reported(scope.interactive, e, fatal, WithLast(now, 1))
    case None =>
      var Tried(r, error) := RunKind(o, fuel, c.kind, scope, now);
      if error.Some? then Reported(scope.interactive, error.value, IsFatal(r.ending), r.state)
      else r.(state := WithLast(r.state, r.status))
  }

  /** The command itself; with an error when it could not be carried out. */
  function RunKind(o: Oracle, fuel: nat, kind: Kind, scope: Scope, state: State): (r: Tried)
    ensures InScope(r.out.ending, scope) && (state.cut ==> r.out.state.cut)
    decreases fuel, kind, 2
  {
    match kind
    case Brace(body) => Tried(RunBody(o, fuel, body, 0, scope, state), None)
    case Subshell(fork, body) => RunSubshell(o, fuel, kind, scope, state)
    case If(condition, thenPart, others) => Tried(RunIf(o, fuel, kind, scope, state), None)
    case While(condition, body, until) => Tried(RunWhile(o, fuel, kind, 0, scope, state), None)
    case For(words, body) => RunFor(o, fuel, kind, scope, state)
    case Case(word, items) => RunCase(o, fuel, kind, scope, state)
  }

  /** The child runs on a copy: only its exit status and its events come back. */
  function RunSubshell(o: Oracle, fuel: nat, kind: Kind, scope: Scope, state: State): (r: Tried)
    requires kind.Subshell?
    ensures r.out.ending == Normal && (state.cut ==> r.out.state.cut)
    decreases fuel, kind, 1
  {
    var error, now := o.forkError(kind.fork, state.trace), After(state, Forked, kind.fork);
    if error.Some? then Tried(Outcome(Normal, 0, now), error) else
      var r := RunBody(o, fuel, kind.body, 0, scope.(interactive := false), now);
      var after := now.(trace := now.trace + [Child(r.state.trace)], cut := r.state.cut);
      Tried(Outcome(Normal, if o.waitFails(kind.fork, after.trace) then 1 else ChildStatus(r) % 256, after), None)
  }

  /** An exit request wins over the status, and a fatal error is a failure. */
  function ChildStatus(r: Outcome): int {
    match r.ending
    case Quit(code) => code
    case FatalQuit(code) => code
    case Fatal => 1
    case _ => r.status
  }

  function RunIf(o: Oracle, fuel: nat, kind: Kind, scope: Scope, state: State): (r: Outcome)
    requires kind.If?
    ensures InScope(r.ending, scope) && (state.cut ==> r.state.cut)
    decreases fuel, kind, 1
  {
    var c := RunBody(o, fuel, kind.condition, 0, Quiet(scope), state);
    if !c.ending.Normal? then c
    else if c.status == 0 then RunBody(o, fuel, kind.thenPart, 0, scope, c.state)
    else RunOthers(o, fuel, kind.others, scope, c.state)
  }

  function RunOthers(o: Oracle, fuel: nat, others: Others, scope: Scope, state: State): (r: Outcome)
    ensures InScope(r.ending, scope) && (state.cut ==> r.state.cut)
    decreases fuel, others, 0
  {
    match others
    case Else(None) => Outcome(Normal, 0, state)
    case Else(Some(body)) => RunBody(o, fuel, body, 0, scope, state)
    case Elif(condition, body, rest) =>
      var c := RunBody(o, fuel, condition, 0, Quiet(scope), state);
      if !c.ending.Normal? then c
      else if c.status == 0 then RunBody(o, fuel, body, 0, scope, c.state)
      else RunOthers(o, fuel, rest, scope, c.state)
  }

  /** `while` and `until`: `status` is that of the last round. A `break` or
      `continue` in the condition is about this loop too. */
  function RunWhile(o: Oracle, fuel: nat, kind: Kind, status: int, scope: Scope, state: State): (r: Outcome)
    requires kind.While?
    ensures InScope(r.ending, scope) && (state.cut ==> r.state.cut)
    decreases fuel, kind, 1
  {
    if fuel == 0 then Outcome(Quit(OUT_OF_FUEL), status, Cut(state)) else
      var c := RunBody(o, fuel - 1, kind.condition, 0, Quiet(InLoop(scope)), state);
      if c.ending.Break? || c.ending.Continue? then
        match Round(c.ending)
        case Some(ending) => Outcome(ending, status, c.state)
        case None => RunWhile(o, fuel - 1, kind, status, scope, c.state)
      else if !c.ending.Normal? then c
      else if (c.status == 0) == kind.until then Outcome(Normal, status, c.state)
      else
        var r := RunBody(o, fuel - 1, kind.body, 0, InLoop(scope), c.state);
        match Round(r.ending)
        case Some(ending) => Outcome(ending, r.status, r.state)
        case None => RunWhile(o, fuel - 1, kind, r.status, scope, r.state)
  }

  function RunFor(o: Oracle, fuel: nat, kind: Kind, scope: Scope, state: State): (r: Tried)
    requires kind.For?
    ensures InScope(r.out.ending, scope) && (state.cut ==> r.out.state.cut)
    decreases fuel, kind, 1
  {
    var words, now := o.words(kind.words, state.trace, state.last), After(state, Expanded, kind.words);
    match words.result
    case Err(e) => Tried(Outcome(Stopped(words.fatal, None), 1, WithLast(now, 1)), Some(e))
    case Ok(count) =>
      if words.fatal then Tried(Outcome(Fatal, 1, WithLast(now, 1)), None)
      else RunRounds(o, fuel, kind, count, 0, scope, now)
  }

  /** The last `left` rounds of a `for` loop. */
  function RunRounds(o: Oracle, fuel: nat, kind: Kind, left: nat, status: int, scope: Scope, state: State):
      (r: Tried)
    requires kind.For?
    ensures InScope(r.out.ending, scope) && (state.cut ==> r.out.state.cut)
    decreases fuel, kind, 0, left
  {
    if left == 0 then Tried(Outcome(Normal, status, state), None) else
      var error, now := o.assign(kind.words, state.trace), After(state, Assigned, kind.words);
      if error.Some? then Tried(Outcome(Normal, status, now), error) else
        var r := RunBody(o, fuel, kind.body, 0, InLoop(scope), now);
        match Round(r.ending)
        case Some(ending) => Tried(Outcome(ending, r.status, r.state), None)
        case None => RunRounds(o, fuel, kind, left - 1, r.status, scope, r.state)
  }

  function RunCase(o: Oracle, fuel: nat, kind: Kind, scope: Scope, state: State): (r: Tried)
    requires kind.Case?
    ensures InScope(r.out.ending, scope) && (state.cut ==> r.out.state.cut)
    decreases fuel, kind, 1
  {
    var word, now := o.word(kind.word, state.trace, state.last), After(state, Expanded, kind.word);
    match word.result
    case Err(e) => Tried(Outcome(Stopped(word.fatal, None), 1, WithLast(now, 1)), Some(e))
    case Ok(_) =>
      if word.fatal then Tried(Outcome(Fatal, 1, WithLast(now, 1)), None)
      else RunItemsOfCase(o, fuel, kind.items, false, 0, scope, now)
  }

  /** The first item that matches, and those it falls through to. */
  function RunItemsOfCase(o: Oracle, fuel: nat, items: List<CaseItem>, falling: bool, status: int, scope: Scope,
      state: State): (r: Tried)
    ensures InScope(r.out.ending, scope) && (state.cut ==> r.out.state.cut)
    decreases fuel, items, 0
  {
    match items
    case Nil => Tried(Outcome(Normal, status, state), None)
    case Cons(item, rest) =>
      var (found, now) := if falling then (Ok(true), state) else MatchAny(o, item.patterns, state);
      match found
      case Err(e) => Tried(Outcome(Normal, status, WithLast(now, 1)), Some(e))
      case Ok(matched) =>
        if !matched then RunItemsOfCase(o, fuel, rest, false, status, scope, now) else
          var r := RunBody(o, fuel, item.body, 0, scope, now);
          if r.ending.Normal? && item.fallThrough
          then RunItemsOfCase(o, fuel, rest, true, r.status, scope, r.state) else Tried(r, None)
  }

  /** Patterns are expanded in order, up to the first that matches. */
  function MatchAny(o: Oracle, patterns: List<nat>, state: State): (r: (Result<bool, Failure>, State))
    ensures r.1.cut == state.cut
  {
    match patterns
    case Nil => (Ok(false), state)
    case Cons(p, rest) =>
      var found, now := o.pattern(p, state.trace, state.last), After(state, Tested, p);
      if found.Ok? && !found.value then MatchAny(o, rest, now) else (found, now)
  }
}
