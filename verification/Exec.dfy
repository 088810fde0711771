/** The executor: one pending `flowControl`, counters changed and restored
    around loops, conditions, functions and dot scripts. Every method leaves
    the counters as it found them and reaches exactly the ending, status,
    `$?` and events that the structured evaluator gives. */
module Exec {
  import opened Prelude
  import opened ExecSpec

  datatype FlowControl = BreakFlow(n: nat) | ContinueFlow(n: nat) | ReturnFlow(code: int) | ExpansionError

  /** A number of variable scopes: the global one is never popped. */
  type Depth = n: int | n >= 1 witness 1

  datatype Counters = Counters(loopDepth: nat, suppressed: nat, indirection: nat, scopes: Depth, inDotScript: bool,
      interactive: bool)

  function FlowOf(e: Ending): Option<FlowControl> {
    match e
    case Break(n) => Some(BreakFlow(n))
    case Continue(n) => Some(ContinueFlow(n))
    case Return(code) => Some(ReturnFlow(code))
    case Fatal => Some(ExpansionError)
    case FatalQuit(_) => Some(ExpansionError)
    case _ => None
  }

  function QuitOf(e: Ending): Option<int> {
    match e
    case Quit(code) => Some(code)
    case FatalQuit(code) => Some(code)
    case _ => None
  }

  class Executor {
    const o: Oracle
    var flowControl: Option<FlowControl>
    var exitRequested: Option<int>
    var lastExitStatus: int
    var errexitExempt: bool
    var loopDepth: nat
    var errexitSuppressedDepth: nat
    var indirectionLevel: nat
    var scopeDepth: Depth
    var inDotScript: bool
    var isInteractive: bool
    var trace: Trace
    /** The fuel ran out on the way. */
    ghost var cut: bool

    constructor (o: Oracle, interactive: bool)
      ensures this.o == o && Clear()
      ensures Here() == Scope(0, false, false, interactive) && Now() == State(0, false, [], false)
    {
      this.o := o;
      flowControl, exitRequested := None, None;
      lastExitStatus, errexitExempt, trace := 0, false, [];
      loopDepth, errexitSuppressedDepth, indirectionLevel, scopeDepth := 0, 0, 0, 1;
      inDotScript, isInteractive, cut := false, interactive, false;
    }

    /** The copy of the shell a forked child runs on; it is not interactive. */
    constructor Subshell(e: Executor)
      ensures o == e.o && flowControl == e.flowControl && exitRequested == e.exitRequested
      ensures Here() == e.Here().(interactive := false) && Now() == e.Now()
    {
      o := e.o;
      flowControl, exitRequested := e.flowControl, e.exitRequested;
      lastExitStatus, errexitExempt, trace := e.lastExitStatus, e.errexitExempt, e.trace;
      loopDepth, errexitSuppressedDepth := e.loopDepth, e.errexitSuppressedDepth;
      indirectionLevel, scopeDepth := e.indirectionLevel, e.scopeDepth;
      inDotScript, isInteractive, cut := e.inDotScript, false, e.cut;
    }

    // ----- what the fields mean -----

    ghost function Here(): Scope
      reads this
    {
      Scope(loopDepth, errexitSuppressedDepth > 0, scopeDepth > 1 || inDotScript, isInteractive)
    }

    ghost function Now(): State
      reads this
    {
      State(lastExitStatus, errexitExempt, trace, cut)
    }

    ghost function Kept(): Counters
      reads this
    {
      Counters(loopDepth, errexitSuppressedDepth, indirectionLevel, scopeDepth, inDotScript, isInteractive)
    }

    predicate Clear()
      reads this
    {
      flowControl.None? && exitRequested.None?
    }

    /** The fields show this ending. */
    ghost predicate Ends(e: Ending)
      reads this
    {
      flowControl == FlowOf(e) && exitRequested == QuitOf(e)
    }

    ghost predicate Shows(status: int, r: Outcome)
      reads this
    {
      status == r.status && Ends(r.ending) && Now() == r.state
    }

    ghost predicate ShowsResult(result: Result<int, Failure>, r: Tried)
      reads this
    {
      match result
      case Ok(status) => r.error.None? && Shows(status, r.out)
      case Err(e) => r.error == Some(e) && Shows(r.out.status, r.out)
    }

    /** `None` for a text that ended in a syntax error. */
    ghost predicate ShowsText(result: Option<int>, r: TextEnd)
      reads this
    {
      result == (if r.bad then None else Some(r.out.status)) && Shows(r.out.status, r.out)
    }

    /** On an error, what is left to do is to report it. */
    ghost predicate Leaves(result: Result<int, Failure>, r: Outcome)
      reads this
    {
      match result
      case Ok(status) => Shows(status, r)
      case Err(e) =>
        && r == Reported(isInteractive, e, ExpansionErrorPending(), Now())
        && exitRequested.None? && (flowControl.None? || ExpansionErrorPending())
    }

    /** A pending `break` or `continue` is about loops that are running, and a
        pending `return` about a function or dot script that is. */
    predicate PendingInRange()
      reads this
    {
      match flowControl
      case Some(BreakFlow(n)) => 1 <= n <= loopDepth
      case Some(ContinueFlow(n)) => 1 <= n <= loopDepth
      case Some(ReturnFlow(_)) => scopeDepth > 1 || inDotScript
      case _ => true
    }

    // ----- control/mod.rs -----

    predicate ShouldUnwind()
      reads this
    {
      flowControl.Some? || exitRequested.Some?
    }

    predicate ExpansionErrorPending()
      reads this
    {
      flowControl == Some(ExpansionError)
    }

    method Note(what: What, id: nat)
      modifies this`trace
      ensures Now() == After(old(Now()), what, id)
    {
      trace := trace + [Step(what, id)];
    }

    method CheckErrexit(status: int)
      modifies this`exitRequested
      ensures exitRequested ==
        if status != 0 && !errexitExempt && o.errexit(trace) && errexitSuppressedDepth == 0
        then Some(status) else old(exitRequested)
    {
      if status != 0 && !errexitExempt && o.errexit(trace) && errexitSuppressedDepth == 0 {
        exitRequested := Some(status);
      }
    }

    method ListItemStopsList(status: int, ghost r: Outcome) returns (stop: bool)
      requires Shows(status, r)
      modifies this`exitRequested
      ensures Shows(status, Checked(o, Here(), r))
      ensures stop == !Checked(o, Here(), r).ending.Normal?
    {
      if ShouldUnwind() { return true; }
      CheckErrexit(status);
      return exitRequested.Some?;
    }

    /** Every error of a command is reported here. */
    method ReportCommandError(e: Failure) returns (status: int)
      requires exitRequested.None? && (flowControl.None? || ExpansionErrorPending())
      modifies this`lastExitStatus, this`exitRequested
      ensures Shows(status, Reported(isInteractive, e, old(ExpansionErrorPending()), old(Now())))
    {
      lastExitStatus := e.code;
      if !isInteractive && e.exits { exitRequested := Some(e.code); }
      return e.code;
    }

    method ExecBody(fuel: nat, body: Body) returns (status: int)
      requires Clear()
      modifies this
      ensures Shows(status, RunBody(o, fuel, body, 0, old(Here()), old(Now()))) && Kept() == old(Kept())
      ensures PendingInRange()
      decreases fuel, body, 0
    {
      var rest := body;
      status := 0;
      while rest.Cons?
        invariant Clear() && Kept() == old(Kept()) && (rest == body || rest < body)
        invariant RunBody(o, fuel, rest, status, Here(), Now()) == RunBody(o, fuel, body, 0, old(Here()), old(Now()))
        decreases rest
      {
        ghost var r := RunComplete(o, fuel, rest.head, Here(), Now());
        status := ExecCompleteCommand(fuel, rest.head);
        var stop := ListItemStopsList(status, r);
        if stop { return; }
        rest := rest.tail;
      }
    }

    method ExecCompleteCommand(fuel: nat, command: Complete) returns (status: int)
      requires Clear()
      modifies this
      ensures Shows(status, RunComplete(o, fuel, command, old(Here()), old(Now()))) && Kept() == old(Kept())
      decreases fuel, command, 1
    {
      if o.noexec(trace) { return 0; }
      status := 0;
      var items := command;
      while items.Cons?
        invariant Clear() && Kept() == old(Kept()) && (items == command || items < command)
        invariant RunItems(o, fuel, items, status, Here(), Now()) ==
          RunItems(o, fuel, command, 0, old(Here()), old(Now()))
        decreases items
      {
        ghost var r := if items.head.async
          then Outcome(Normal, o.start(items.head.id, trace, lastExitStatus), After(Now(), Started, items.head.id))
          else RunAndOr(o, fuel, items.head.andOr, Here(), Now());
        if items.head.async {
          status := o.start(items.head.id, trace, lastExitStatus);
          Note(Started, items.head.id);
        } else {
          status := ExecAndOr(fuel, items.head.andOr);
        }
        var stop := ListItemStopsList(status, r);
        if stop { break; }
        items := items.tail;
      }
      lastExitStatus := status;
    }

    // ----- control/and_or.rs -----

    method ExecAndOr(fuel: nat, andOr: AndOr) returns (status: int)
      requires Clear()
      modifies this
      ensures Shows(status, RunAndOr(o, fuel, andOr, old(Here()), old(Now()))) && Kept() == old(Kept())
      decreases fuel, andOr, 0
    {
      status := ExecPipelineErrexit(fuel, andOr.first, andOr.first.negated || andOr.rest.Cons?);
      if ShouldUnwind() { return; }
      ghost var first := Now();
      ghost var was := status;
      var rest := andOr.rest;
      while rest.Cons?
        invariant Clear() && Kept() == old(Kept()) && (rest == andOr.rest || rest < andOr.rest)
        invariant RunRest(o, fuel, rest, status, Here(), Now()) == RunRest(o, fuel, andOr.rest, was, old(Here()), first)
        decreases rest
      {
        status := ExecBranch(fuel, rest, status);
        rest := rest.tail;
        if ShouldUnwind() { break; }
      }
      lastExitStatus := status;
    }

    /** The next pipeline of the list, unless the status so far skips it. */
    method ExecBranch(fuel: nat, rest: List<Branch>, before: int) returns (status: int)
      requires Clear() && rest.Cons?
      modifies this
      ensures Kept() == old(Kept())
      ensures var r := RunRest(o, fuel, rest, before, old(Here()), old(Now()));
              if Clear() then r == RunRest(o, fuel, rest.tail, status, Here(), Now()) else Shows(status, r)
      decreases fuel, rest, 0
    {
      var branch, isLast := rest.head, rest.tail.Nil?;
      var shouldRun := if branch.op.AndIf? then before == 0 else before != 0;
      if !shouldRun { return before; }
      status := ExecPipelineErrexit(fuel, branch.pipe, branch.pipe.negated || !isLast);
    }

    method ExecPipelineErrexit(fuel: nat, pipe: Pipe, exempt: bool) returns (status: int)
      requires Clear()
      modifies this
      ensures Shows(status, RunExemptible(o, fuel, pipe, exempt, old(Here()), old(Now()))) && Kept() == old(Kept())
      decreases fuel, pipe, 1
    {
      errexitExempt := false;
      if exempt {
        errexitSuppressedDepth := errexitSuppressedDepth + 1;
        status := ExecPipeline(fuel, pipe);
        errexitSuppressedDepth := errexitSuppressedDepth - 1;
        errexitExempt := true;
      } else {
        status := ExecPipeline(fuel, pipe);
      }
    }

    method ExecPipeline(fuel: nat, pipe: Pipe) returns (status: int)
      requires Clear()
      modifies this
      ensures Shows(status, RunPipe(o, fuel, pipe, old(Here()), old(Now()))) && Kept() == old(Kept())
      decreases fuel, pipe, 0
    {
      status := ExecCommand(fuel, pipe.command);
      if pipe.negated { status := if status == 0 then 1 else 0; }
      lastExitStatus := status;
    }

    method ExecCommand(fuel: nat, command: Command) returns (status: int)
      requires Clear()
      modifies this
      ensures Shows(status, RunCommand(o, fuel, command, old(Here()), old(Now()))) && Kept() == old(Kept())
      ensures PendingInRange()
      decreases fuel, command, 1
    {
      if command.Multi? {
        status := o.multi(command.id, trace, lastExitStatus);
        Note(Piped, command.id);
        return;
      }
      if o.noexec(trace) { return 0; }
      match command {
        case Simple(_) =>
          status := ExecSimpleCommand(fuel, command);
          errexitExempt := false;
        case Grouped(compound) =>
          var result := ExecCompoundCommand(fuel, compound);
          match result {
            case Ok(s) => status := s;
            case Err(e) => status := ReportCommandError(e);
          }
        case Define(id) => status := DefineFunction(id);
      }
    }

    method DefineFunction(id: nat) returns (status: int)
      requires Clear()
      modifies this
      ensures Shows(status, RunDefine(o, id, old(Here()), After(old(Now()), Defined, id))) && Kept() == old(Kept())
    {
      Note(Defined, id);
      if o.isSpecialName(id) {
        lastExitStatus := 2;
        if !isInteractive { exitRequested := Some(2); }
        return 2;
      }
      return 0;
    }

    // ----- simple commands and the built-ins of control flow -----

    method ExecSimpleCommand(fuel: nat, command: Command) returns (status: int)
      requires Clear() && command.Simple?
      modifies this
      ensures Shows(status, RunSimple(o, fuel, command, old(Here()), old(Now()))) && Kept() == old(Kept())
      decreases fuel, command, 0
    {
      var out := o.simple(command.id, trace, lastExitStatus);
      Note(Ran, command.id);
      lastExitStatus := out.last;
      match out.dispatch {
        case Other(s, fatal, quit) =>
          status := s;
          if fatal { flowControl := Some(ExpansionError); }
          exitRequested := quit;
        case LoopControl(isBreak, count) => status := BuiltinLoopControl(isBreak, count);
        case ReturnCommand(code) => status := BuiltinReturn(code);
        case ExitCommand(code) => status := BuiltinExit(code);
        case Nested(code) =>
          if fuel == 0 { status := RecursionTooDeep(); } else { status := ExecNested(fuel - 1, code); }
      }
      lastExitStatus := status;
    }

    method ExecNested(fuel: nat, code: Code) returns (status: int)
      requires Clear()
      modifies this
      ensures Shows(status, RunNested(o, fuel, code, old(Here()), old(Now())).(state := Now())) && Kept() == old(Kept())
      ensures WithLast(Now(), status) == RunNested(o, fuel, code, old(Here()), old(Now())).state
      decreases fuel, code, 3
    {
      match code {
        case Call(body) => status := ExecFunctionCall(fuel, body);
        case Eval(_) => status := BuiltinEval(fuel, code);
        case Dot(_) => status := SourceFile(fuel, code);
      }
    }

    method RecursionTooDeep() returns (status: int)
      requires Clear()
      modifies this`lastExitStatus, this`flowControl, this`cut
      ensures Shows(status, TooDeep(old(Now())))
    {
      cut := true;
      lastExitStatus := 1;
      flowControl := Some(ExpansionError);
      return 1;
    }

    /** A utility error of a special built-in. */
    method UtilityError(code: int) returns (status: int)
      requires Clear()
      modifies this`exitRequested, this`lastExitStatus
      ensures var ending := Stopped(false, if isInteractive then None else Some(code));
              Shows(status, Outcome(ending, code, WithLast(old(Now()), code)))
    {
      lastExitStatus := code;
      if !isInteractive { exitRequested := Some(code); }
      return code;
    }

    method BuiltinLoopControl(isBreak: bool, count: Operand) returns (status: int)
      requires Clear()
      modifies this`exitRequested, this`lastExitStatus, this`flowControl
      ensures Shows(status, RunLoopControl(isBreak, count, old(Here()), old(Now())).(state := Now()))
      ensures WithLast(Now(), status) == RunLoopControl(isBreak, count, old(Here()), old(Now())).state
    {
      if loopDepth == 0 { return 1; }
      var n: nat;
      match count {
        case Absent => n := 1;
        case Number(k) =>
          if k <= 0 { status := UtilityError(2); return; }
          n := k;
        case NotNumber => status := UtilityError(2); return;
      }
      var clamped := if n <= loopDepth then n else loopDepth;
      flowControl := Some(if isBreak then BreakFlow(clamped) else ContinueFlow(clamped));
      return 0;
    }

    method BuiltinReturn(code: Operand) returns (status: int)
      requires Clear()
      modifies this`exitRequested, this`lastExitStatus, this`flowControl
      ensures Shows(status, RunReturn(code, old(Here()), old(Now())).(state := Now()))
      ensures WithLast(Now(), status) == RunReturn(code, old(Here()), old(Now())).state
    {
      if scopeDepth <= 1 && !inDotScript { return 1; }
      match code {
        case Absent => status := lastExitStatus % 256;
        case Number(n) => status := n % 256;
        case NotNumber => status := UtilityError(2); return;
      }
      flowControl := Some(ReturnFlow(status));
    }

    method BuiltinExit(code: Operand) returns (status: int)
      requires Clear()
      modifies this`exitRequested, this`lastExitStatus
      ensures Shows(status, RunExit(code, old(Now())))
    {
      status := match code case Absent => lastExitStatus case Number(n) => n % 256 case NotNumber => 2;
      lastExitStatus := status;
      exitRequested := Some(status);
    }

    // ----- function.rs: scope, indirection and loop depth are restored -----

    method ExecFunctionCall(fuel: nat, body: Compound) returns (status: int)
      requires Clear()
      modifies this
      ensures Shows(status, RunCall(o, fuel, body, old(Here()), old(Now()))) && Kept() == old(Kept())
      ensures flowControl.None? || ExpansionErrorPending()
      decreases fuel, body, 3
    {
      ghost var r := RunCompound(o, fuel, body, Scope(0, Here().quiet, true, isInteractive), Now());
      var result := ExecFunctionBody(fuel, body);
      status := FinishCall(result, r);
    }

    /** The body, in a scope of its own. */
    method ExecFunctionBody(fuel: nat, body: Compound) returns (result: Result<int, Failure>)
      requires Clear()
      modifies this
      ensures Leaves(result, RunCompound(o, fuel, body, Scope(0, old(Here()).quiet, true, isInteractive), old(Now())))
      ensures Kept() == old(Kept())
      decreases fuel, body, 2
    {
      scopeDepth := scopeDepth + 1;
      indirectionLevel := indirectionLevel + 1;
      var savedLoopDepth := loopDepth;
      loopDepth := 0;
      result := ExecCompoundCommand(fuel, body);
      loopDepth := savedLoopDepth;
      indirectionLevel := indirectionLevel - 1;
      scopeDepth := scopeDepth - 1;
    }

    /** What the call makes of its body's result: the `set -e` exemption does
        not cross the call, errors are reported, a `return` is taken. */
    method FinishCall(result: Result<int, Failure>, ghost r: Outcome) returns (status: int)
      requires Leaves(result, r)
      modifies this`errexitExempt, this`lastExitStatus, this`exitRequested, this`flowControl
      ensures var (ending, s) := if r.ending.Return? then (Normal, r.ending.code) else (r.ending, r.status);
              Shows(status, Outcome(ending, s, r.state.(last := s, exempt := false)))
    {
      errexitExempt := false;
      match result {
        case Ok(s) => status := s;
        case Err(e) => status := ReportCommandError(e);
      }
      match flowControl {
        case Some(ReturnFlow(code)) =>
          flowControl := None;
          status := code;
        case _ =>
      }
      lastExitStatus := status;
    }

    // ----- mod.rs: texts -----

    method ExecText(fuel: nat, code: Code) returns (result: Option<int>)
      requires Clear() && !code.Call?
      modifies this
      ensures Kept() == old(Kept())
      ensures ShowsText(result, RunText(o, fuel, code, 0, 0, old(Here()), old(Now())))
      decreases fuel, code, 1
    {
      ghost var goal := RunText(o, fuel, code, 0, 0, Here(), Now());
      var status: int, k: nat, left: nat := 0, 0, fuel;
      while true
        invariant Clear() && Kept() == old(Kept()) && left <= fuel
        invariant RunText(o, left, code, k, status, Here(), Now()) == goal
        decreases left
      {
        var parsed;
        parsed, status := TextRound(left, code, k, status);
        if parsed.SyntaxError? {
          lastExitStatus := status;
          return None;
        }
        if parsed.End? || ShouldUnwind() { break; }
        left, k := left - 1, k + 1;
      }
      lastExitStatus := status;
      return Some(status);
    }

    /** Read the `k`th command of a text, and run it if there is one. Without
        fuel the text ends here. */
    method TextRound(fuel: nat, code: Code, k: nat, before: int) returns (parsed: Parsed, status: int)
      requires Clear() && !code.Call?
      modifies this
      ensures Kept() == old(Kept()) && (parsed.SyntaxError? ==> Clear())
      ensures var r := RunText(o, fuel, code, k, before, old(Here()), old(Now()));
              if parsed.Read? && Clear() then fuel > 0 && r == RunText(o, fuel - 1, code, k + 1, status, Here(), Now())
              else r.bad == parsed.SyntaxError? && Ends(r.out.ending)
                   && status == r.out.status && WithLast(Now(), status) == r.out.state
      decreases fuel, code, 0
    {
      if fuel == 0 {
        exitRequested, cut := Some(OUT_OF_FUEL), true;
        return Parsed.End, before;
      }
      parsed, status := o.parse(code.text, k, trace), before;
      Note(What.Parsed, code.text);
      if parsed.Read? { status := ExecCompleteCommand(fuel - 1, parsed.command); }
    }

    method BuiltinEval(fuel: nat, code: Code) returns (status: int)
      requires Clear() && code.Eval?
      modifies this
      ensures Shows(status, RunEval(o, fuel, code, old(Here()), old(Now())).(state := Now())) && Kept() == old(Kept())
      ensures WithLast(Now(), status) == RunEval(o, fuel, code, old(Here()), old(Now())).state
      decreases fuel, code, 2
    {
      var result := ExecText(fuel, code);
      status := if result.Some? then result.value else 2;
    }

    method SourceFile(fuel: nat, code: Code) returns (status: int)
      requires Clear() && code.Dot?
      modifies this
      ensures Shows(status, RunDot(o, fuel, code, old(Here()), old(Now())).(state := Now())) && Kept() == old(Kept())
      ensures WithLast(Now(), status) == RunDot(o, fuel, code, old(Here()), old(Now())).state
      decreases fuel, code, 2
    {
      var prevDotScript := inDotScript;
      inDotScript := true;
      indirectionLevel := indirectionLevel + 1;
      ghost var text := RunText(o, fuel, code, 0, 0, Here(), Now());
      var result := ExecText(fuel, code);
      status := LeaveDot(result, prevDotScript, text);
    }

    method LeaveDot(result: Option<int>, prevDotScript: bool, ghost text: TextEnd) returns (status: int)
      requires ShowsText(result, text) && indirectionLevel > 0 && (text.bad ==> text.out.ending.Normal?)
      modifies this`flowControl, this`inDotScript, this`indirectionLevel
      ensures Shows(status, AfterDot(text).(state := Now())) && WithLast(Now(), status) == AfterDot(text).state
      ensures Kept() == old(Kept()).(inDotScript := prevDotScript, indirection := old(indirectionLevel) - 1)
    {
      match result {
        case Some(s) =>
          match flowControl {
            case Some(ReturnFlow(code)) =>
              flowControl := None;
              inDotScript := prevDotScript;
              indirectionLevel := indirectionLevel - 1;
              return code;
            case _ =>
          }
          status := s;
        case None => status := 2;
      }
      inDotScript := prevDotScript;
      indirectionLevel := indirectionLevel - 1;
    }

    // ----- compound.rs -----

    method ExecCompoundCommand(fuel: nat, c: Compound) returns (result: Result<int, Failure>)
      requires Clear()
      modifies this
      ensures Kept() == old(Kept())
      ensures Leaves(result, RunCompound(o, fuel, c, old(Here()), old(Now())))
      decreases fuel, c, 0
    {
      var prepared := o.prepare(c.prep, trace, lastExitStatus);
      Note(Prepared, c.prep);
      if prepared.Some? {
        if prepared.value.1 { flowControl := Some(ExpansionError); }
        lastExitStatus := 1;
        return Err(prepared.value.0);
      }
      result := ExecKind(fuel, c.kind);
      if result.Err? { return; }
      lastExitStatus := result.value;
    }

    method ExecKind(fuel: nat, kind: Kind) returns (result: Result<int, Failure>)
      requires Clear()
      modifies this
      ensures Kept() == old(Kept())
      ensures ShowsResult(result, RunKind(o, fuel, kind, old(Here()), old(Now())))
      ensures result.Err? ==> exitRequested.None? && (flowControl.None? || ExpansionErrorPending())
      decreases fuel, kind, 3
    {
      var status;
      match kind {
        case Brace(body) => status := ExecBody(fuel, body); result := Ok(status);
        case Subshell(_, _) => result := ExecSubshell(fuel, kind);
        case If(_, _, _) => status := ExecIf(fuel, kind); result := Ok(status);
        case While(_, _, _) => status := ExecLoop(fuel, kind); result := Ok(status);
        case For(_, _) => result := ExecFor(fuel, kind);
        case Case(_, _) => result := ExecCase(fuel, kind);
      }
    }

    function ChildExitStatus(status: int): int
      reads this
    {
      if exitRequested.Some? then exitRequested.value
      else if ExpansionErrorPending() then 1
      else status
    }

    method ExecSubshell(fuel: nat, kind: Kind) returns (result: Result<int, Failure>)
      requires Clear() && kind.Subshell?
      modifies this
      ensures Kept() == old(Kept())
      ensures ShowsResult(result, RunSubshell(o, fuel, kind, old(Here()), old(Now()))) && Clear()
      decreases fuel, kind, 1
    {
      var error := o.forkError(kind.fork, trace);
      Note(Forked, kind.fork);
      if error.Some? { return Err(error.value); }
      var child := new Executor.Subshell(this);
      var status := child.ExecBody(fuel, kind.body);
      status := child.ChildExitStatus(status);
      trace, cut := trace + [Child(child.trace)], child.cut;
      return Ok(if o.waitFails(kind.fork, trace) then 1 else status % 256);
    }

    method ExecQuietBody(fuel: nat, body: Body) returns (status: int)
      requires Clear()
      modifies this
      ensures Shows(status, RunBody(o, fuel, body, 0, Quiet(old(Here())), old(Now()))) && Kept() == old(Kept())
      decreases fuel, body, 1
    {
      errexitSuppressedDepth := errexitSuppressedDepth + 1;
      status := ExecBody(fuel, body);
      errexitSuppressedDepth := errexitSuppressedDepth - 1;
    }

    method ExecIf(fuel: nat, kind: Kind) returns (status: int)
      requires Clear() && kind.If?
      modifies this
      ensures Shows(status, RunIf(o, fuel, kind, old(Here()), old(Now()))) && Kept() == old(Kept())
      decreases fuel, kind, 1
    {
      status := ExecQuietBody(fuel, kind.condition);
      if ShouldUnwind() { return; }
      if status == 0 {
        status := ExecBody(fuel, kind.thenPart);
        return;
      }
      ghost var first := Now();
      var others := kind.others;
      while others.Elif?
        invariant Clear() && Kept() == old(Kept()) && (others == kind.others || others < kind.others)
        invariant RunOthers(o, fuel, others, Here(), Now()) == RunOthers(o, fuel, kind.others, old(Here()), first)
        decreases others
      {
        status := ExecQuietBody(fuel, others.condition);
        if ShouldUnwind() { return; }
        if status == 0 {
          status := ExecBody(fuel, others.body);
          return;
        }
        others := others.rest;
      }
      if others.part.Some? {
        status := ExecBody(fuel, others.part.value);
        return;
      }
      return 0;
    }

    /** Consume a `break` or `continue` aimed at this loop. */
    method LoopMustStop(ghost e: Ending) returns (stop: bool)
      requires Ends(e)
      modifies this`flowControl
      ensures match Round(e)
              case None => !stop && flowControl.None? && exitRequested == QuitOf(e) == None
              case Some(ending) => Ends(ending) && stop == !ending.Quit?
    {
      match flowControl {
        case Some(BreakFlow(n)) =>
          flowControl := if n > 1 then Some(BreakFlow(n - 1)) else None;
          return true;
        case Some(ContinueFlow(n)) =>
          flowControl := if n > 1 then Some(ContinueFlow(n - 1)) else None;
          return n > 1;
        case Some(_) => return true;
        case None => return false;
      }
    }

    /** One run of a loop body, and whether the loop must stop after it. An
        exit request is left to the test at the head of the loop. */
    method ExecRound(fuel: nat, body: Body) returns (status: int, stop: bool)
      requires Clear()
      modifies this
      ensures Kept() == old(Kept())
      ensures var r := RunBody(o, fuel, body, 0, old(Here()), old(Now()));
              && status == r.status && Now() == r.state
              && match Round(r.ending)
                 case None => !stop && Clear()
                 case Some(ending) => Ends(ending) && stop == !ending.Quit?
      decreases fuel, body, 1
    {
      ghost var r := RunBody(o, fuel, body, 0, Here(), Now());
      status := ExecBody(fuel, body);
      stop := LoopMustStop(r.ending);
    }

    /** A loop's condition: a `break` or `continue` in it belongs to the loop. */
    method ExecCondition(fuel: nat, condition: Body) returns (status: int, taken: bool, stop: bool)
      requires Clear()
      modifies this
      ensures Kept() == old(Kept())
      ensures var c := RunBody(o, fuel, condition, 0, Quiet(old(Here())), old(Now()));
              && status == c.status && Now() == c.state && taken == (c.ending.Break? || c.ending.Continue?)
              && if !taken then Ends(c.ending)
                 else match Round(c.ending) case None => !stop && Clear() case Some(ending) => stop && Ends(ending)
      decreases fuel, condition, 2
    {
      ghost var c := RunBody(o, fuel, condition, 0, Quiet(Here()), Now());
      status := ExecQuietBody(fuel, condition);
      var pending := flowControl.Some? && (flowControl.value.BreakFlow? || flowControl.value.ContinueFlow?);
      taken := pending && exitRequested.None?;
      stop := false;
      if taken { stop := LoopMustStop(c.ending); }
    }

    method ExecLoop(fuel: nat, kind: Kind) returns (status: int)
      requires Clear() && kind.While?
      modifies this
      ensures Shows(status, RunWhile(o, fuel, kind, 0, old(Here()), old(Now()))) && Kept() == old(Kept())
      decreases fuel, kind, 2
    {
      loopDepth := loopDepth + 1;
      status := ExecLoopInner(fuel, kind, Here().(depth := loopDepth - 1));
      loopDepth := loopDepth - 1;
    }

    method ExecLoopInner(fuel: nat, kind: Kind, ghost outer: Scope) returns (status: int)
      requires Clear() && kind.While? && Here() == InLoop(outer)
      modifies this
      ensures Shows(status, RunWhile(o, fuel, kind, 0, outer, old(Now()))) && Kept() == old(Kept())
      decreases fuel, kind, 1
    {
      ghost var goal := RunWhile(o, fuel, kind, 0, outer, Now());
      status := 0;
      var left: nat, stop := fuel, false;
      while !stop && exitRequested.None?
        invariant Kept() == old(Kept()) && left <= fuel
        invariant if !stop && exitRequested.None?
                  then Clear() && RunWhile(o, left, kind, status, outer, Now()) == goal
                  else Shows(status, goal)
        decreases left, !stop && exitRequested.None?
      {
        status, stop := ExecWhileRound(left, kind, status, outer);
        left := if left > 0 then left - 1 else 0;
      }
    }

    /** The condition and body once; without fuel the loop ends here. */
    method ExecWhileRound(fuel: nat, kind: Kind, before: int, ghost outer: Scope) returns (status: int, stop: bool)
      requires Clear() && kind.While? && Here() == InLoop(outer)
      modifies this
      ensures Kept() == old(Kept())
      ensures var r := RunWhile(o, fuel, kind, before, outer, old(Now()));
              if !stop && exitRequested.None?
              then Clear() && fuel > 0 && r == RunWhile(o, fuel - 1, kind, status, outer, Now())
              else Shows(status, r)
      decreases fuel, kind, 0
    {
      if fuel == 0 {
        exitRequested, cut := Some(OUT_OF_FUEL), true;
        return before, true;
      }
      var taken;
      status, taken, stop := ExecCondition(fuel - 1, kind.condition);
      if taken { return before, stop; }
      if ShouldUnwind() { return status, true; }
      var shouldRun := if kind.until then status != 0 else status == 0;
      if !shouldRun { return before, true; }
      status, stop := ExecRound(fuel - 1, kind.body);
    }

    method ExecFor(fuel: nat, kind: Kind) returns (result: Result<int, Failure>)
      requires Clear() && kind.For?
      modifies this
      ensures Kept() == old(Kept())
      ensures ShowsResult(result, RunFor(o, fuel, kind, old(Here()), old(Now())))
      ensures result.Err? ==> exitRequested.None? && (flowControl.None? || ExpansionErrorPending())
      decreases fuel, kind, 1
    {
      loopDepth := loopDepth + 1;
      result := ExecForInner(fuel, kind, Here().(depth := loopDepth - 1));
      loopDepth := loopDepth - 1;
    }

    method ExecForInner(fuel: nat, kind: Kind, ghost outer: Scope) returns (result: Result<int, Failure>)
      requires Clear() && kind.For? && Here() == InLoop(outer)
      modifies this
      ensures Kept() == old(Kept())
      ensures ShowsResult(result, RunFor(o, fuel, kind, outer, old(Now())))
      ensures result.Err? ==> exitRequested.None? && (flowControl.None? || ExpansionErrorPending())
      decreases fuel, kind, 0, 1
    {
      var words := o.words(kind.words, trace, lastExitStatus);
      Note(Expanded, kind.words);
      if words.fatal { flowControl := Some(ExpansionError); }
      if words.result.Err? {
        lastExitStatus := 1;
        return Err(words.result.error);
      }
      if ExpansionErrorPending() {
        lastExitStatus := 1;
        return Ok(1);
      }
      result := ExecRounds(fuel, kind, words.result.value, outer);
    }

    /** The rounds of a `for` loop over `count` words. */
    method ExecRounds(fuel: nat, kind: Kind, count: nat, ghost outer: Scope) returns (result: Result<int, Failure>)
      requires Clear() && kind.For? && Here() == InLoop(outer)
      modifies this
      ensures Kept() == old(Kept())
      ensures ShowsResult(result, RunRounds(o, fuel, kind, count, 0, outer, old(Now())))
      ensures result.Err? ==> exitRequested.None? && (flowControl.None? || ExpansionErrorPending())
      decreases fuel, kind, 0, 0
    {
      var status, k := 0, 0;
      ghost var goal := RunRounds(o, fuel, kind, count, 0, outer, Now());
      while k < count
        invariant flowControl.None? && Kept() == old(Kept()) && k <= count
        invariant if exitRequested.None?
                  then RunRounds(o, fuel, kind, count - k, status, outer, Now()) == goal
                  else ShowsResult(Ok(status), goal)
      {
        if exitRequested.Some? { break; }
        var error := o.assign(kind.words, trace);
        Note(Assigned, kind.words);
        if error.Some? { return Err(error.value); }
        var stop;
        status, stop := ExecRound(fuel, kind.body);
        if stop { break; }
        k := k + 1;
      }
      return Ok(status);
    }

    method ExecCase(fuel: nat, kind: Kind) returns (result: Result<int, Failure>)
      requires Clear() && kind.Case?
      modifies this
      ensures Kept() == old(Kept())
      ensures ShowsResult(result, RunCase(o, fuel, kind, old(Here()), old(Now())))
      ensures result.Err? ==> exitRequested.None? && (flowControl.None? || ExpansionErrorPending())
      decreases fuel, kind, 1
    {
      var word := o.word(kind.word, trace, lastExitStatus);
      Note(Expanded, kind.word);
      if word.fatal { flowControl := Some(ExpansionError); }
      if word.result.Err? {
        lastExitStatus := 1;
        return Err(word.result.error);
      }
      if ExpansionErrorPending() {
        lastExitStatus := 1;
        return Ok(1);
      }
      ghost var first := Now();
      var status, falling, items := 0, false, kind.items;
      while items.Cons?
        invariant Clear() && Kept() == old(Kept()) && (items == kind.items || items < kind.items)
        invariant RunItemsOfCase(o, fuel, items, falling, status, Here(), Now())
          == RunItemsOfCase(o, fuel, kind.items, false, 0, old(Here()), first)
        decreases items
      {
        if !falling {
          var found := Matched(items.head.patterns);
          if found.Err? {
            lastExitStatus := 1;
            return Err(found.error);
          }
          if !found.value {
            items := items.tail;
            continue;
          }
        }
        status := ExecBody(fuel, items.head.body);
        if ShouldUnwind() { break; }
        if !items.head.fallThrough { break; }
        falling := true;
        items := items.tail;
      }
      return Ok(status);
    }

    /** Whether a pattern of one item matches. */
    method Matched(patterns: List<nat>) returns (found: Result<bool, Failure>)
      requires Clear()
      modifies this`trace
      ensures (found, Now()) == MatchAny(o, patterns, old(Now()))
    {
      var rest := patterns;
      while rest.Cons?
        invariant MatchAny(o, rest, Now()) == MatchAny(o, patterns, old(Now()))
        decreases rest
      {
        found := o.pattern(rest.head, trace, lastExitStatus);
        Note(Tested, rest.head);
        if found.Err? || found.value { return; }
        rest := rest.tail;
      }
      return Ok(false);
    }
  }
}
