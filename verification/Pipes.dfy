/** File descriptors of a pipeline: every process has a table from numbers to
    open files; `pipe`, `fcntl(F_DUPFD)` and `fork` may fail at any point. */
module Pipes {
  import opened Prelude

  datatype File = Other(id: nat) | ReadEnd(pipe: nat) | WriteEnd(pipe: nat)

  type Table = map<nat, File>

  type Ends = (nat, nat)

  /** What a forked member runs with, once its descriptors are connected. */
  datatype Member = Running(table: Table) | Exited(status: int)

  // ----- tables -----

  /** Descriptor numbers are handed out lowest first. */
  function LowestFree(t: Table, from: nat): (n: nat)
    ensures n >= from && n !in t
    ensures forall m :: from <= m < n ==> m in t
    decreases |set k | k in t && k >= from|
  {
    if from !in t then from else
      assert (set k | k in t && k >= from + 1) == (set k | k in t && k >= from) - {from};
      LowestFree(t, from + 1)
  }

  function EndsOf(pipes: seq<Ends>): set<nat> {
    if pipes == [] then {} else EndsOf(pipes[..|pipes| - 1]) + {pipes[|pipes| - 1].0, pipes[|pipes| - 1].1}
  }

  /** `t` with both ends of pipes `base`, `base + 1`, … open in it. */
  function WithPipes(t: Table, pipes: seq<Ends>, base: nat): Table {
    if pipes == [] then t else
      var k := |pipes| - 1;
      WithPipes(t, pipes[..k], base)[pipes[k].0 := ReadEnd(base + k)][pipes[k].1 := WriteEnd(base + k)]
  }

  /** The ends are distinct new numbers above the standard ones. */
  predicate NewEnds(t: Table, pipes: seq<Ends>) {
    pipes == [] ||
    (var k := |pipes| - 1;
     var (r, w) := pipes[k];
     && NewEnds(t, pipes[..k]) && r > 2 && w > 2 && r != w
     && r !in t && w !in t && {r, w} !! EndsOf(pipes[..k]))
  }

  /** The table of member `i`: its ends of the pipes around it, no other. */
  function MemberTable(t: Table, base: nat, i: nat, last: nat): Table {
    var input := if i > 0 then t[0 := ReadEnd(base + i - 1)] else t;
    if i < last then input[1 := WriteEnd(base + i)] else input
  }

  /** The member runs with `table`, or has exited because a call failed. */
  ghost predicate IsMember(m: Member, table: Table, faults: nat -> bool) {
    m == Running(table) || (m == Exited(1) && !Sound(faults))
  }

  /** No call fails. */
  ghost predicate Sound(faults: nat -> bool) { forall k :: !faults(k) }

  predicate NoPipesFrom(t: Table, base: nat) {
    forall fd :: fd in t ==> match t[fd] case Other(_) => true case ReadEnd(p) => p < base case WriteEnd(p) => p < base
  }

  // ----- lemmas on the ends of pipes -----

  lemma {:induction false} EndsAreNew(t: Table, pipes: seq<Ends>, base: nat)
    requires NewEnds(t, pipes)
    ensures EndsOf(pipes) !! t.Keys && (forall e :: e in EndsOf(pipes) ==> e > 2)
    ensures WithPipes(t, pipes, base).Keys == t.Keys + EndsOf(pipes)
    ensures forall fd :: fd in t ==> WithPipes(t, pipes, base)[fd] == t[fd]
  {
    if pipes != [] { EndsAreNew(t, pipes[..|pipes| - 1], base); }
  }

  /** Closing every end gives back the table the pipes were made in. */
  lemma ClosedAgain(t: Table, pipes: seq<Ends>, base: nat)
    requires NewEnds(t, pipes)
    ensures WithPipes(t, pipes, base) - EndsOf(pipes) == t
  {
    EndsAreNew(t, pipes, base);
  }

  lemma {:induction false} EndAt(t: Table, pipes: seq<Ends>, base: nat, i: nat)
    requires NewEnds(t, pipes) && i < |pipes|
    ensures var w := WithPipes(t, pipes, base);
            && pipes[i].0 in w && w[pipes[i].0] == ReadEnd(base + i)
            && pipes[i].1 in w && w[pipes[i].1] == WriteEnd(base + i)
            && pipes[i].0 in EndsOf(pipes) && pipes[i].1 in EndsOf(pipes)
  {
    if i < |pipes| - 1 {
      EndAt(t, pipes[..|pipes| - 1], base, i);
      assert pipes[..|pipes| - 1][i] == pipes[i];
    }
  }

  lemma BothClosed(t: Table, pipe: nat, r: nat, w: nat)
    requires r != w && r !in t && w !in t
    ensures var both := t[r := ReadEnd(pipe)][w := WriteEnd(pipe)];
            both - {r} - {w} == t && both - {w} - {r} == t
  {
  }

  lemma EndMoved(t: Table, pipe: nat, r: nat, w: nat, n: nat)
    requires r != w && r !in t && w !in t && n !in t && n != r && n != w
    ensures var both := t[r := ReadEnd(pipe)][w := WriteEnd(pipe)];
            && both[n := ReadEnd(pipe)] - {r} == t[n := ReadEnd(pipe)][w := WriteEnd(pipe)]
            && both[n := WriteEnd(pipe)] - {w} == t[r := ReadEnd(pipe)][n := WriteEnd(pipe)]
  {
  }

  lemma OneMore(t: Table, pipes: seq<Ends>, base: nat, before: Table, ends: Ends)
    requires NewEnds(t, pipes) && before == WithPipes(t, pipes, base)
    requires ends.0 > 2 && ends.1 > 2 && ends.0 != ends.1 && ends.0 !in before && ends.1 !in before
    ensures NewEnds(t, pipes + [ends])
    ensures WithPipes(t, pipes + [ends], base) ==
      before[ends.0 := ReadEnd(base + |pipes|)][ends.1 := WriteEnd(base + |pipes|)]
  {
    EndsAreNew(t, pipes, base);
    assert (pipes + [ends])[..|pipes|] == pipes;
  }

  /** Connecting member `i` and closing all ends leaves it `MemberTable`. */
  lemma Connected(t: Table, pipes: seq<Ends>, base: nat, i: nat)
    requires NewEnds(t, pipes) && i <= |pipes|
    ensures var w := WithPipes(t, pipes, base);
            var input := if i > 0 then w[0 := ReadEnd(base + i - 1)] else w;
            var output := if i < |pipes| then input[1 := WriteEnd(base + i)] else input;
            output - EndsOf(pipes) == MemberTable(t, base, i, |pipes|)
  {
    EndsAreNew(t, pipes, base);
  }

  /** The one descriptor on the write end of pipe `i` is member `i`'s output,
      and the one on its read end is the next member's input: no other member
      and not the shell, so the reader sees the end of file. */
  lemma OnlyItsMember(t: Table, base: nat, last: nat, i: nat, j: nat, fd: nat)
    requires NoPipesFrom(t, base) && i < last && j <= last
    ensures var m := MemberTable(t, base, j, last);
            && (fd in m && m[fd] == WriteEnd(base + i) <==> j == i && fd == 1)
            && (fd in m && m[fd] == ReadEnd(base + i) <==> j == i + 1 && fd == 0)
            && !(fd in t && t[fd] in {WriteEnd(base + i), ReadEnd(base + i)})
  {
    if fd in t { assert t[fd] !in {WriteEnd(base + i), ReadEnd(base + i)}; }
  }

  /** What a member does not get from a pipe it has from the shell: the first its
      input, the last its output, and every other descriptor. */
  lemma Inherited(t: Table, base: nat, last: nat, j: nat, fd: nat)
    requires j <= last && (fd == 0 ==> j == 0) && (fd == 1 ==> j == last)
    ensures var m := MemberTable(t, base, j, last);
            (fd in m <==> fd in t) && (fd in t ==> m[fd] == t[fd])
  {
  }

  /** Pipe `base + i` joins members `i` and `i + 1` alone: its write end is
      open as the output of the one only, its read end as the other's input. */
  ghost predicate Private(base: nat, i: nat, members: seq<Member>, shell: Table) {
    && (forall fd :: fd in shell ==> shell[fd] != WriteEnd(base + i) && shell[fd] != ReadEnd(base + i))
    && forall j: nat, fd :: j < |members| && members[j].Running? && fd in members[j].table ==>
         && (members[j].table[fd] == WriteEnd(base + i) <==> j == i && fd == 1)
         && (members[j].table[fd] == ReadEnd(base + i) <==> j == i + 1 && fd == 0)
  }

  /** The members forked so far. */
  ghost predicate AreMembers(members: seq<Member>, t: Table, base: nat, last: nat, faults: nat -> nat -> bool) {
    forall k: nat :: k < |members| ==> IsMember(members[k], MemberTable(t, base, k, last), faults(k))
  }

  lemma MembersPrivate(t: Table, base: nat, last: nat, members: seq<Member>, faults: nat -> nat -> bool, i: nat)
    requires NoPipesFrom(t, base) && |members| == last + 1 && AreMembers(members, t, base, last, faults) && i < last
    ensures Private(base, i, members, t)
  {
    forall j: nat, fd | j < |members| && members[j].Running? && fd in members[j].table
      ensures members[j].table[fd] == WriteEnd(base + i) <==> j == i && fd == 1
      ensures members[j].table[fd] == ReadEnd(base + i) <==> j == i + 1 && fd == 0
    {
      OnlyItsMember(t, base, last, i, j, fd);
    }
  }

  // ----- the system calls of one process -----

  class Process {
    var open: Table
    /** The number of pipes made so far: the next pipe's name. */
    var pipesMade: nat
    /** Which of the calls that can fail do. */
    const faults: nat -> bool
    var calls: nat

    /** Pipes are named by number: none is open that is yet to be made. */
    ghost predicate Valid()
      reads this
    {
      NoPipesFrom(open, pipesMade)
    }

    constructor (open: Table, pipesMade: nat, faults: nat -> bool)
      requires NoPipesFrom(open, pipesMade)
      ensures Valid() && this.open == open && this.pipesMade == pipesMade && this.faults == faults
    {
      this.open, this.pipesMade, this.faults, calls := open, pipesMade, faults, 0;
    }

    method Fault() returns (fails: bool)
      modifies this`calls
      ensures Sound(faults) ==> !fails
    {
      fails := faults(calls);
      calls := calls + 1;
    }

    method Pipe() returns (fds: Option<Ends>)
      requires Valid()
      modifies this`open, this`pipesMade, this`calls
      ensures Valid()
      ensures fds.None? ==> !Sound(faults) && open == old(open) && pipesMade == old(pipesMade)
      ensures fds.Some? ==>
        && fds.value.0 != fds.value.1 && fds.value.0 !in old(open) && fds.value.1 !in old(open)
        && open == old(open)[fds.value.0 := ReadEnd(old(pipesMade))][fds.value.1 := WriteEnd(old(pipesMade))]
        && pipesMade == old(pipesMade) + 1
    {
      var fails := Fault();
      if fails { return None; }
      var r := LowestFree(open, 0);
      open := open[r := ReadEnd(pipesMade)];
      var w := LowestFree(open, 0);
      open := open[w := WriteEnd(pipesMade)];
      pipesMade := pipesMade + 1;
      return Some((r, w));
    }

    /** `fcntl(fd, F_DUPFD, 3)` */
    method DupAboveStandard(fd: nat) returns (copy: Option<nat>)
      requires Valid() && fd in open
      modifies this`open, this`calls
      ensures Valid()
      ensures copy.None? ==> !Sound(faults) && open == old(open)
      ensures copy.Some? ==>
        copy.value > 2 && copy.value !in old(open) && open == old(open)[copy.value := old(open)[fd]]
    {
      var fails := Fault();
      if fails { return None; }
      var n := LowestFree(open, 3);
      open := open[n := open[fd]];
      return Some(n);
    }

    /** `dup2(fd, target)`; false when it failed. */
    method Dup2(fd: nat, target: nat) returns (ok: bool)
      requires Valid() && fd in open
      modifies this`open, this`calls
      ensures Valid()
      ensures open == (if ok then old(open)[target := old(open)[fd]] else old(open)) && (Sound(faults) ==> ok)
    {
      var fails := Fault();
      if fails { return false; }
      open := open[target := open[fd]];
      return true;
    }

    method Close(fd: nat)
      requires Valid()
      modifies this`open
      ensures Valid()
      ensures open == old(open) - {fd}
    {
      open := open - {fd};
    }

    // ----- exec/pipeline.rs -----

    /** A pipe whose ends keep clear of the standard descriptors. */
    method CreatePipe() returns (ends: Option<Ends>)
      requires Valid()
      modifies this`open, this`pipesMade, this`calls
      ensures Valid() && pipesMade >= old(pipesMade)
      ensures ends.None? ==> !Sound(faults) && open == old(open)
      ensures ends.Some? ==>
        var (r, w) := ends.value;
        && r > 2 && w > 2 && r != w && r !in old(open) && w !in old(open)
        && open == old(open)[r := ReadEnd(old(pipesMade))][w := WriteEnd(old(pipesMade))]
        && pipesMade == old(pipesMade) + 1
    {
      var made := Pipe();
      if made.None? { return None; }
      var fds := new nat[2];
      fds[0], fds[1] := made.value.0, made.value.1;
      for i := 0 to 2
        invariant fds[0] != fds[1] && fds[0] !in old(open) && fds[1] !in old(open)
        invariant open == old(open)[fds[0] := ReadEnd(old(pipesMade))][fds[1] := WriteEnd(old(pipesMade))]
        invariant forall k :: 0 <= k < i ==> fds[k] > 2
        invariant pipesMade == old(pipesMade) + 1
      {
        if fds[i] <= 2 {
          ghost var r, w := fds[0], fds[1];
          var moved := DupAboveStandard(fds[i]);
          Close(fds[i]);
          if moved.None? {
            Close(fds[1 - i]);
            BothClosed(old(open), old(pipesMade), r, w);
            return None;
          }
          EndMoved(old(open), old(pipesMade), r, w, moved.value);
          fds[i] := moved.value;
        }
      }
      return Some((fds[0], fds[1]));
    }

    method CloseAllPipes(pipes: seq<Ends>)
      requires Valid()
      modifies this`open
      ensures Valid()
      ensures open == old(open) - EndsOf(pipes)
    {
      for k := 0 to |pipes|
        invariant open == old(open) - EndsOf(pipes[..k])
      {
        assert pipes[..k + 1][..k] == pipes[..k];
        Close(pipes[k].0);
        Close(pipes[k].1);
      }
      assert pipes[..|pipes|] == pipes;
    }

    /** On failure the pipes made so far are closed again. */
    method CreatePipes(count: nat) returns (pipes: Option<seq<Ends>>)
      requires Valid()
      modifies this`open, this`pipesMade, this`calls
      ensures Valid() && pipesMade >= old(pipesMade)
      ensures pipes.None? ==> !Sound(faults) && open == old(open)
      ensures pipes.Some? ==>
        && |pipes.value| == count && NewEnds(old(open), pipes.value)
        && open == WithPipes(old(open), pipes.value, old(pipesMade))
    {
      var made: seq<Ends> := [];
      while |made| < count
        invariant |made| <= count && pipesMade == old(pipesMade) + |made| && Valid()
        invariant NewEnds(old(open), made) && open == WithPipes(old(open), made, old(pipesMade))
      {
        ghost var before := open;
        var fds := CreatePipe();
        if fds.None? {
          ClosedAgain(old(open), made, old(pipesMade));
          CloseAllPipes(made);
          return None;
        }
        OneMore(old(open), made, old(pipesMade), before, fds.value);
        made := made + [fds.value];
      }
      return Some(made);
    }

    /** In the child of member `i`; false when it must exit with status 1. */
    method ConnectMember(pipes: seq<Ends>, i: nat, ghost t: Table, ghost base: nat) returns (ok: bool)
      requires Valid() && NewEnds(t, pipes) && i <= |pipes| && open == WithPipes(t, pipes, base)
      modifies this`open, this`calls
      ensures Valid()
      ensures if ok then open == MemberTable(t, base, i, |pipes|) else !Sound(faults)
    {
      EndsAreNew(t, pipes, base);
      ghost var input := if i > 0 then open[0 := ReadEnd(base + i - 1)] else open;
      if i > 0 {
        EndAt(t, pipes, base, i - 1);
        ok := Dup2(pipes[i - 1].0, 0);
        if !ok { return; }
      }
      ok := ConnectOutput(pipes, i, t, base, input);
      if !ok { return; }
      CloseAllPipes(pipes);
      Connected(t, pipes, base, i);
    }

    method ConnectOutput(pipes: seq<Ends>, i: nat, ghost t: Table, ghost base: nat, ghost input: Table)
      returns (ok: bool)
      requires Valid() && NewEnds(t, pipes) && i <= |pipes| && open == input
      requires input == if i > 0 then WithPipes(t, pipes, base)[0 := ReadEnd(base + i - 1)]
                        else WithPipes(t, pipes, base)
      modifies this`open, this`calls
      ensures Valid()
      ensures if ok then open == (if i < |pipes| then input[1 := WriteEnd(base + i)] else input) else !Sound(faults)
    {
      EndsAreNew(t, pipes, base);
      if i == |pipes| { return true; }
      EndAt(t, pipes, base, i);
      ok := Dup2(pipes[i].1, 1);
    }

    /** The fork loop of a pipeline of `n` members. The shell's own table is
        what it was, whether or not all of it succeeded; `None` only when a pipe
        or a fork failed, and then the members already there are killed. */
    method ExecMultiPipeline(n: nat, childFaults: nat -> nat -> bool) returns (members: Option<seq<Member>>)
      requires Valid() && n >= 2
      modifies this`open, this`pipesMade, this`calls
      ensures Valid()
      ensures open == old(open)
      ensures if members.None? then !Sound(faults) else |members.value| == n
      ensures members.Some? ==> AreMembers(members.value, old(open), old(pipesMade), n - 1, childFaults)
      ensures members.Some? ==> forall i: nat :: i < n - 1 ==> Private(old(pipesMade), i, members.value, open)
    {
      ghost var t, base := open, pipesMade;
      var created := CreatePipes(n - 1);
      if created.None? { return None; }
      var pipes := created.value;
      ClosedAgain(t, pipes, base);
      var forked: seq<Member> := [];
      for i := 0 to n
        invariant |forked| == i && open == WithPipes(t, pipes, base) && Valid()
        invariant AreMembers(forked, t, base, n - 1, childFaults)
      {
        var fails := Fault();
        if fails {
          CloseAllPipes(pipes);
          return None;
        }
        var member := ForkMember(pipes, i, childFaults(i), t, base);
        forked := forked + [member];
      }
      CloseAllPipes(pipes);
      forall i: nat | i < n - 1 ensures Private(base, i, forked, t) {
        MembersPrivate(t, base, n - 1, forked, childFaults, i);
      }
      return Some(forked);
    }

    /** The child of member `i`, on a copy of the table. */
    method ForkMember(pipes: seq<Ends>, i: nat, childFaults: nat -> bool, ghost t: Table, ghost base: nat)
      returns (member: Member)
      requires Valid() && NewEnds(t, pipes) && i <= |pipes| && open == WithPipes(t, pipes, base)
      ensures IsMember(member, MemberTable(t, base, i, |pipes|), childFaults)
    {
      var child := new Process(open, pipesMade, childFaults);
      var ok := child.ConnectMember(pipes, i, t, base);
      return if ok then Running(child.open) else Exited(1);
    }
  }

  /** The status of a pipeline without job control: that of its last member,
      or with `pipefail` the last one that is not zero. */
  method PipelineStatus(statuses: seq<int>, pipefail: bool) returns (status: int)
    requires |statuses| >= 2
    ensures !pipefail ==> status == statuses[|statuses| - 1]
    ensures pipefail && status == 0 ==> forall k :: 0 <= k < |statuses| ==> statuses[k] == 0
    ensures pipefail && status != 0 ==>
      exists k :: 0 <= k < |statuses| && statuses[k] == status && forall j :: k < j < |statuses| ==> statuses[j] == 0
  {
    var lastStatus, maxNonzero := 0, 0;
    for k := 0 to |statuses|
      invariant k == |statuses| ==> lastStatus == statuses[|statuses| - 1]
      invariant maxNonzero == 0 ==> forall j :: 0 <= j < k ==> statuses[j] == 0
      invariant maxNonzero != 0 ==>
        exists j :: 0 <= j < k && statuses[j] == maxNonzero && forall m :: j < m < k ==> statuses[m] == 0
    {
      if statuses[k] != 0 { maxNonzero := statuses[k]; }
      if k == |statuses| - 1 { lastStatus := statuses[k]; }
    }
    return if pipefail then maxNonzero else lastStatus;
  }
}
