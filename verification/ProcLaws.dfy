/** What fork, wait, kill, sleep and exit promise in a run, whatever the table looks like. */
module ProcLaws {

  import opened Proc
  import opened Traces

  type Run = Trace<Kernel, Step>

  predicate Performed(s: Kernel, step: Step) {
    Possible(s.procs, s.init, step)
  }

  /** Forks in progress have their child. */
  ghost predicate ForksOk(s: Kernel) {
    forall i: nat {:trigger s.procs[i]} | i < |s.procs| && s.procs[i].job.Forking? ::
      && !s.procs[i].state.Sleeping? && !s.procs[i].state.Zombie?
      && s.procs[i].job.child < |s.procs| && s.procs[i].job.child != i
      && s.procs[s.procs[i].job.child].state.Embryo? && s.procs[s.procs[i].job.child].job.Nothing?
  }

  lemma SoundForks(s: Kernel)
    requires KernelOk(s)
    ensures ForksOk(s)
  {
    forall i: nat | i < |s.procs| && s.procs[i].job.Forking?
      ensures s.procs[i].job.child < |s.procs| && s.procs[s.procs[i].job.child].state.Embryo?
              && s.procs[s.procs[i].job.child].job.Nothing? && !s.procs[i].state.Sleeping? && !s.procs[i].state.Zombie?
    {
      assert ForkAt(s.procs, i);
    }
  }

  // ----- Every call of fork and wait returns once

  datatype Call = AFork | AWait

  function CalledBy(i: nat, s: Kernel, step: Step): seq<Call> {
    if Performed(s, step) && step == Fork(i) then [AFork]
    else if Performed(s, step) && step == Wait(i) then [AWait]
    else []
  }

  /** The calls by the process in slot i. */
  function Calls(i: nat, t: Run): seq<Call> {
    match t
    case Begin(_) => []
    case Then(past, step, _) => Calls(i, past) + CalledBy(i, past.s, step)
  }

  function ReturnOf(i: nat, r: Result): seq<Call> {
    match r
    case Forked(j, _) => if j == i then [AFork] else []
    case Waited(j, _) => if j == i then [AWait] else []
    case Killed(_, _) => []
  }

  /** The calls that have returned to slot i. */
  function Returns(i: nat, results: seq<Result>): seq<Call> {
    if results == [] then [] else Returns(i, results[..|results| - 1]) + ReturnOf(i, results[|results| - 1])
  }

  function Open(p: Proc): seq<Call> {
    match p.job
    case Nothing => []
    case Forking(_, _) => [AFork]
    case Waiting => [AWait]
  }

  lemma ReturnsMore(i: nat, results: seq<Result>, r: Result)
    ensures Returns(i, results + [r]) == Returns(i, results) + ReturnOf(i, r)
  {
    assert (results + [r])[..|results|] == results;
  }

  /** What a step returns, if anything. */
  ghost predicate Grows(s: Kernel, t: Kernel, got: seq<Result>) {
    |got| <= 1 && t.results == s.results + got
  }

  function ReturnsOf(i: nat, got: seq<Result>): seq<Call> {
    if got == [] then [] else ReturnOf(i, got[0])
  }

  /** The steps of fork. */
  lemma ForkCall(s: Kernel, step: Step, t: Kernel, i: nat) returns (got: seq<Result>)
    requires ForksOk(s) && Performed(s, step) && Next(s, step, t) && i < |s.procs|
    requires step.Fork? || step.ForkFails? || step.ForkLinks? || step.ForkEnds?
    ensures |t.procs| == |s.procs| && Grows(s, t, got)
    ensures Open(s.procs[i]) + CalledBy(i, s, step) == ReturnsOf(i, got) + Open(t.procs[i])
  {
    got := if (step.Fork? && NoneUnused(s.procs)) || step.ForkFails? then [Forked(step.i, -1)]
           else if step.ForkEnds? then [Forked(step.i, s.procs[s.procs[step.i].job.child].pid)] else [];
    assert t.results == s.results + got;
  }

  /** The steps of wait. */
  lemma WaitCall(s: Kernel, step: Step, t: Kernel, i: nat) returns (got: seq<Result>)
    requires Performed(s, step) && Next(s, step, t) && i < |s.procs| && (step.Wait? || step.Dispatch?)
    ensures |t.procs| == |s.procs| && Grows(s, t, got)
    ensures Open(s.procs[i]) + CalledBy(i, s, step) == ReturnsOf(i, got) + Open(t.procs[i])
  {
    got := [];
    if step.Wait? || s.procs[step.i].job.Waiting? {
      var from := if step.Wait? then s else Resumed(s, step.i);
      var r: Outcome :| Scanned(from.procs, t.procs, step.i, r, from.reaped, t.reaped)
                        && t.results == from.results + Answer(step.i, r);
      got := Answer(step.i, r);
    }
    assert t.results == s.results + got;
  }

  lemma OtherCall(s: Kernel, step: Step, t: Kernel, i: nat) returns (got: seq<Result>)
    requires Performed(s, step) && Next(s, step, t) && i < |s.procs|
    requires step.Yield? || step.Sleep? || step.Wakeup? || step.Kill? || step.Exit?
    ensures |t.procs| == |s.procs| && Grows(s, t, got) && ReturnsOf(i, got) == []
    ensures Open(s.procs[i]) == Open(t.procs[i])
  {
    got := if step.Kill? then t.results[|s.results|..] else [];
    assert t.results == s.results + got;
  }

  lemma CallStep(s: Kernel, step: Step, t: Kernel, i: nat) returns (got: seq<Result>)
    requires ForksOk(s) && Performed(s, step) && Next(s, step, t) && i < |s.procs|
    ensures |t.procs| == |s.procs| && Grows(s, t, got)
    ensures Open(s.procs[i]) + CalledBy(i, s, step) == ReturnsOf(i, got) + Open(t.procs[i])
  {
    if step.Fork? || step.ForkFails? || step.ForkLinks? || step.ForkEnds? {
      got := ForkCall(s, step, t, i);
    } else if step.Wait? || step.Dispatch? {
      got := WaitCall(s, step, t, i);
    } else {
      got := OtherCall(s, step, t, i);
    }
  }

  lemma ReturnsGrow(i: nat, results: seq<Result>, got: seq<Result>)
    requires |got| <= 1
    ensures Returns(i, results + got) == Returns(i, results) + ReturnsOf(i, got)
  {
    if got == [] {
      assert results + got == results;
    } else {
      assert got == [got[0]];
      ReturnsMore(i, results, got[0]);
    }
  }

  lemma Regrouped(before: seq<Call>, open: seq<Call>, called: seq<Call>, returned: seq<Call>, open1: seq<Call>)
    requires open + called == returned + open1
    ensures before + open + called == before + returned + open1
  {
    assert before + open + called == before + (open + called);
  }

  lemma CallsOn(i: nat, past: Run, step: Step, s: Kernel)
    requires KernelOk(past.s) && StepTo(past.s, step, s) && i < |past.s.procs|
    requires Calls(i, past) == Returns(i, past.s.results) + Open(past.s.procs[i])
    ensures i < |s.procs| == |past.s.procs|
    ensures Calls(i, Then(past, step, s)) == Returns(i, s.results) + Open(s.procs[i])
  {
    SoundForks(past.s);
    if Performed(past.s, step) {
      var got := CallStep(past.s, step, s, i);
      ReturnsGrow(i, past.s.results, got);
      Regrouped(Returns(i, past.s.results), Open(past.s.procs[i]), CalledBy(i, past.s, step), ReturnsOf(i, got),
                Open(s.procs[i]));
    }
  }

  /** Each call of fork and wait returns once, in order, but for the one that is open. */
  lemma {:induction false} CallsReturn(n: nat, t: Run, i: nat)
    requires IsRun(n, t) && i < n
    ensures |t.s.procs| == n && Calls(i, t) == Returns(i, t.s.results) + Open(t.s.procs[i])
  {
    match t
    case Begin(_) =>
    case Then(past, step, s) =>
      CallsReturn(n, past, i);
      CallsOn(i, past, step, s);
  }

  // ----- What fork returns

  /** fork returns the pid of a new runnable child of the caller, or -1 when the table is full or
      the new slot has been given back. */
  lemma ForkReturns(s: Kernel, step: Step, t: Kernel, i: nat, r: int)
    requires KernelOk(s) && Performed(s, step) && Next(s, step, t) && t.results == s.results + [Forked(i, r)]
    ensures if r == -1 then (step == Fork(i) && NoneUnused(s.procs) && t.procs == s.procs)
                            || (step == ForkFails(i) && TurnsInto(s.procs, t.procs, Unused, Nobody, 0))
            else step == ForkEnds(i) && r > 0 && TurnsInto(s.procs, t.procs, Runnable, Slot(i), r)
  {
    assert t.results[|s.results|] == Forked(i, r);
    if step.Wait? || step.Dispatch? {
      var _ := WaitCall(s, step, t, step.i);
    } else if step.ForkFails? || step.ForkEnds? {
      assert ForkAt(s.procs, step.i);
      var c := s.procs[step.i].job.child;
      assert c < |s.procs| && s.procs[c].state.Embryo?;
    }
  }

  /** One embryo has that state, that parent and, if it is not 0, that pid now; in other slots
      nothing but a job has changed. */
  ghost predicate TurnsInto(ps: seq<Proc>, qs: seq<Proc>, state: State, parent: Parent, pid: int) {
    exists c: nat ::
      && c < |ps| == |qs| && ps[c].state.Embryo? && qs[c].state == state && qs[c].parent == parent
      && qs[c].pid == ps[c].pid && (pid != 0 ==> qs[c].pid == pid)
      && forall j: nat {:trigger qs[j]} | j < |ps| && j != c :: qs[j] == ps[j].(job := qs[j].job)
  }

  /** A pid that is neither an embryo's nor still to come. */
  ghost predicate Gone(s: Kernel, pid: int) {
    pid < s.nextpid && forall c: nat {:trigger s.procs[c]} | c < |s.procs| && s.procs[c].state.Embryo? ::
      s.procs[c].pid != pid
  }

  /** All pids that fork has returned are. */
  ghost predicate Past(s: Kernel) {
    forall k: nat {:trigger s.results[k]} | k < |s.results| && s.results[k].Forked? && s.results[k].r != -1 ::
      Gone(s, s.results[k].r)
  }

  /** Embryos keep their pids; a new one has the next. */
  lemma Embryos(s: Kernel, step: Step, t: Kernel)
    requires ForksOk(s) && Performed(s, step) && Next(s, step, t)
    ensures s.nextpid <= t.nextpid && |t.procs| == |s.procs|
    ensures forall c: nat {:trigger t.procs[c]} | c < |t.procs| && t.procs[c].state.Embryo? ::
              (s.procs[c].state.Embryo? && t.procs[c].pid == s.procs[c].pid) || t.procs[c].pid == s.nextpid
  {
  }

  lemma StaysGone(s: Kernel, step: Step, t: Kernel, pid: int)
    requires ForksOk(s) && Performed(s, step) && Next(s, step, t) && Gone(s, pid)
    ensures Gone(t, pid)
  {
    Embryos(s, step, t);
  }

  /** The pid that fork returns was an embryo's, and is none's afterwards. */
  lemma ForkedGone(s: Kernel, step: Step, t: Kernel, i: nat, r: int)
    requires KernelOk(s) && Performed(s, step) && Next(s, step, t) && t.results == s.results + [Forked(i, r)] && r != -1
    requires PidsOk(t.procs, t.nextpid)
    ensures !Gone(s, r) && Gone(t, r)
  {
    SoundForks(s);
    ForkReturns(s, step, t, i, r);
    var c: nat :| c < |s.procs| == |t.procs| && s.procs[c].state.Embryo? && t.procs[c].state == Runnable
                  && t.procs[c].pid == s.procs[c].pid && t.procs[c].pid == r;
    assert s.procs[c].pid == r;
  }

  lemma PastStep(s: Kernel, step: Step, t: Kernel, got: seq<Result>)
    requires KernelOk(s) && Performed(s, step) && Next(s, step, t) && Past(s) && PidsOk(t.procs, t.nextpid)
    requires Grows(s, t, got)
    ensures Past(t)
  {
    SoundForks(s);
    forall k: nat | k < |t.results| && t.results[k].Forked? && t.results[k].r != -1
      ensures Gone(t, t.results[k].r)
    {
      if k < |s.results| {
        assert t.results[k] == s.results[k];
        StaysGone(s, step, t, s.results[k].r);
      } else {
        assert got == [t.results[k]];
        ForkedGone(s, step, t, t.results[k].i, t.results[k].r);
      }
    }
  }

  lemma {:induction false} AllPast(n: nat, t: Run)
    requires IsRun(n, t)
    ensures Past(t.s)
  {
    match t
    case Begin(_) =>
    case Then(past, step, s) =>
      AllPast(n, past);
      SoundForks(past.s);
      if Performed(past.s, step) {
        var got := CallStep(past.s, step, s, past.s.init);
        PastStep(past.s, step, s, got);
      }
  }

  ghost predicate PidsDiffer(results: seq<Result>) {
    forall j: nat, k: nat {:trigger results[j], results[k]} | j < k < |results| ::
      results[j].Forked? && results[k].Forked? && results[j].r != -1 ==> results[j].r != results[k].r
  }

  lemma DifferOn(s: Kernel, step: Step, t: Kernel, got: seq<Result>)
    requires KernelOk(s) && Performed(s, step) && Next(s, step, t) && Past(s) && PidsOk(t.procs, t.nextpid)
    requires Grows(s, t, got) && PidsDiffer(s.results)
    ensures PidsDiffer(t.results)
  {
    SoundForks(s);
    if got != [] {
      assert got == [got[0]];
      if got[0].Forked? && got[0].r != -1 { ForkedGone(s, step, t, got[0].i, got[0].r); }
    }
  }

  /** No two calls of fork return the same pid. */
  lemma {:induction false} ForksDiffer(n: nat, t: Run)
    requires IsRun(n, t)
    ensures PidsDiffer(t.s.results)
  {
    match t
    case Begin(_) =>
    case Then(past, step, s) =>
      ForksDiffer(n, past);
      AllPast(n, past);
      SoundForks(past.s);
      if Performed(past.s, step) {
        var got := CallStep(past.s, step, s, past.s.init);
        DifferOn(past.s, step, s, got);
      }
  }

  // ----- What wait returns

  /** wait returns -1 only to a process without children or one that has been killed, and never
      while one of its children is a zombie; what else it returns is the pid of such a child, whose
      slot is free again. */
  lemma WaitReturns(s: Kernel, step: Step, t: Kernel, i: nat, r: int)
    requires ForksOk(s) && Performed(s, step) && Next(s, step, t) && t.results == s.results + [Waited(i, r)]
    ensures (step == Wait(i) || (step == Dispatch(i) && s.procs[i].job.Waiting?)) && i < |t.procs| == |s.procs|
    ensures t.procs[i].state.Running? && t.procs[i].job.Nothing?
    ensures if r == -1 then NoZombieChild(s.procs, i) && (s.procs[i].killed || !HasChild(s.procs, i))
            else exists c: nat ::
                   && c < |s.procs| && s.procs[c].state.Zombie? && s.procs[c].parent == Slot(i) && s.procs[c].pid == r
                   && t.procs[c].state.Unused? && t.procs[c].pid == 0 && t.procs[c].parent == Nobody
                   && !t.procs[c].killed
  {
    assert t.results[|s.results|] == Waited(i, r);
    if step.Wait? || (step.Dispatch? && s.procs[step.i].job.Waiting?) {
      WaitScans(s, step, t, i, r);
    } else if step.Fork? || step.ForkFails? || step.ForkLinks? || step.ForkEnds? {
      var _ := ForkCall(s, step, t, i);
    }
  }

  lemma WaitScans(s: Kernel, step: Step, t: Kernel, i: nat, r: int)
    requires Performed(s, step) && Next(s, step, t) && t.results == s.results + [Waited(i, r)]
    requires step.Wait? || (step.Dispatch? && s.procs[step.i].job.Waiting?)
    ensures step.i == i && i < |t.procs| == |s.procs| && t.procs[i].state.Running? && t.procs[i].job.Nothing?
    ensures if r == -1 then NoZombieChild(s.procs, i) && (s.procs[i].killed || !HasChild(s.procs, i))
            else exists c: nat ::
                   && c < |s.procs| && s.procs[c].state.Zombie? && s.procs[c].parent == Slot(i) && s.procs[c].pid == r
                   && t.procs[c].state.Unused? && t.procs[c].pid == 0 && t.procs[c].parent == Nobody
                   && !t.procs[c].killed
  {
    var from := if step.Wait? then s else Resumed(s, step.i);
    var o: Outcome :| Scanned(from.procs, t.procs, step.i, o, from.reaped, t.reaped)
                      && t.results == from.results + Answer(step.i, o);
    assert t.results[|s.results|] == Answer(step.i, o)[0];
    SameChildren(s.procs, from.procs, step.i);
    if o.Reaped? {
      var c: nat :| c < |from.procs| && from.procs[c].state.Zombie? && from.procs[c].parent == Slot(step.i)
                    && o.pid == from.procs[c].pid && t.procs == from.procs[c := Freed(from.procs[c])];
      assert c != step.i && s.procs[c] == from.procs[c];
    }
  }

  lemma SameChildren(ps: seq<Proc>, qs: seq<Proc>, i: nat)
    requires i < |ps| == |qs| && ps[i].parent == qs[i].parent && !ps[i].state.Zombie? && !qs[i].state.Zombie?
    requires forall j: nat {:trigger qs[j]} | j < |ps| && j != i :: qs[j] == ps[j]
    ensures NoZombieChild(ps, i) <==> NoZombieChild(qs, i)
    ensures HasChild(ps, i) <==> HasChild(qs, i)
  {
    if HasChild(ps, i) { var c: nat :| c < |ps| && ps[c].parent == Slot(i); assert qs[c].parent == Slot(i); }
    if HasChild(qs, i) { var c: nat :| c < |qs| && qs[c].parent == Slot(i); assert ps[c].parent == Slot(i); }
    if NoZombieChild(ps, i) {
      forall c: nat | c < |qs| && qs[c].parent == Slot(i)
          ensures !qs[c].state.Zombie? { assert ps[c].parent == Slot(i); }
    }
    if NoZombieChild(qs, i) {
      forall c: nat | c < |ps| && ps[c].parent == Slot(i)
          ensures !ps[c].state.Zombie? { assert qs[c].parent == Slot(i); }
    }
  }

  /** A call of wait that does not return sleeps: there are children, and none has exited. */
  lemma WaitSleeps(s: Kernel, step: Step, t: Kernel, i: nat)
    requires KernelOk(s) && Performed(s, step) && Next(s, step, t) && t.results == s.results
    requires step == Wait(i) || (step == Dispatch(i) && s.procs[i].job.Waiting?)
    ensures i < |t.procs| && t.procs[i].state.Sleeping? && t.procs[i].chan == OfProc(i) && t.procs[i].job.Waiting?
    ensures NoZombieChild(s.procs, i) && HasChild(s.procs, i) && !s.procs[i].killed && t.reaped == s.reaped
  {
    var from := if step.Wait? then s else Resumed(s, i);
    var o: Outcome :| Scanned(from.procs, t.procs, i, o, from.reaped, t.reaped)
                      && t.results == from.results + Answer(i, o);
    assert |t.results| == |s.results| + |Answer(i, o)|;
    SameChildren(s.procs, from.procs, i);
  }

  // ----- Who sleeps and who is woken

  ghost predicate SleepsOn(p: Proc, c: nat) {
    p.state.Sleeping? && p.chan == Other(c)
  }

  /** wakeup(c): everybody who slept on c may run, and nobody else is touched. */
  lemma WakeupWakes(s: Kernel, c: nat, t: Kernel, i: nat)
    requires KernelOk(s) && Next(s, Wakeup(c), t) && i < |s.procs|
    ensures i < |t.procs| && if SleepsOn(s.procs[i], c) then t.procs[i] == s.procs[i].(state := Runnable)
                             else t.procs[i] == s.procs[i]
  {
  }

  /** Who sleeps on c goes on sleeping there until wakeup(c) or a kill that finds it. */
  lemma SleepLasts(s: Kernel, step: Step, t: Kernel, i: nat, c: nat)
    requires ForksOk(s) && Performed(s, step) && Next(s, step, t) && i < |s.procs| && SleepsOn(s.procs[i], c)
    ensures i < |t.procs| && (SleepsOn(t.procs[i], c) || (t.procs[i].state.Runnable? &&
              (step == Wakeup(c) || (step.Kill? && step.pid == s.procs[i].pid && t.procs[i].killed))))
  {
  }

  /** sleep(c) puts the caller there. */
  lemma SleepSleeps(s: Kernel, i: nat, c: nat, t: Kernel)
    requires KernelOk(s) && Performed(s, Sleep(i, c)) && Next(s, Sleep(i, c), t)
    ensures i < |t.procs| && SleepsOn(t.procs[i], c)
  {
  }

  // ----- kill

  /** kill returns 0 exactly when some slot has that pid; the first such is marked and not asleep. */
  lemma KillMarks(s: Kernel, pid: int, t: Kernel)
    requires KernelOk(s) && Next(s, Kill(pid), t)
    ensures |t.procs| == |s.procs| && t.results == s.results + [Killed(pid, if HasPid(s.procs, pid) then 0 else -1)]
    ensures HasPid(s.procs, pid) ==> exists k: nat ::
              && k < |t.procs| && s.procs[k].pid == pid && t.procs[k].killed && !t.procs[k].state.Sleeping?
              && (forall j: nat {:trigger s.procs[j]} | j < k :: s.procs[j].pid != pid)
              && forall j: nat {:trigger t.procs[j]} | j < |t.procs| && j != k :: t.procs[j] == s.procs[j]
  {
  }

  ghost predicate HasPid(ps: seq<Proc>, pid: int) {
    exists k: nat :: k < |ps| && ps[k].pid == pid
  }

  /** The mark stays until wait frees the slot. */
  lemma KilledLasts(s: Kernel, step: Step, t: Kernel, i: nat)
    requires ForksOk(s) && Performed(s, step) && Next(s, step, t) && i < |s.procs| && s.procs[i].killed
    ensures i < |t.procs| && (t.procs[i].killed || (s.procs[i].state.Zombie? && t.procs[i].state.Unused?))
  {
  }

  // ----- exit

  /** What the exit of slot i makes of slot j. */
  lemma ExitedAt(ps: seq<Proc>, i: nat, init: nat, j: nat)
    requires i < |ps| && ps[i].parent.Slot? && j < |ps|
    ensures var p, q := ps[j], Exited(ps, i, init)[j];
            && q.pid == p.pid && q.killed == p.killed && q.job == p.job
            && q.parent == (if p.parent == Slot(i) then Slot(init) else p.parent)
            && (if j == i then q.state.Zombie? else q.state == p.state || (p.state.Sleeping? && q.state.Runnable?))
            && (p.state.Sleeping? && p.chan == OfProc(ps[i].parent.i) && j != i ==> q.state.Runnable?)
  {
  }

  /** exit: a zombie, whose children init looks after, and whose parent does not sleep in wait. */
  lemma ExitLeaves(s: Kernel, i: nat, t: Kernel)
    requires KernelOk(s) && Performed(s, Exit(i)) && Next(s, Exit(i), t)
    ensures |t.procs| == |s.procs| && t.procs[i].state.Zombie? && t.exited == s.exited + {s.procs[i].pid}
    ensures forall j: nat {:trigger t.procs[j]} | j < |t.procs| ::
              && t.procs[j].pid == s.procs[j].pid && t.procs[j].killed == s.procs[j].killed
              && t.procs[j].parent == (if s.procs[j].parent == Slot(i) then Slot(s.init) else s.procs[j].parent)
              && (j == i || t.procs[j].state == s.procs[j].state
                  || (s.procs[j].state.Sleeping? && t.procs[j].state.Runnable?))
    ensures s.procs[i].parent.Slot? && s.procs[i].parent.i < |t.procs|
    ensures !(t.procs[s.procs[i].parent.i].state.Sleeping? && t.procs[s.procs[i].parent.i].job.Waiting?)
  {
    assert RaisedAt(s.procs, s.init, i);
    var p := s.procs[i].parent.i;
    assert ForkAt(s.procs, p);
    forall j: nat | j < |s.procs| { ExitedAt(s.procs, i, s.init, j); }
  }

  /** Only wait takes a zombie away. */
  lemma ZombieStays(s: Kernel, step: Step, t: Kernel, i: nat)
    requires ForksOk(s) && Performed(s, step) && Next(s, step, t) && i < |s.procs| && s.procs[i].state.Zombie?
    ensures i < |t.procs| && (t.procs[i].state.Zombie? || (t.procs[i].state.Unused? && s.procs[i].pid in t.reaped))
  {
  }
}
