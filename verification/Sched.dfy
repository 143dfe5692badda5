/** The multi-level feedback scheduler of p2/xv6/kernel/proc.c. A fork, one dispatch by the
    scheduler's loop and a run of bump_priority are one step each; anything else only decides
    which processes are runnable. */
module Sched {

  import opened Counters
  import opened Traces

  const QLEN := 100

  /** slice[q] of a process at level q is not to exceed this; level 3 has no limit. */
  function Budget(q: nat): nat {
    if q == 2 then 10 else 5
  }

  /** What n full slices at level q add up to: Budget(q) * n. */
  function Paid(q: nat, n: nat): nat {
    if q == 2 then 10 * n else 5 * n
  }

  datatype Proc = Proc(runnable: bool, pid: nat, priority: nat, ticks: seq<nat>, slice: seq<nat>, starved: nat,
                       p3ticks: nat)

  /** The levels above the process's own are used up, and each tick at a level is in its slice
      or belongs to a full slice that a promotion into the level took away. */
  ghost predicate ProcOk(p: Proc, promotions: seq<nat>) {
    && p.priority <= 3 && |p.ticks| == |p.slice| == |promotions| == 4 && p.p3ticks < 20
    && (forall q: nat {:trigger p.slice[q]} | q < 3 ::
        p.slice[q] <= Budget(q) && (q < p.priority ==> p.slice[q] == Budget(q)))
    && (forall q: nat {:trigger p.ticks[q]} | q < 3 :: p.ticks[q] == (p.slice[q] + Paid(q, promotions[q])) % UINT)
    && p.ticks[3] == p.slice[3] && promotions[3] == 0
  }

  /** ticks[q] <= Budget(q) * (1 + promotions into q), and a process at level 3 has used all of it. */
  lemma TicksBounded(p: Proc, promotions: seq<nat>, q: nat)
    requires ProcOk(p, promotions) && q < 3
    ensures p.ticks[q] <= Budget(q) * (1 + promotions[q])
    ensures q < p.priority ==> p.ticks[q] == Budget(q) * (1 + promotions[q]) % UINT
  {
    ModAtMost(p.slice[q] + Paid(q, promotions[q]));
    assert p.slice[q] <= Budget(q);
  }

  lemma ModAtMost(x: nat)
    ensures x % UINT <= x
  {
  }

  lemma EveryTwenty(n: nat)
    requires 0 < n <= 20
    ensures n % 20 == 0 <==> n == 20
  {
  }

  // ----- fork

  function Forked(p: Proc, pid: nat): Proc {
    Proc(true, pid, 0, [0, 0, 0, 0], [0, 0, 0, 0], 1, 0)
  }

  // ----- One dispatch

  /** A run at level q, and the process comes back. */
  function Charged(p: Proc, q: nat): Proc
    requires q < 4 && |p.ticks| == |p.slice| == 4
  {
    p.(starved := 0, ticks := p.ticks[q := (p.ticks[q] + 1) % UINT], slice := p.slice[q := (p.slice[q] + 1) % UINT])
  }

  lemma ChargedOk(p: Proc, promotions: seq<nat>)
    requires ProcOk(p, promotions) && (p.priority < 3 ==> p.slice[p.priority] < Budget(p.priority))
    ensures ProcOk(Charged(p, p.priority), promotions)
  {
    var q := p.priority;
    var r := Charged(p, q);
    if q < 3 {
      var paid := Paid(q, promotions[q]);
      CountOn(p.slice[q] + paid);
      assert r.slice[q] + paid == p.slice[q] + paid + 1 && p.ticks[q] == (p.slice[q] + paid) % UINT;
      assert r.ticks[q] == (r.slice[q] + paid) % UINT;
    }
    forall j: nat | j < 3 ensures r.ticks[j] == (r.slice[j] + Paid(j, promotions[j])) % UINT {
      assert j != q ==> r.ticks[j] == p.ticks[j] && r.slice[j] == p.slice[j];
    }
  }

  // ----- bump_priority

  /** A runnable process that did not run since the last time moves up one level. */
  function Bumped(p: Proc): Proc
    requires |p.slice| == 4 && p.priority <= 3
  {
    if !p.runnable then p
    else if p.starved != 1 then p.(starved := 1)
    else if p.priority == 0 then p
    else p.(priority := p.priority - 1, slice := p.slice[p.priority - 1 := 0])
  }

  function Promoted(p: Proc, promotions: seq<nat>): seq<nat>
    requires |promotions| == 4 && p.priority <= 3
  {
    if p.runnable && p.starved == 1 && p.priority > 0 then promotions[p.priority - 1 := promotions[p.priority - 1] + 1]
    else promotions
  }

  lemma BumpedOk(p: Proc, promotions: seq<nat>)
    requires ProcOk(p, promotions)
    ensures ProcOk(Bumped(p), Promoted(p, promotions))
  {
    if p.runnable && p.starved == 1 && p.priority > 0 {
      var q := p.priority - 1;
      assert p.ticks[q] == (p.slice[q] + Paid(q, promotions[q])) % UINT;
      assert p.slice[q] == Budget(q);
      assert Budget(q) + Paid(q, promotions[q]) == Budget(q) * (promotions[q] + 1);
    }
  }

  function BumpedTimes(p: Proc, n: nat): (r: Proc)
    requires |p.slice| == 4 && p.priority <= 3
    ensures |r.slice| == 4 && r.priority <= 3
  {
    if n == 0 then p else Bumped(BumpedTimes(p, n - 1))
  }

  /** A runnable process that is not run rises a level at each bump after the first, to level 0. */
  lemma {:induction false} RisesWhenStarved(p: Proc, n: nat)
    requires |p.slice| == 4 && p.priority <= 3 && p.runnable && n > 0
    ensures var k := if p.starved == 1 then n else n - 1;
      var r := BumpedTimes(p, n);
      r.runnable && r.starved == 1 && r.priority == if k < p.priority then p.priority - k else 0
  {
    if n > 1 {
      RisesWhenStarved(p, n - 1);
    } else {
      assert BumpedTimes(p, 1) == Bumped(BumpedTimes(p, 0));
    }
  }

  // ----- One step of the whole

  datatype Step = Fork(i: nat, pid: nat) | Dispatch(i: nat) | Bump | Become(i: nat, runnable: bool)

  /** The processor was given to slot i at level q. */
  datatype Turn = Turn(i: nat, q: nat)

  /** The process table, the queue of level 3, each slot's promotions into each level since its last
      fork, and all switches to a process, in order. */
  datatype State = State(procs: seq<Proc>, p3q: seq<nat>, front: nat, rear: nat, size: int, promotions: seq<seq<nat>>,
                         turns: seq<Turn>)

  ghost predicate StateOk(s: State) {
    && |s.p3q| == QLEN && s.front < QLEN && s.rear < QLEN && |s.promotions| == |s.procs|
    && forall i: nat {:trigger s.procs[i]} {:trigger s.promotions[i]} | i < |s.procs| ::
       ProcOk(s.procs[i], s.promotions[i])
  }

  /** addq */
  function Queued(s: State, pid: nat): State
    requires |s.p3q| == QLEN
  {
    var rear := (s.rear + 1) % QLEN;
    s.(p3q := s.p3q[rear := pid], rear := rear, size := s.size + 1)
  }

  /** remq */
  function Unqueued(s: State): State {
    s.(front := (s.front + 1) % QLEN, size := s.size - 1)
  }

  predicate AtFront(s: State, pid: nat)
    requires |s.p3q| == QLEN && s.front < QLEN
  {
    s.size != 0 && s.p3q[s.front] == pid
  }

  /** A turn of the scheduler's loop at levels 0 to 2: one level down when the slice is used up, else a run. */
  function DispatchedHigh(s: State, i: nat): State
    requires StateOk(s) && i < |s.procs| && s.procs[i].priority < 3
  {
    var p := s.procs[i];
    if p.slice[p.priority] == Budget(p.priority) then s.(procs := s.procs[i := p.(priority := p.priority + 1)])
    else s.(procs := s.procs[i := Charged(p, p.priority)], turns := s.turns + [Turn(i, p.priority)])
  }

  /** A turn at level 3: the pid is added to the queue, and the process runs when the front is its
      own; after 20 runs the front moves on. */
  function DispatchedLow(s: State, i: nat): State
    requires StateOk(s) && i < |s.procs|
  {
    var p, q := s.procs[i], Queued(s, s.procs[i].pid);
    if !AtFront(q, p.pid) then q
    else if p.p3ticks < 19 then
      q.(procs := s.procs[i := Charged(p, 3).(p3ticks := p.p3ticks + 1)], turns := s.turns + [Turn(i, 3)])
    else Unqueued(q).(procs := s.procs[i := Charged(p, 3).(p3ticks := 0)], turns := s.turns + [Turn(i, 3)])
  }

  /** A bump of a process at level 3 empties the queue. */
  ghost predicate Emptied(s: State) {
    exists i: nat :: i < |s.procs| && s.procs[i].runnable && s.procs[i].starved == 1 && s.procs[i].priority == 3
  }

  ghost predicate BumpedTo(s: State, t: State)
    requires StateOk(s)
  {
    && |t.procs| == |t.promotions| == |s.procs| && t.p3q == s.p3q && t.turns == s.turns
    && (forall i: nat {:trigger t.procs[i]} | i < |s.procs| :: t.procs[i] == Bumped(s.procs[i]))
    && (forall i: nat {:trigger t.promotions[i]} | i < |s.procs| ::
        t.promotions[i] == Promoted(s.procs[i], s.promotions[i]))
    && (t.front, t.rear, t.size) == if Emptied(s) then (0, QLEN - 1, 0) else (s.front, s.rear, s.size)
  }

  ghost predicate Next(s: State, step: Step, t: State)
    requires StateOk(s)
  {
    match step
    case Fork(i, pid) =>
      t == if i < |s.procs| then s.(procs := s.procs[i := Forked(s.procs[i], pid)],
                                    promotions := s.promotions[i := [0, 0, 0, 0]]) else s
    case Dispatch(i) =>
      t == if i >= |s.procs| || !s.procs[i].runnable then s
           else if s.procs[i].priority < 3 then DispatchedHigh(s, i) else DispatchedLow(s, i)
    case Bump => BumpedTo(s, t)
    case Become(i, runnable) => t == if i < |s.procs| then s.(procs := s.procs[i := s.procs[i].(runnable := runnable)])
        else s
  }

  /** n slots that nobody has used, and an empty queue. */
  function Initial(n: nat): State {
    State(seq(n, _ => Proc(false, 0, 0, [0, 0, 0, 0], [0, 0, 0, 0], 0, 0)), seq(QLEN, _ => 0), 0, QLEN - 1, 0,
          seq(n, _ => [0, 0, 0, 0]), [])
  }

  /** Each state follows from the one before by its step, and all are sound. */
  ghost predicate IsRun(n: nat, t: Trace<State, Step>) {
    && StateOk(t.s)
    && match t
       case Begin(s) => s == Initial(n)
       case Then(past, step, s) => IsRun(n, past) && StateOk(past.s) && Next(past.s, step, s)
  }

  class Scheduler {
    var procs: seq<Proc>
    // The queue of level 3.
    var p3q: seq<nat>
    var front: nat
    var rear: nat
    var size: int
    ghost var promotions: seq<seq<nat>>
    ghost var turns: seq<Turn> // switches to a process

    ghost function Now(): State
      reads this
    {
      State(procs, p3q, front, rear, size, promotions, turns)
    }

    ghost predicate Valid()
      reads this
    {
      StateOk(Now())
    }

    constructor (n: nat)
      ensures Valid() && Now() == Initial(n)
    {
      procs := seq(n, _ => Proc(false, 0, 0, [0, 0, 0, 0], [0, 0, 0, 0], 0, 0));
      promotions := seq(n, _ => [0, 0, 0, 0]);
      p3q, front, rear, size, turns := seq(QLEN, _ => 0), 0, QLEN - 1, 0, [];
    }

    method AddQ(pid: nat)
      requires |p3q| == QLEN && rear < QLEN
      modifies this`p3q, this`rear, this`size
      ensures Now() == Queued(old(Now()), pid) && rear < QLEN
    {
      rear := (rear + 1) % QLEN;
      size := size + 1;
      p3q := p3q[rear := pid];
    }

    method RemQ()
      modifies this`front, this`size
      ensures Now() == Unqueued(old(Now()))
    {
      front := (front + 1) % QLEN;
      size := size - 1;
    }

    method FrontQ() returns (pid: int)
      requires |p3q| == QLEN && front < QLEN
      ensures pid == if size == 0 then -1 else p3q[front]
    {
      if size == 0 { return -1; }
      return p3q[front];
    }

    method ForkNow(i: nat, pid: nat)
      requires Valid() && i < |procs|
      modifies this`procs, this`promotions
      ensures Valid() && procs == old(procs)[i := Forked(old(procs)[i], pid)]
              && promotions == old(promotions)[i := [0, 0, 0, 0]]
    {
      procs := procs[i := Forked(procs[i], pid)];
      promotions := promotions[i := [0, 0, 0, 0]];
    }

    /** One turn of the scheduler's loop for a runnable process at levels 0 to 2. */
    method DispatchHigh(i: nat)
      requires Valid() && i < |procs| && procs[i].runnable && procs[i].priority < 3
      modifies this`procs, this`turns
      ensures Valid() && Now() == DispatchedHigh(old(Now()), i)
    {
      var p := procs[i];
      var q := p.priority;
      assert p.slice[q] <= Budget(q);
      if p.slice[q] >= Budget(q) {
        procs := procs[i := p.(priority := q + 1)];
      } else {
        ChargedOk(p, promotions[i]);
        procs := procs[i := Charged(p, q)];
        turns := turns + [Turn(i, q)];
      }
    }

    /** The same at level 3, where every turn adds to the queue. */
    method DispatchLow(i: nat)
      requires Valid() && i < |procs| && procs[i].runnable && procs[i].priority == 3
      modifies this`procs, this`p3q, this`front, this`rear, this`size, this`turns
      ensures Valid() && Now() == DispatchedLow(old(Now()), i)
    {
      var p := procs[i];
      ChargedOk(p, promotions[i]);
      AddQ(p.pid);
      var first := FrontQ();
      if p.pid != first { return; }
      var n := p.p3ticks + 1;
      EveryTwenty(n);
      if n != 0 && n % 20 == 0 {
        RemQ();
        n := 0;
      }
      procs := procs[i := Charged(p, 3).(p3ticks := n)];
      turns := turns + [Turn(i, 3)];
    }

    /** bump_priority */
    method BumpAll()
      requires Valid()
      modifies this`procs, this`promotions, this`front, this`rear, this`size
      ensures Valid() && BumpedTo(old(Now()), Now())
    {
      var k := 0;
      while k < |procs|
        invariant k <= |procs| == |old(procs)| && Valid()
        invariant forall i: nat {:trigger procs[i]} {:trigger promotions[i]} | i < |procs| ::
                    if i < k then procs[i] == Bumped(old(procs)[i])
                        && promotions[i] == Promoted(old(procs)[i], old(promotions)[i])
                    else procs[i] == old(procs)[i] && promotions[i] == old(promotions)[i]
        invariant (front, rear, size) == if exists i: nat ::
                  i < k && old(procs)[i].runnable && old(procs)[i].starved == 1 && old(procs)[i].priority == 3
                                         then (0, QLEN - 1, 0) else (old(front), old(rear), old(size))
      {
        BumpOne(k);
        k := k + 1;
      }
    }

    /** The body of the loop of bump_priority. */
    method BumpOne(k: nat)
      requires Valid() && k < |procs|
      modifies this`procs, this`promotions, this`front, this`rear, this`size
      ensures Valid() && procs == old(procs)[k := Bumped(old(procs)[k])]
      ensures promotions == old(promotions)[k := Promoted(old(procs)[k], old(promotions)[k])]
      ensures (front, rear, size) == if old(procs)[k].runnable && old(procs)[k].starved == 1
              && old(procs)[k].priority == 3
                                     then (0, QLEN - 1, 0) else (old(front), old(rear), old(size))
    {
      var p := procs[k];
      if p.runnable {
        BumpedOk(p, promotions[k]);
        if p.starved == 1 {
          if 1 <= p.priority <= 3 {
            promotions := promotions[k := Promoted(p, promotions[k])];
            procs := procs[k := p.(priority := p.priority - 1, slice := p.slice[p.priority - 1 := 0])];
            if p.priority == 3 { front, rear, size := 0, QLEN - 1, 0; }
          }
        } else {
          procs := procs[k := p.(starved := 1)];
        }
      }
    }

    /** Sleeping, exiting, waking up: as far as the scheduler can see. */
    method SetRunnable(i: nat, runnable: bool)
      requires Valid() && i < |procs|
      modifies this`procs
      ensures Valid() && procs == old(procs)[i := old(procs)[i].(runnable := runnable)]
    {
      procs := procs[i := procs[i].(runnable := runnable)];
    }

    method Perform(s: Step)
      requires Valid()
      modifies this
      ensures Valid() && Next(old(Now()), s, Now())
    {
      match s
      case Fork(i, pid) => if i < |procs| { ForkNow(i, pid); }
      case Dispatch(i) =>
        if i < |procs| && procs[i].runnable {
          if procs[i].priority < 3 { DispatchHigh(i); } else { DispatchLow(i); }
        }
      case Bump => BumpAll();
      case Become(i, runnable) => if i < |procs| { SetRunnable(i, runnable); }
    }
  }

  /** In every run, at every state on the way: priorities and slices stay in bounds, levels above a
      process's own are used up exactly, and the ticks at a level are paid for by its budget and
      the promotions into it. */
  method Run(n: nat, steps: seq<Step>) returns (s: Scheduler, ghost trace: Trace<State, Step>)
    ensures fresh(s) && IsRun(n, trace) && StepsOf(trace) == steps && trace.s == s.Now()
  {
    s := new Scheduler(n);
    trace := Begin(s.Now());
    for k := 0 to |steps|
      invariant fresh(s) && s.Valid() && IsRun(n, trace) && StepsOf(trace) == steps[..k] && trace.s == s.Now()
    {
      s.Perform(steps[k]);
      trace := Then(trace, steps[k], s.Now());
      NextStep(steps, k);
    }
    AllSteps(steps);
  }

  /** What a sound state promises. */
  lemma StateBounds(s: State, i: nat, q: nat)
    requires StateOk(s) && i < |s.procs| && q < 3
    ensures var p := s.procs[i];
      && p.priority <= 3 && p.slice[q] <= Budget(q) && (q < p.priority ==> p.slice[q] == Budget(q))
      && p.ticks[q] <= Budget(q) * (1 + s.promotions[i][q])
  {
    TicksBounded(s.procs[i], s.promotions[i], q);
  }
}
