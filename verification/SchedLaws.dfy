/** What the scheduler does with a process in a run, counted in turns on the processor. */
module SchedLaws {

  import opened Counters
  import opened Sched
  import opened Traces

  type Run = Trace<State, Step>

  /** A step has given slot i a turn at level q. */
  predicate TurnOf(s: State, t: State, i: nat, q: nat) {
    |t.turns| == |s.turns| + 1 && t.turns[|s.turns|] == Turn(i, q)
  }

  // ----- Turns are counted

  /** The turns of slot i at level q since it was last forked. */
  function TurnsAt(t: Run, i: nat, q: nat): nat {
    match t
    case Begin(_) => 0
    case Then(past, step, s) =>
      if step.Fork? && step.i == i then 0 else TurnsAt(past, i, q) + if TurnOf(past.s, s, i, q) then 1 else 0
  }

  /** What a step does to the counters of slot i. */
  lemma TickStep(s: State, step: Step, t: State, i: nat, q: nat)
    requires StateOk(s) && Next(s, step, t) && i < |s.procs| && q < 4
    ensures |t.procs| == |s.procs| && |t.procs[i].ticks| == 4
    ensures t.procs[i].ticks[q] == if step.Fork? && step.i == i then 0
                                   else if TurnOf(s, t, i, q) then (s.procs[i].ticks[q] + 1) % UINT
                                   else s.procs[i].ticks[q]
  {
  }

  lemma TicksOn(past: Run, step: Step, s: State, i: nat, q: nat)
    requires StateOk(past.s) && Next(past.s, step, s) && i < |past.s.procs| && q < 4
    requires past.s.procs[i].ticks[q] == TurnsAt(past, i, q) % UINT
    ensures |s.procs| == |past.s.procs| && |s.procs[i].ticks| == 4
    ensures s.procs[i].ticks[q] == TurnsAt(Then(past, step, s), i, q) % UINT
  {
    TickStep(past.s, step, s, i, q);
    CountOn(TurnsAt(past, i, q));
  }

  /** ticks[q] is the number of turns at level q since the fork, in 32 bits. */
  lemma {:induction false} TicksCount(n: nat, t: Run, i: nat, q: nat)
    requires IsRun(n, t) && i < n && q < 4
    ensures |t.s.procs| == n && |t.s.procs[i].ticks| == 4 && t.s.procs[i].ticks[q] == TurnsAt(t, i, q) % UINT
  {
    match t
    case Begin(_) =>
    case Then(past, step, s) =>
      TicksCount(n, past, i, q);
      TicksOn(past, step, s, i, q);
  }

  // ----- A slice at each level

  /** The process has just been moved up to level q. */
  predicate MovedUp(s: State, step: Step, t: State, i: nat, q: nat) {
    step.Bump? && i < |s.procs| == |t.procs| && s.procs[i].priority == q + 1 && t.procs[i].priority == q
  }

  /** The turns at level q since slot i was forked, or last moved up to level q. */
  function SliceTurns(t: Run, i: nat, q: nat): nat {
    match t
    case Begin(_) => 0
    case Then(past, step, s) =>
      if (step.Fork? && step.i == i) || MovedUp(past.s, step, s, i, q) then 0
      else SliceTurns(past, i, q) + if TurnOf(past.s, s, i, q) then 1 else 0
  }

  lemma SliceStep(s: State, step: Step, t: State, i: nat, q: nat)
    requires StateOk(s) && Next(s, step, t) && i < |s.procs| && q < 4
    ensures |t.procs| == |s.procs| && |t.procs[i].slice| == 4
    ensures t.procs[i].slice[q] == if (step.Fork? && step.i == i) || MovedUp(s, step, t, i, q) then 0
                                   else if TurnOf(s, t, i, q) then (s.procs[i].slice[q] + 1) % UINT
                                   else s.procs[i].slice[q]
  {
  }

  lemma SliceOn(past: Run, step: Step, s: State, i: nat, q: nat)
    requires StateOk(past.s) && Next(past.s, step, s) && i < |past.s.procs| && q < 4
    requires past.s.procs[i].slice[q] == SliceTurns(past, i, q) % UINT
    ensures |s.procs| == |past.s.procs| && |s.procs[i].slice| == 4
    ensures s.procs[i].slice[q] == SliceTurns(Then(past, step, s), i, q) % UINT
  {
    SliceStep(past.s, step, s, i, q);
    CountOn(SliceTurns(past, i, q));
  }

  lemma {:induction false} SliceCount(n: nat, t: Run, i: nat, q: nat)
    requires IsRun(n, t) && i < n && q < 4
    ensures |t.s.procs| == n && |t.s.procs[i].slice| == 4 && t.s.procs[i].slice[q] == SliceTurns(t, i, q) % UINT
  {
    match t
    case Begin(_) =>
    case Then(past, step, s) =>
      SliceCount(n, past, i, q);
      SliceOn(past, step, s, i, q);
  }

  /** How many turns a process gets at a level. */
  function Slice(q: nat): nat {
    if q < 2 then 5 else 10
  }

  lemma {:induction false} SliceBound(n: nat, t: Run, i: nat, q: nat)
    requires IsRun(n, t) && i < n && q < 3
    ensures SliceTurns(t, i, q) <= Slice(q)
  {
    match t
    case Begin(_) =>
    case Then(past, step, s) =>
      SliceBound(n, past, i, q);
      SliceCount(n, past, i, q);
      BoundOn(past, step, s, i, q);
  }

  lemma BoundOn(past: Run, step: Step, s: State, i: nat, q: nat)
    requires StateOk(past.s) && Next(past.s, step, s) && i < |past.s.procs| && q < 3
    requires past.s.procs[i].slice[q] == SliceTurns(past, i, q) % UINT && SliceTurns(past, i, q) <= Slice(q)
    ensures SliceTurns(Then(past, step, s), i, q) <= Slice(q)
  {
    if TurnOf(past.s, s, i, q) { SliceTurnStep(past.s, step, s, i, q); }
  }

  lemma SliceTurnStep(s: State, step: Step, t: State, i: nat, q: nat)
    requires StateOk(s) && Next(s, step, t) && i < |s.procs| && q < 3 && TurnOf(s, t, i, q)
    ensures s.procs[i].slice[q] < Slice(q)
  {
  }

  /** At levels 0 to 2 a process whose turn comes gets the processor exactly while it has had fewer
      turns than its slice since it came to the level; after that it goes one level down. */
  lemma Demotion(n: nat, past: Run, s: State, i: nat)
    requires IsRun(n, Then(past, Dispatch(i), s)) && i < n && |past.s.procs| == n && |s.procs| == n
    requires past.s.procs[i].runnable && past.s.procs[i].priority < 3
    ensures var q := past.s.procs[i].priority;
            if SliceTurns(past, i, q) < Slice(q) then TurnOf(past.s, s, i, q) && s.procs[i].priority == q
            else SliceTurns(past, i, q) == Slice(q) && s.turns == past.s.turns && s.procs[i].priority == q + 1
  {
    var q := past.s.procs[i].priority;
    SliceCount(n, past, i, q);
    SliceBound(n, past, i, q);
    SliceFits(past.s.procs[i].slice[q], SliceTurns(past, i, q), Slice(q));
    DispatchTurn(past.s, i, s);
  }

  lemma SliceFits(x: nat, turns: nat, most: nat)
    requires x == turns % UINT && turns <= most < UINT
    ensures x == turns
  {
  }

  lemma DispatchTurn(s: State, i: nat, t: State)
    requires StateOk(s) && Next(s, Dispatch(i), t) && i < |s.procs| && s.procs[i].runnable && s.procs[i].priority < 3
    ensures |t.procs| == |s.procs|
    ensures var q := s.procs[i].priority;
            if s.procs[i].slice[q] < Slice(q) then TurnOf(s, t, i, q) && t.procs[i].priority == q
            else t.turns == s.turns && t.procs[i].priority == q + 1
  {
  }

  /** Turns go only to the process whose turn has come, at its level. */
  lemma TurnsAreGiven(s: State, step: Step, t: State)
    requires StateOk(s) && Next(s, step, t)
    ensures s.turns <= t.turns
    ensures t.turns == s.turns || (step.Dispatch? && step.i < |s.procs| && s.procs[step.i].runnable
                                   && TurnOf(s, t, step.i, s.procs[step.i].priority))
  {
  }

  // ----- Starvation

  /** Slot i has had no turn since it was forked or, being runnable, last looked at by bump_priority. */
  function Starves(t: Run, i: nat): bool {
    match t
    case Begin(_) => false
    case Then(past, step, s) =>
      if step.Fork? && step.i == i then true
      else if step.Bump? && i < |past.s.procs| && past.s.procs[i].runnable then true
      else if exists q: nat | q < 4 :: TurnOf(past.s, s, i, q) then false
      else Starves(past, i)
  }

  lemma StarveStep(s: State, step: Step, t: State, i: nat)
    requires StateOk(s) && Next(s, step, t) && i < |s.procs|
    ensures |t.procs| == |s.procs|
    ensures t.procs[i].starved == if (step.Fork? && step.i == i) || (step.Bump? && s.procs[i].runnable) then 1
                                  else if exists q: nat | q < 4 :: TurnOf(s, t, i, q) then 0
                                  else s.procs[i].starved
  {
    if step.Dispatch? && step.i == i && s.procs[i].runnable {
      var q := s.procs[i].priority;
      assert TurnOf(s, t, i, q) || t.turns == s.turns;
    }
  }

  lemma {:induction false} StarvedMark(n: nat, t: Run, i: nat)
    requires IsRun(n, t) && i < n
    ensures |t.s.procs| == n && t.s.procs[i].starved == if Starves(t, i) then 1 else 0
  {
    match t
    case Begin(_) =>
    case Then(past, step, s) =>
      StarvedMark(n, past, i);
      StarveStep(past.s, step, s, i);
  }

  /** bump_priority moves exactly the runnable processes without a turn one level up, with a new slice. */
  lemma BumpRaises(s: State, t: State, i: nat)
    requires StateOk(s) && Next(s, Bump, t) && i < |s.procs|
    ensures |t.procs| == |s.procs| && t.turns == s.turns
    ensures var p, r := s.procs[i], t.procs[i];
            if p.runnable && p.starved == 1 && p.priority > 0
            then r.priority == p.priority - 1 && r.slice == p.slice[r.priority := 0]
            else r.priority == p.priority && r.slice == p.slice
  {
  }

  lemma Promotion(n: nat, past: Run, s: State, i: nat)
    requires IsRun(n, Then(past, Bump, s)) && i < n && |past.s.procs| == n && |s.procs| == n
    ensures var p := past.s.procs[i];
            s.procs[i].priority == if p.runnable && Starves(past, i) && p.priority > 0 then p.priority - 1
                else p.priority
  {
    StarvedMark(n, past, i);
    BumpRaises(past.s, s, i);
  }

  /** Nothing else changes a level; fork starts at level 0. */
  lemma LevelsStay(s: State, step: Step, t: State, i: nat)
    requires StateOk(s) && Next(s, step, t) && i < |s.procs| && !step.Bump? && step != Dispatch(i)
    ensures |t.procs| == |s.procs|
    ensures t.procs[i].priority == if step.Fork? && step.i == i then 0 else s.procs[i].priority
    ensures step.Fork? && step.i == i ==> t.procs[i].runnable && t.procs[i].pid == step.pid
    ensures !(step.Fork? && step.i == i) ==> t.procs[i].pid == s.procs[i].pid
  {
  }

  // ----- Level 3

  /** At level 3 a turn goes to the process at the front of the queue, after its pid has been put
      at the end; every twentieth turn of a process takes the front away. */
  lemma LastLevel(s: State, i: nat, t: State)
    requires StateOk(s) && Next(s, Dispatch(i), t) && i < |s.procs| && s.procs[i].runnable && s.procs[i].priority == 3
    ensures |t.procs| == |s.procs| && |t.p3q| == QLEN && t.procs[i].priority == 3
    ensures t.rear == (s.rear + 1) % QLEN && t.p3q == s.p3q[t.rear := s.procs[i].pid]
    ensures s.size >= 0 ==> (TurnOf(s, t, i, 3) <==> t.p3q[s.front] == s.procs[i].pid)
    ensures !TurnOf(s, t, i, 3) ==> t.turns == s.turns && t.front == s.front && t.procs == s.procs
    ensures var twentieth := TurnOf(s, t, i, 3) && s.procs[i].p3ticks == 19;
            t.front == (if twentieth then (s.front + 1) % QLEN else s.front)
            && t.size == s.size + if twentieth then 0 else 1
  {
  }

  /** Only turns at level 3 change the queue, and a promotion from level 3, which empties it. */
  lemma QueueKept(s: State, step: Step, t: State)
    requires StateOk(s) && Next(s, step, t)
    requires step.Dispatch? && step.i < |s.procs| ==> !(s.procs[step.i].runnable && s.procs[step.i].priority == 3)
    ensures t.p3q == s.p3q && |t.procs| == |s.procs|
    ensures (t.front, t.rear, t.size) ==
            if step.Bump? && exists i: nat :: i < |s.procs| && s.procs[i].priority == 3 && t.procs[i].priority == 2
            then (0, QLEN - 1, 0) else (s.front, s.rear, s.size)
  {
    if step.Bump? && Emptied(s) {
      var i: nat :| i < |s.procs| && s.procs[i].runnable && s.procs[i].starved == 1 && s.procs[i].priority == 3;
      assert t.procs[i].priority == 2;
    }
  }

  lemma RoundStep(s: State, step: Step, t: State, i: nat)
    requires StateOk(s) && Next(s, step, t) && i < |s.procs|
    ensures |t.procs| == |s.procs|
    ensures t.procs[i].p3ticks == if step.Fork? && step.i == i then 0
                                  else if TurnOf(s, t, i, 3) then (s.procs[i].p3ticks + 1) % 20
                                  else s.procs[i].p3ticks
  {
  }

  /** p3ticks counts the turns at level 3 in rounds of twenty. */
  lemma {:induction false} RoundsOfTwenty(n: nat, t: Run, i: nat)
    requires IsRun(n, t) && i < n
    ensures |t.s.procs| == n && t.s.procs[i].p3ticks == TurnsAt(t, i, 3) % 20
  {
    match t
    case Begin(_) =>
    case Then(past, step, s) =>
      RoundsOfTwenty(n, past, i);
      RoundOn(past, step, s, i);
  }

  lemma RoundOn(past: Run, step: Step, s: State, i: nat)
    requires StateOk(past.s) && Next(past.s, step, s) && i < |past.s.procs|
    requires past.s.procs[i].p3ticks == TurnsAt(past, i, 3) % 20
    ensures |s.procs| == |past.s.procs| && s.procs[i].p3ticks == TurnsAt(Then(past, step, s), i, 3) % 20
  {
    RoundStep(past.s, step, s, i);
    NextOfTwenty(TurnsAt(past, i, 3));
  }

  lemma NextOfTwenty(x: nat)
    ensures (x % 20 + 1) % 20 == (x + 1) % 20
  {
  }
}
