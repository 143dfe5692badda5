/** What becomes of the descriptors that the server accepts, read off the steps of a run. */
module ServerLaws {

  import opened Server
  import opened Traces

  type Run = Trace<State, Step>

  ghost predicate Performed(s: State, step: Step) {
    MayStep(s.workers, s.producer, s.mutex, step)
  }

  /** What a step has added at the end of a list. */
  function Added(before: seq<int>, after: seq<int>): seq<int> {
    if before <= after then after[|before|..] else []
  }

  // ----- The producer

  ghost function AcceptedIn(t: Run): seq<int> {
    match t
    case Begin(_) => []
    case Then(past, step, _) =>
      if Performed(past.s, step) && step.PAccept? then AcceptedIn(past) + [step.fd] else AcceptedIn(past)
  }

  lemma AcceptStep(n: nat, s: State, step: Step)
    requires StateOk(n, s)
    ensures var t := After(n, s, step);
            t.accepted == if Performed(s, step) && step.PAccept? then s.accepted + [step.fd] else s.accepted
  {
  }

  /** What Accept has returned, in order: what has been taken, what is in the buffer, and what the
      producer still has in hand. */
  lemma {:induction false} NothingInvented(nthreads: nat, n: nat, t: Run)
    requires IsRun(nthreads, n, t)
    ensures AcceptedIn(t) == t.s.taken + t.s.queue + InHand(t.s.producer)
  {
    AcceptedSoFar(nthreads, n, t);
  }

  lemma {:induction false} AcceptedSoFar(nthreads: nat, n: nat, t: Run)
    requires IsRun(nthreads, n, t)
    ensures AcceptedIn(t) == t.s.accepted
  {
    match t
    case Begin(_) =>
    case Then(past, step, _) =>
      AcceptedSoFar(nthreads, n, past);
      AcceptStep(n, past.s, step);
  }

  // ----- The workers

  /** What worker i takes from the buffer by a step, and what it handles. */
  ghost function TakenNow(s: State, step: Step, t: State, i: nat): seq<int> {
    if Performed(s, step) && step == Count(i) then Added(s.taken, t.taken) else []
  }

  ghost function HandledNow(s: State, step: Step, i: nat): seq<int> {
    if Performed(s, step) && step == Handle(i) then [s.workers[i].fd] else []
  }

  ghost function TakenBy(t: Run, i: nat): seq<int> {
    match t
    case Begin(_) => []
    case Then(past, step, s) => TakenBy(past, i) + TakenNow(past.s, step, s, i)
  }

  ghost function HandledBy(t: Run, i: nat): seq<int> {
    match t
    case Begin(_) => []
    case Then(past, step, _) => HandledBy(past, i) + HandledNow(past.s, step, i)
  }

  /** What a worker has taken and not handled. */
  function Holds(w: Worker): seq<int> {
    if w.Signalling? || w.Unlocking? || w.Handling? then [w.fd] else []
  }

  lemma WorkerMoves(n: nat, s: State, step: Step, i: nat)
    requires StateOk(n, s) && i < |s.workers|
    ensures var t := After(n, s, step);
            && |t.workers| == |s.workers|
            && Holds(s.workers[i]) + TakenNow(s, step, t, i) == HandledNow(s, step, i) + Holds(t.workers[i])
  {
    if Performed(s, step) {
      if ByProducerStep(step) { ProducerMoves(n, s, step, i); } else { OneMoves(n, s, step, i); }
    }
  }

  lemma ProducerMoves(n: nat, s: State, step: Step, i: nat)
    requires StateOk(n, s) && Performed(s, step) && ByProducerStep(step) && i < |s.workers|
    ensures var t := ProducerStep(n, s, step);
            && |t.workers| == |s.workers|
            && Holds(s.workers[i]) + TakenNow(s, step, t, i) == HandledNow(s, step, i) + Holds(t.workers[i])
  {
  }

  lemma OneMoves(n: nat, s: State, step: Step, i: nat)
    requires StateOk(n, s) && Performed(s, step) && !ByProducerStep(step) && i < |s.workers|
    ensures var t := WorkerStep(n, s, step);
            && |t.workers| == |s.workers|
            && Holds(s.workers[i]) + TakenNow(s, step, t, i) == HandledNow(s, step, i) + Holds(t.workers[i])
  {
  }

  /** Each worker handles what it takes, in that order, each descriptor once. */
  ghost predicate Busy(t: Run, i: nat) {
    i < |t.s.workers| && TakenBy(t, i) == HandledBy(t, i) + Holds(t.s.workers[i])
  }

  lemma BusyStep(n: nat, past: Run, step: Step, i: nat)
    requires StateOk(n, past.s) && Busy(past, i)
    ensures Busy(Then(past, step, After(n, past.s, step)), i)
  {
    WorkerMoves(n, past.s, step, i);
    var s := After(n, past.s, step);
    assert HandledBy(past, i) + (Holds(past.s.workers[i]) + TakenNow(past.s, step, s, i)) ==
           TakenBy(past, i) + TakenNow(past.s, step, s, i);
    assert HandledBy(past, i) + (HandledNow(past.s, step, i) + Holds(s.workers[i])) ==
           HandledBy(past, i) + HandledNow(past.s, step, i) + Holds(s.workers[i]);
  }

  lemma {:induction false} HandledInOrder(nthreads: nat, n: nat, t: Run, i: nat)
    requires IsRun(nthreads, n, t) && i < nthreads
    ensures i < |t.s.workers| && TakenBy(t, i) == HandledBy(t, i) + Holds(t.s.workers[i])
  {
    match t
    case Begin(_) =>
    case Then(past, step, s) =>
      HandledInOrder(nthreads, n, past, i);
      BusyStep(n, past, step, i);
  }

  /** All that workers have taken, in order. */
  ghost function TakenIn(t: Run): seq<int> {
    match t
    case Begin(_) => []
    case Then(past, step, s) =>
      if Performed(past.s, step) && step.Count? then TakenIn(past) + Added(past.s.taken, s.taken) else TakenIn(past)
  }

  lemma TakeStep(n: nat, s: State, step: Step)
    requires StateOk(n, s)
    ensures var t := After(n, s, step);
            if Performed(s, step) && step.Count? then s.queue != [] && t.taken == s.taken + [s.queue[0]]
            else t.taken == s.taken
  {
    if Performed(s, step) && step.Count? { var _ := TakenState(n, s, step.i); }
  }

  /** Only workers take descriptors: the list of those taken is made of what each has taken. */
  lemma {:induction false} TakenByWorkers(nthreads: nat, n: nat, t: Run)
    requires IsRun(nthreads, n, t)
    ensures TakenIn(t) == t.s.taken
  {
    match t
    case Begin(_) =>
    case Then(past, step, s) =>
      TakenByWorkers(nthreads, n, past);
      TakeStep(n, past.s, step);
  }

  // ----- No deadlock

  /** A step of a thread that nobody has to wake and that needs nothing from outside. */
  predicate Inside(step: Step) {
    !step.PAccept? && !step.Spurious? && !step.PSpurious?
  }

  lemma WorkerInside(n: nat, s: State, i: nat) returns (step: Step)
    requires StateOk(n, s) && s.mutex == ByWorker(i)
    ensures Inside(step) && Performed(s, step)
  {
    assert i < |s.workers| && InSection(s.workers[i]);
    step := match s.workers[i] {
      case Checking => Check(i)
      case Advancing(_) => Advance(i)
      case Counting(_) => Count(i)
      case Signalling(_) => Signal(i)
      case _ => Unlock(i)
    };
  }

  lemma ProducerInside(n: nat, s: State) returns (step: Step)
    requires StateOk(n, s) && s.mutex == ByProducer
    ensures Inside(step) && Performed(s, step)
  {
    assert PInSection(s.producer);
    match s.producer
    case PChecking(_) => step := PCheck;
    case PStoring(_) => step := PStore;
    case PAdvancing(_) => step := PAdvance;
    case PCounting(_) => step := PCount;
    case PUnlocking => step := PUnlock;
    case PSignalling =>
      if i: nat :| i < |s.workers| && s.workers[i].Waiting? { step := PSignal({i}); } else { step := PSignal({}); }
  }

  /** When no thread can go on, all that has been accepted has been handled, every worker waits
      for more, and so does the producer, in Accept. */
  lemma NoDeadlock(n: nat, s: State)
    requires StateOk(n, s) && forall step: Step {:trigger Performed(s, step)} | Inside(step) :: !Performed(s, step)
    ensures s.producer.Accepting? && s.taken == s.accepted && forall i: nat | i < |s.workers| :: s.workers[i].Waiting?
  {
    if s.mutex.ByWorker? { var _ := WorkerInside(n, s, s.mutex.i); }
    if s.mutex == ByProducer { var _ := ProducerInside(n, s); }
    forall i: nat | i < |s.workers|
      ensures s.workers[i].Waiting?
    {
      assert !Performed(s, Lock(i)) && !Performed(s, Handle(i));
      assert !InSection(s.workers[i]);
    }
    assert !Performed(s, PLock) && !PInSection(s.producer);
    assert AwakeOnes(s.workers) == {};
    assert s.workers[0].Waiting?;
    StateSafe(n, s);
  }
}
