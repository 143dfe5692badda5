/** The worker pool of p4/linux/server.c: a bounded buffer of descriptors under one mutex with
    two condition variables, for any number of workers and buffers.

    One step is one statement of one thread.  A signal wakes at least one waiting thread if
    there is one, and waiting threads may also wake for no reason (POSIX.1,
    pthread_cond_wait). */
module Server {

  import opened Sets
  import opened Traces

  datatype Worker =
    | Locking
    | Checking // holds the mutex, at while (count == 0)
    | Waiting // in pthread_cond_wait(&fill), nobody has woken it
    | Awake // woken, needs the mutex
    | Advancing(fd: int) // curr_fd is read
    | Counting(fd: int) // used is advanced
    | Signalling(fd: int) // count is decremented
    | Unlocking(fd: int)
    | Handling(fd: int)

  datatype Producer =
    | Accepting
    | PLocking(fd: int)
    | PChecking(fd: int) // holds the mutex, at while (count == nbuffers)
    | PWaiting(fd: int)
    | PAwake(fd: int)
    | PStoring(fd: int)
    | PAdvancing(fd: int) // buffer[filled] is stored
    | PCounting(fd: int) // filled is advanced
    | PSignalling // count is incremented
    | PUnlocking

  datatype Holder = Nobody | ByWorker(i: nat) | ByProducer

  predicate InSection(w: Worker) {
    w.Checking? || w.Advancing? || w.Counting? || w.Signalling? || w.Unlocking?
  }

  predicate PInSection(p: Producer) {
    p.PChecking? || p.PStoring? || p.PAdvancing? || p.PCounting? || p.PSignalling? || p.PUnlocking?
  }

  /** Place k of the ring after place h. */
  function Slot(h: nat, k: nat, n: nat): nat {
    if h + k < n then h + k else h + k - n
  }

  lemma NextPlace(u: nat, n: nat)
    requires u < n
    ensures (u + 1) % n == Slot(u, 1, n)
  {
    if u + 1 < n { ModSmall(u + 1, n); }
  }

  lemma ModSmall(x: nat, n: nat)
    requires x < n
    ensures x % n == x
  {
  }

  /** The place of the oldest descriptor; `used` runs ahead of it while a worker is between its
      two assignments. */
  function Head(n: nat, used: nat, mutex: Holder, workers: seq<Worker>): nat
    requires used < n
  {
    if mutex.ByWorker? && mutex.i < |workers| && workers[mutex.i].Counting? then if used == 0 then n - 1 else used - 1
    else used
  }

  ghost function AwakeOnes(workers: seq<Worker>): set<nat> {
    set i: nat | i < |workers| && workers[i].Awake?
  }

  /** The holder of the mutex is exactly the thread inside its critical section. */
  ghost predicate MutexOk(mutex: Holder, workers: seq<Worker>, producer: Producer) {
    && (mutex.ByWorker? ==> mutex.i < |workers|)
    && (PInSection(producer) <==> mutex == ByProducer)
    && forall i: nat {:trigger workers[i]} | i < |workers| :: InSection(workers[i]) <==> mutex == ByWorker(i)
  }

  /** The buffer holds the queue from Head on. */
  ghost predicate RingOk(n: nat, buffer: seq<int>, count: int, filled: nat, used: nat, mutex: Holder,
                         workers: seq<Worker>,
                         producer: Producer, queue: seq<int>)
  {
    && |buffer| == n && used < n && filled < n && count == |queue| <= n
    && var h := Head(n, used, mutex, workers);
       && filled == Slot(h, if producer.PCounting? then count + 1 else count, n)
       && (producer.PStoring? || producer.PAdvancing? || producer.PCounting? ==> count < n)
       && (producer.PAdvancing? || producer.PCounting? ==> buffer[Slot(h, count, n)] == producer.fd)
       && (mutex.ByWorker? && mutex.i < |workers| && (workers[mutex.i].Advancing? || workers[mutex.i].Counting?) ==>
             count > 0 && workers[mutex.i].fd == queue[0])
       && forall k: nat {:trigger queue[k]} | k < count :: buffer[Slot(h, k, n)] == queue[k]
  }

  /** A worker that waits and that nobody has woken leaves no descriptor without a woken worker;
      one is still owed while a signal is outstanding or the holder is about to take one. */
  ghost predicate NoLostWorker(count: int, mutex: Holder, workers: seq<Worker>, producer: Producer) {
    (exists i: nat :: i < |workers| && workers[i].Waiting?) ==>
      count <= |AwakeOnes(workers)| +
        if producer.PSignalling? then 1
        else if mutex.ByWorker? && mutex.i < |workers| && !workers[mutex.i].Signalling? && !workers[mutex.i].Unlocking?
            then 1
        else 0
  }

  /** A producer that waits and that nobody has woken faces a full buffer, unless a worker is just about to signal. */
  ghost predicate NoLostProducer(n: nat, count: int, mutex: Holder, workers: seq<Worker>, producer: Producer) {
    producer.PWaiting? ==>
      count == n || (count == n - 1 && mutex.ByWorker? && mutex.i < |workers| && workers[mutex.i].Signalling?)
  }

  ghost predicate Inv(n: nat, buffer: seq<int>, count: int, filled: nat, used: nat, mutex: Holder, workers: seq<Worker>,
                      producer: Producer, queue: seq<int>)
  {
    && n > 0 && |workers| > 0 && MutexOk(mutex, workers, producer)
    && RingOk(n, buffer, count, filled, used, mutex, workers, producer, queue)
    && NoLostWorker(count, mutex, workers, producer) && NoLostProducer(n, count, mutex, workers, producer)
  }

  /** A worker moves on inside its critical section. */
  lemma SectionKept(mutex: Holder, workers: seq<Worker>, producer: Producer, i: nat, w: Worker)
    requires MutexOk(mutex, workers, producer) && i < |workers| && InSection(workers[i]) && InSection(w)
    ensures MutexOk(mutex, workers[i := w], producer) && mutex == ByWorker(i) && !PInSection(producer)
  {
  }

  /** A worker moves on outside its critical section: it may wake up, but not go to wait or sleep again. */
  lemma OutsideMoved(n: nat, buffer: seq<int>, count: int, filled: nat, used: nat, mutex: Holder, workers: seq<Worker>,
                     producer: Producer, queue: seq<int>, i: nat, w: Worker)
    requires Inv(n, buffer, count, filled, used, mutex, workers, producer, queue)
    requires i < |workers| && !InSection(workers[i]) && !InSection(w) && !w.Waiting? && (workers[i].Awake? ==> w.Awake?)
    ensures Inv(n, buffer, count, filled, used, mutex, workers[i := w], producer, queue)
  {
    Moved(workers, i, w);
    assert mutex != ByWorker(i);
  }

  /** used = (used + 1) % nbuffers of the worker in slot i. */
  lemma Advanced(n: nat, buffer: seq<int>, count: int, filled: nat, used: nat, mutex: Holder, workers: seq<Worker>,
                 producer: Producer, queue: seq<int>, i: nat)
    requires Inv(n, buffer, count, filled, used, mutex, workers, producer, queue)
    requires i < |workers| && workers[i].Advancing?
    ensures Inv(n, buffer, count, filled, (used + 1) % n, mutex, workers[i := Counting(workers[i].fd)], producer, queue)
  {
    var w := Counting(workers[i].fd);
    SectionKept(mutex, workers, producer, i, w);
    Moved(workers, i, w);
    NextPlace(used, n);
    assert Head(n, (used + 1) % n, mutex, workers[i := w]) == used;
  }

  /** count-- of the worker in slot i: the oldest descriptor is its own. */
  lemma TakenOne(n: nat, buffer: seq<int>, count: int, filled: nat, used: nat, mutex: Holder, workers: seq<Worker>,
                 producer: Producer, queue: seq<int>, i: nat, count1: int, workers1: seq<Worker>, rest: seq<int>)
    requires Inv(n, buffer, count, filled, used, mutex, workers, producer, queue)
    requires i < |workers| && workers[i].Counting? && workers1 == workers[i := Signalling(workers[i].fd)]
    requires count1 == count - 1 && queue == [workers[i].fd] + rest
    ensures Inv(n, buffer, count1, filled, used, mutex, workers1, producer, rest)
  {
    var w := Signalling(workers[i].fd);
    SectionKept(mutex, workers, producer, i, w);
    Moved(workers, i, w);
    var h := Head(n, used, mutex, workers);
    forall k: nat | k < count1 ensures buffer[Slot(used, k, n)] == rest[k] {
      assert rest[k] == queue[k + 1] && Slot(used, k, n) == Slot(h, k + 1, n);
    }
  }

  /** With the mutex free: no lost wakeup, and not everybody waits. */
  lemma NobodyIsLost(n: nat, buffer: seq<int>, count: int, filled: nat, used: nat, workers: seq<Worker>,
                     producer: Producer, queue: seq<int>)
    requires Inv(n, buffer, count, filled, used, Nobody, workers, producer, queue)
    ensures (exists i: nat :: i < |workers| && workers[i].Waiting?) ==> count <= |AwakeOnes(workers)|
    ensures producer.PWaiting? ==> count == n
    ensures !(producer.PWaiting? && forall i: nat | i < |workers| :: workers[i].Waiting?)
  {
    if forall i: nat | i < |workers| :: workers[i].Waiting? {
      assert workers[0].Waiting?;
      assert AwakeOnes(workers) == {};
    }
  }

  // ----- Waking

  /** Some of the waiting workers wake up. */
  ghost predicate Woke(workers: seq<Worker>, workers1: seq<Worker>, who: set<nat>) {
    && |workers1| == |workers|
    && forall i: nat {:trigger workers1[i]} | i < |workers| ::
         if i in who then workers[i].Waiting? && workers1[i].Awake? else workers1[i] == workers[i]
  }

  function WokenOnes(workers: seq<Worker>, who: set<nat>): (r: seq<Worker>)
    requires forall i: nat | i in who :: i < |workers| && workers[i].Waiting?
    ensures Woke(workers, r, who)
  {
    seq(|workers|, (i: nat) requires i < |workers| => if i in who then Awake else workers[i])
  }

  lemma MoreAwake(workers: seq<Worker>, workers1: seq<Worker>, who: set<nat>)
    requires Woke(workers, workers1, who)
    ensures |AwakeOnes(workers1)| >= |AwakeOnes(workers)|
    ensures (exists i: nat :: i in who && i < |workers|) ==> |AwakeOnes(workers1)| >= |AwakeOnes(workers)| + 1
  {
    assert AwakeOnes(workers) <= AwakeOnes(workers1);
    CardLe(AwakeOnes(workers), AwakeOnes(workers1));
    if i: nat :| i in who && i < |workers| {
      assert i in AwakeOnes(workers1) && i !in AwakeOnes(workers);
      CardLe(AwakeOnes(workers) + {i}, AwakeOnes(workers1));
    }
  }

  lemma Moved(workers: seq<Worker>, i: nat, w: Worker)
    requires i < |workers|
    ensures AwakeOnes(workers[i := w]) == (if w.Awake? then AwakeOnes(workers) + {i} else AwakeOnes(workers) - {i})
    ensures |AwakeOnes(workers[i := w])| ==
            |AwakeOnes(workers)| + (if w.Awake? then 1 else 0) - if workers[i].Awake? then 1 else 0
  {
    var a, b := AwakeOnes(workers), AwakeOnes(workers[i := w]);
    assert b == if w.Awake? then a + {i} else a - {i};
  }

  lemma NoneWaits(workers: seq<Worker>, workers1: seq<Worker>, who: set<nat>)
    requires Woke(workers, workers1, who) && forall i: nat | i in who :: i < |workers| && workers[i].Waiting?
    requires who == {} ==> forall i: nat | i < |workers| :: !workers[i].Waiting?
    ensures (exists i: nat :: i < |workers1| && workers1[i].Waiting?)
            ==> |AwakeOnes(workers1)| >= |AwakeOnes(workers)| + 1
    ensures (exists i: nat :: i < |workers1| && workers1[i].Waiting?)
            ==> exists i: nat :: i < |workers| && workers[i].Waiting?
  {
    MoreAwake(workers, workers1, who);
    if k: nat :| k < |workers1| && workers1[k].Waiting? {
      assert workers[k].Waiting? && who != {};
    }
  }

  /** The place behind the queue is not one of its own. */
  lemma StoreApart(n: nat, count: nat, h: nat)
    requires h < n && count < n
    ensures Slot(h, count, n) < n && forall k: nat {:trigger Slot(h, k, n)} | k < count ::
            Slot(h, k, n) != Slot(h, count, n)
  {
  }

  datatype Step =
    | Lock(i: nat) // pthread_mutex_lock, or coming back from pthread_cond_wait
    | Check(i: nat)
    | Advance(i: nat)
    | Count(i: nat)
    | Signal(i: nat)
    | Unlock(i: nat)
    | Handle(i: nat)
    | Spurious(i: nat)
    | PAccept(fd: int)
    | PLock
    | PCheck
    | PStore
    | PAdvance
    | PCount
    | PSignal(who: set<nat>)
    | PUnlock
    | PSpurious

  predicate MayStep(workers: seq<Worker>, producer: Producer, mutex: Holder, step: Step) {
    match step
    case Lock(i) => i < |workers| && (workers[i].Locking? || workers[i].Awake?) && mutex.Nobody?
    case Check(i) => i < |workers| && workers[i].Checking?
    case Advance(i) => i < |workers| && workers[i].Advancing?
    case Count(i) => i < |workers| && workers[i].Counting?
    case Signal(i) => i < |workers| && workers[i].Signalling?
    case Unlock(i) => i < |workers| && workers[i].Unlocking?
    case Handle(i) => i < |workers| && workers[i].Handling?
    case Spurious(i) => i < |workers| && workers[i].Waiting?
    case PAccept(fd) => producer.Accepting?
    case PLock => (producer.PLocking? || producer.PAwake?) && mutex.Nobody?
    case PCheck => producer.PChecking?
    case PStore => producer.PStoring?
    case PAdvance => producer.PAdvancing?
    case PCount => producer.PCounting?
    case PSignal(who) =>
      && producer.PSignalling? && (forall i: nat | i in who :: i < |workers| && workers[i].Waiting?)
      && (who == {} ==> forall i: nat | i < |workers| :: !workers[i].Waiting?)
    case PUnlock => producer.PUnlocking?
    case PSpurious => producer.PWaiting?
  }

  /** The variables of the program; and the descriptors waiting in the buffer, all accepted ones
      in the order of Accept, and all taken ones in the order of the workers' count--. */
  datatype State = State(buffer: seq<int>, count: int, filled: nat, used: nat, mutex: Holder, workers: seq<Worker>,
                         producer: Producer,
                         queue: seq<int>, accepted: seq<int>, taken: seq<int>)

  /** What the producer still has in hand. */
  function InHand(producer: Producer): seq<int> {
    if producer.Accepting? || producer.PSignalling? || producer.PUnlocking? then [] else [producer.fd]
  }

  ghost predicate StateOk(n: nat, s: State) {
    && Inv(n, s.buffer, s.count, s.filled, s.used, s.mutex, s.workers, s.producer, s.queue)
    && s.accepted == s.taken + s.queue + InHand(s.producer)
  }

  /** A worker's statement. */
  ghost function WorkerStep(n: nat, s: State, step: Step): State
    requires 0 < n == |s.buffer| && s.used < n && MayStep(s.workers, s.producer, s.mutex, step)
  {
    match step
    case Lock(i) => s.(mutex := ByWorker(i), workers := s.workers[i := Checking])
    case Check(i) => if s.count == 0 then s.(mutex := Nobody, workers := s.workers[i := Waiting])
        else s.(workers := s.workers[i := Advancing(s.buffer[s.used])])
    case Advance(i) => s.(used := (s.used + 1) % n, workers := s.workers[i := Counting(s.workers[i].fd)])
    case Count(i) =>
      s.(count := s.count - 1, workers := s.workers[i := Signalling(s.workers[i].fd)],
         queue := if s.queue == [] then [] else s.queue[1..], taken := s.taken + [s.workers[i].fd])
    case Signal(i) =>
      s.(producer := if s.producer.PWaiting? then PAwake(s.producer.fd) else s.producer,
         workers := s.workers[i := Unlocking(s.workers[i].fd)])
    case Unlock(i) => s.(mutex := Nobody, workers := s.workers[i := Handling(s.workers[i].fd)])
    case Handle(i) => s.(workers := s.workers[i := Locking])
    case Spurious(i) => s.(workers := s.workers[i := Awake])
    case _ => s
  }

  /** A statement of the producer; a signal wakes the workers in `who`. */
  ghost function ProducerStep(n: nat, s: State, step: Step): State
    requires 0 < n == |s.buffer| && s.filled < n && MayStep(s.workers, s.producer, s.mutex, step)
  {
    match step
    case PAccept(fd) => s.(producer := PLocking(fd), accepted := s.accepted + [fd])
    case PLock => s.(mutex := ByProducer, producer := PChecking(s.producer.fd))
    case PCheck => if s.count == n then s.(mutex := Nobody, producer := PWaiting(s.producer.fd))
        else s.(producer := PStoring(s.producer.fd))
    case PStore => s.(buffer := s.buffer[s.filled := s.producer.fd], producer := PAdvancing(s.producer.fd))
    case PAdvance => s.(filled := (s.filled + 1) % n, producer := PCounting(s.producer.fd))
    case PCount => s.(count := s.count + 1, producer := PSignalling, queue := s.queue + [s.producer.fd])
    case PSignal(who) => s.(producer := PUnlocking, workers := WokenOnes(s.workers, who))
    case PUnlock => s.(mutex := Nobody, producer := Accepting)
    case PSpurious => s.(producer := PAwake(s.producer.fd))
    case _ => s
  }

  lemma TakenState(n: nat, s: State, i: nat) returns (t: State)
    requires StateOk(n, s) && MayStep(s.workers, s.producer, s.mutex, Count(i))
    ensures t == WorkerStep(n, s, Count(i)) && StateOk(n, t)
    ensures s.queue != [] && s.workers[i].fd == s.queue[0]
  {
    var fd, rest := s.workers[i].fd, s.queue[1..];
    assert s.queue == [fd] + rest;
    t := s.(count := s.count - 1, workers := s.workers[i := Signalling(fd)], queue := rest, taken := s.taken + [fd]);
    TakenOne(n, s.buffer, s.count, s.filled, s.used, s.mutex, s.workers, s.producer, s.queue, i, t.count, t.workers,
             t.queue);
  }

  predicate ByProducerStep(step: Step) {
    step.PAccept? || step.PLock? || step.PCheck? || step.PStore? || step.PAdvance? || step.PCount? || step.PSignal?
        || step.PUnlock? || step.PSpurious?
  }

  /** Steps that are not possible change nothing. */
  ghost function After(n: nat, s: State, step: Step): State
    requires StateOk(n, s)
  {
    if !MayStep(s.workers, s.producer, s.mutex, step) then s
    else if ByProducerStep(step) then ProducerStep(n, s, step)
    else WorkerStep(n, s, step)
  }

  ghost predicate IsRun(nthreads: nat, n: nat, t: Trace<State, Step>) {
    && StateOk(n, t.s)
    && match t
       case Begin(s) => s == State(s.buffer, 0, 0, 0, Nobody, Threads(nthreads), Accepting, [], [], [])
       case Then(past, step, s) => IsRun(nthreads, n, past) && StateOk(n, past.s) && s == After(n, past.s, step)
  }

  lemma RunOn(nthreads: nat, n: nat, t: Trace<State, Step>, step: Step, s: State)
    requires IsRun(nthreads, n, t) && StateOk(n, t.s) && s == After(n, t.s, step) && StateOk(n, s)
    ensures IsRun(nthreads, n, Then(t, step, s))
  {
  }

  function Threads(n: nat): seq<Worker> {
    seq(n, _ => Locking)
  }

  class Pool {
    const n: nat // nbuffers
    var buffer: seq<int>
    var count: int
    var filled: nat
    var used: nat
    var mutex: Holder
    var workers: seq<Worker>
    var producer: Producer
    ghost var queue: seq<int>
    ghost var accepted: seq<int> // in the order of Accept
    ghost var taken: seq<int> // in the order of the workers' count--

    ghost function Now(): State
      reads this
    {
      State(buffer, count, filled, used, mutex, workers, producer, queue, accepted, taken)
    }

    ghost predicate Valid()
      reads this
    {
      StateOk(n, Now())
    }

    constructor (nthreads: nat, nbuffers: nat)
      requires nthreads > 0 && nbuffers > 0
      ensures Valid() && n == nbuffers && Now() == State(buffer, 0, 0, 0, Nobody, Threads(nthreads), Accepting, [], [],
                                                         [])
    {
      n, buffer, count, filled, used := nbuffers, seq(nbuffers, _ => 0), 0, 0, 0;
      mutex, workers, producer := Nobody, Threads(nthreads), Accepting;
      queue, accepted, taken := [], [], [];
    }

    predicate Enabled(step: Step)
      reads this
    {
      MayStep(workers, producer, mutex, step)
    }

    method WorkerLock(i: nat)
      requires Valid() && Enabled(Lock(i))
      modifies this`mutex, this`workers
      ensures Valid() && Now() == WorkerStep(n, old(Now()), Lock(i))
    {
      Moved(workers, i, Checking);
      mutex, workers := ByWorker(i), workers[i := Checking];
    }

    method WorkerCheck(i: nat)
      requires Valid() && Enabled(Check(i))
      modifies this`mutex, this`workers
      ensures Valid() && Now() == WorkerStep(n, old(Now()), Check(i))
      ensures count != 0 ==> old(queue) != [] && workers == old(workers)[i := Advancing(old(queue)[0])]
    {
      Moved(workers, i, Waiting);
      if count == 0 {
        mutex, workers := Nobody, workers[i := Waiting];
      } else {
        Moved(workers, i, Advancing(buffer[used]));
        assert queue[0] == buffer[Slot(used, 0, n)];
        workers := workers[i := Advancing(buffer[used])];
      }
    }

    method WorkerAdvance(i: nat)
      requires Valid() && Enabled(Advance(i))
      modifies this`used, this`workers
      ensures Valid() && Now() == WorkerStep(n, old(Now()), Advance(i))
    {
      Advanced(n, buffer, count, filled, used, mutex, workers, producer, queue, i);
      used, workers := (used + 1) % n, workers[i := Counting(workers[i].fd)];
    }

    method WorkerCount(i: nat)
      requires Valid() && Enabled(Count(i))
      modifies this`count, this`workers, this`queue, this`taken
      ensures Valid() && Now() == WorkerStep(n, old(Now()), Count(i))
      ensures old(queue) != [] && old(workers)[i].fd == old(queue)[0] && taken == old(taken) + [old(queue)[0]]
    {
      ghost var t := TakenState(n, Now(), i);
      taken, queue := taken + [workers[i].fd], queue[1..];
      count, workers := count - 1, workers[i := Signalling(workers[i].fd)];
      assert Now() == t;
    }

    /** pthread_cond_signal(&empty): only the producer can be waiting. */
    method WorkerSignal(i: nat)
      requires Valid() && Enabled(Signal(i))
      modifies this`producer, this`workers
      ensures Valid() && Now() == WorkerStep(n, old(Now()), Signal(i))
    {
      Moved(workers, i, Unlocking(workers[i].fd));
      producer := if producer.PWaiting? then PAwake(producer.fd) else producer;
      workers := workers[i := Unlocking(workers[i].fd)];
    }

    method WorkerUnlock(i: nat)
      requires Valid() && Enabled(Unlock(i))
      modifies this`mutex, this`workers
      ensures Valid() && Now() == WorkerStep(n, old(Now()), Unlock(i))
    {
      Moved(workers, i, Handling(workers[i].fd));
      mutex, workers := Nobody, workers[i := Handling(workers[i].fd)];
    }

    method WorkerHandle(i: nat)
      requires Valid() && Enabled(Handle(i))
      modifies this`workers
      ensures Valid() && Now() == WorkerStep(n, old(Now()), Handle(i))
    {
      OutsideMoved(n, buffer, count, filled, used, mutex, workers, producer, queue, i, Locking);
      workers := workers[i := Locking];
    }

    method WorkerSpurious(i: nat)
      requires Valid() && Enabled(Spurious(i))
      modifies this`workers
      ensures Valid() && Now() == WorkerStep(n, old(Now()), Spurious(i))
    {
      OutsideMoved(n, buffer, count, filled, used, mutex, workers, producer, queue, i, Awake);
      workers := workers[i := Awake];
    }

    method ProducerAccept(fd: int)
      requires Valid() && Enabled(PAccept(fd))
      modifies this`producer, this`accepted
      ensures Valid() && Now() == ProducerStep(n, old(Now()), PAccept(fd))
    {
      producer, accepted := PLocking(fd), accepted + [fd];
    }

    method ProducerLock()
      requires Valid() && Enabled(PLock)
      modifies this`mutex, this`producer
      ensures Valid() && Now() == ProducerStep(n, old(Now()), PLock)
    {
      mutex, producer := ByProducer, PChecking(producer.fd);
    }

    method ProducerCheck()
      requires Valid() && Enabled(PCheck)
      modifies this`mutex, this`producer
      ensures Valid() && Now() == ProducerStep(n, old(Now()), PCheck)
    {
      if count == n {
        mutex, producer := Nobody, PWaiting(producer.fd);
      } else {
        producer := PStoring(producer.fd);
      }
    }

    method ProducerStore()
      requires Valid() && Enabled(PStore)
      modifies this`buffer, this`producer
      ensures Valid() && Now() == ProducerStep(n, old(Now()), PStore)
      ensures queue == old(queue) && filled < |buffer| && buffer[filled] == old(producer).fd
    {
      StoreApart(n, count, used);
      buffer, producer := buffer[filled := producer.fd], PAdvancing(producer.fd);
    }

    method ProducerAdvance()
      requires Valid() && Enabled(PAdvance)
      modifies this`filled, this`producer
      ensures Valid() && Now() == ProducerStep(n, old(Now()), PAdvance)
    {
      NextPlace(filled, n);
      filled, producer := (filled + 1) % n, PCounting(producer.fd);
    }

    method ProducerCount()
      requires Valid() && Enabled(PCount)
      modifies this`count, this`producer, this`queue
      ensures Valid() && Now() == ProducerStep(n, old(Now()), PCount)
    {
      queue := queue + [producer.fd];
      count, producer := count + 1, PSignalling;
    }

    /** pthread_cond_signal(&fill) wakes the workers in `who`, one at least if any waits. */
    method ProducerSignal(who: set<nat>)
      requires Valid() && Enabled(PSignal(who))
      modifies this`producer, this`workers
      ensures Valid() && Now() == ProducerStep(n, old(Now()), PSignal(who))
    {
      var workers1 := WokenOnes(workers, who);
      MoreAwake(workers, workers1, who);
      NoneWaits(workers, workers1, who);
      producer, workers := PUnlocking, workers1;
    }

    method ProducerUnlock()
      requires Valid() && Enabled(PUnlock)
      modifies this`mutex, this`producer
      ensures Valid() && Now() == ProducerStep(n, old(Now()), PUnlock)
    {
      mutex, producer := Nobody, Accepting;
    }

    method ProducerSpurious()
      requires Valid() && Enabled(PSpurious)
      modifies this`producer
      ensures Valid() && Now() == ProducerStep(n, old(Now()), PSpurious)
    {
      producer := PAwake(producer.fd);
    }

    method Perform(s: Step)
      requires Valid()
      modifies this
      ensures Valid() && Now() == After(n, old(Now()), s)
    {
      if Enabled(s) {
        if ByProducerStep(s) { PerformProducer(s); } else { PerformWorker(s); }
      }
    }

    method PerformWorker(s: Step)
      requires Valid() && Enabled(s) && !ByProducerStep(s)
      modifies this
      ensures Valid() && Now() == WorkerStep(n, old(Now()), s)
    {
      match s
      case Lock(i) => WorkerLock(i);
      case Check(i) => WorkerCheck(i);
      case Advance(i) => WorkerAdvance(i);
      case Count(i) => WorkerCount(i);
      case Signal(i) => WorkerSignal(i);
      case Unlock(i) => WorkerUnlock(i);
      case Handle(i) => WorkerHandle(i);
      case Spurious(i) => WorkerSpurious(i);
    }

    method PerformProducer(s: Step)
      requires Valid() && Enabled(s) && ByProducerStep(s)
      modifies this
      ensures Valid() && Now() == ProducerStep(n, old(Now()), s)
    {
      match s
      case PAccept(fd) => ProducerAccept(fd);
      case PLock => ProducerLock();
      case PCheck => ProducerCheck();
      case PStore => ProducerStore();
      case PAdvance => ProducerAdvance();
      case PCount => ProducerCount();
      case PSignal(who) => ProducerSignal(who);
      case PUnlock => ProducerUnlock();
      case PSpurious => ProducerSpurious();
    }
  }

  /** The run of any number of workers through any steps, in which every state is sound. */
  method Run(nthreads: nat, nbuffers: nat, steps: seq<Step>) returns (pool: Pool, ghost trace: Trace<State, Step>)
    requires nthreads > 0 && nbuffers > 0
    ensures fresh(pool) && IsRun(nthreads, nbuffers, trace) && StepsOf(trace) == steps && trace.s == pool.Now()
  {
    pool := new Pool(nthreads, nbuffers);
    trace := Begin(pool.Now());
    for k := 0 to |steps|
      invariant fresh(pool) && pool.Valid() && pool.n == nbuffers
      invariant IsRun(nthreads, nbuffers, trace) && StepsOf(trace) == steps[..k] && trace.s == pool.Now()
    {
      pool.Perform(steps[k]);
      RunOn(nthreads, nbuffers, trace, steps[k], pool.Now());
      trace := Then(trace, steps[k], pool.Now());
      NextStep(steps, k);
    }
    AllSteps(steps);
  }

  /** In a sound state the descriptors taken are the first of those accepted, in order, with at
      most a buffer and one in between; and when the mutex is free no wakeup is lost and not
      everybody waits. */
  lemma StateSafe(n: nat, s: State)
    requires StateOk(n, s)
    ensures s.taken <= s.accepted && |s.accepted| <= |s.taken| + n + 1
    ensures s.mutex == Nobody ==>
              && ((exists i: nat :: i < |s.workers| && s.workers[i].Waiting?) ==> s.count <= |AwakeOnes(s.workers)|)
              && (s.producer.PWaiting? ==> s.count == n)
              && !(s.producer.PWaiting? && forall i: nat | i < |s.workers| :: s.workers[i].Waiting?)
  {
    if s.mutex == Nobody {
      NobodyIsLost(n, s.buffer, s.count, s.filled, s.used, s.workers, s.producer, s.queue);
    }
  }
}
