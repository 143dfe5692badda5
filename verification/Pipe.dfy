/** Pipes, p2/xv6/kernel/pipe.c, with sleep and wakeup of proc.c, for any number of readers and
    writers.

    A step is what a process does between two points where it needs a lock: the pipe's own lock
    or ptable.lock, which sleep takes before it lets go of the other and which wakeup needs.
    Nobody is killed, and an end is closed only when no call on it is in progress. */
module Pipe {

  import opened Counters
  import opened Traces

  const PIPESIZE := 512

  datatype Writer =
    | WIdle(result: int)
    | WLocking(buf: seq<int>, i: nat) // wants the pipe's lock, i bytes are stored
    | WFull(buf: seq<int>, i: nat) // holds it, about to wake readers, then to sleep
    | WDropping(buf: seq<int>, i: nat) // in sleep, about to take ptable.lock
    | WFalling(buf: seq<int>, i: nat) // holds ptable.lock, has released the pipe's
    | WAsleep(buf: seq<int>, i: nat)
    | WDone(n: nat) // holds the lock, about to wake readers
    | WReleasing(n: nat)

  datatype Reader =
    | RIdle(result: seq<int>)
    | RLocking(n: nat)
    | RDropping(n: nat)
    | RFalling(n: nat)
    | RAsleep(n: nat)
    | RDone(got: seq<int>)
    | RReleasing(got: seq<int>)

  datatype Holder = Nobody | TheWriter(i: nat) | TheReader(i: nat)

  predicate WHolds(w: Writer) {
    w.WFull? || w.WDropping? || w.WDone? || w.WReleasing?
  }

  predicate RHolds(r: Reader) {
    r.RDropping? || r.RDone? || r.RReleasing?
  }

  predicate WWaits(w: Writer) {
    w.WFalling? || w.WAsleep?
  }

  predicate RWaits(r: Reader) {
    r.RFalling? || r.RAsleep?
  }

  /** The locks are held by who is at a point where it holds them. */
  ghost predicate LocksOk(lock: Holder, tlock: Holder, writers: seq<Writer>, readers: seq<Reader>) {
    && (lock.TheWriter? ==> lock.i < |writers|) && (lock.TheReader? ==> lock.i < |readers|)
    && (tlock.TheWriter? ==> tlock.i < |writers|) && (tlock.TheReader? ==> tlock.i < |readers|)
    && (forall i: nat {:trigger writers[i]} | i < |writers| ::
          && (WHolds(writers[i]) <==> lock == TheWriter(i)) && (writers[i].WFalling? <==> tlock == TheWriter(i)))
    && (forall i: nat {:trigger readers[i]} | i < |readers| ::
          && (RHolds(readers[i]) <==> lock == TheReader(i)) && (readers[i].RFalling? <==> tlock == TheReader(i)))
  }

  /** nread and nwrite are the totals modulo 2^32, and data holds what is in between. */
  ghost predicate DataOk(data: seq<int>, nread: nat, nwrite: nat, stored: seq<int>, taken: nat) {
    && |data| == PIPESIZE && taken <= |stored| <= taken + PIPESIZE
    && nread == taken % UINT && nwrite == |stored| % UINT
    && forall k: nat {:trigger stored[k]} | taken <= k < |stored| :: data[k % PIPESIZE] == stored[k]
  }

  /** A reader on its way to sleep or asleep has nothing to read, unless a writer is about to
      wake it; a writer has no room, unless a reader is. */
  ghost predicate NobodyLost(lock: Holder, writers: seq<Writer>, readers: seq<Reader>,
                             stored: int, taken: int, readopen: bool, writeopen: bool)
  {
    && ((exists i: nat :: i < |readers| && RWaits(readers[i])) ==>
          || (stored == taken && writeopen)
          || (lock.TheWriter? && lock.i < |writers| && (writers[lock.i].WFull? || writers[lock.i].WDone?)))
    && ((exists i: nat :: i < |writers| && WWaits(writers[i])) ==>
          || (stored == taken + PIPESIZE && readopen)
          || (lock.TheReader? && lock.i < |readers| && readers[lock.i].RDone?))
    && (lock.TheReader? && lock.i < |readers| && readers[lock.i].RDropping? ==> stored == taken && writeopen)
    && (lock.TheWriter? && lock.i < |writers| && (writers[lock.i].WFull? || writers[lock.i].WDropping?) ==>
          stored == taken + PIPESIZE && readopen)
  }

  /** Nobody uses a closed end. */
  ghost predicate EndsOk(writers: seq<Writer>, readers: seq<Reader>, readopen: bool, writeopen: bool) {
    && (!readopen ==> forall i: nat {:trigger readers[i]} | i < |readers| :: readers[i].RIdle?)
    && (!writeopen ==> forall i: nat {:trigger writers[i]} | i < |writers| :: writers[i].WIdle?)
  }

  /** Bytes already stored by a call are not stored again. */
  ghost predicate ProgressOk(writers: seq<Writer>) {
    forall i: nat {:trigger writers[i]} | i < |writers| ::
      writers[i].WLocking? || writers[i].WFull? || writers[i].WDropping? || writers[i].WFalling?
          || writers[i].WAsleep? ==>
        writers[i].i <= |writers[i].buf|
  }

  // ----- 32-bit counters

  lemma FullTest(taken: nat, stored: nat)
    requires taken <= stored <= taken + PIPESIZE
    ensures stored % UINT == (taken % UINT + PIPESIZE) % UINT <==> stored == taken + PIPESIZE
    ensures stored % UINT == taken % UINT <==> stored == taken
  {
  }

  lemma SamePlace(x: nat)
    ensures x % UINT % PIPESIZE == x % PIPESIZE
  {
    var places := 0x80_0000 * (x / UINT) + x % UINT / PIPESIZE;
    assert x == PIPESIZE * places + x % UINT % PIPESIZE;
  }

  lemma OtherPlace(k: nat, m: nat)
    requires k < m < k + PIPESIZE
    ensures k % PIPESIZE != m % PIPESIZE
  {
  }

  // ----- wakeup

  function ReadersWoken(readers: seq<Reader>): (r: seq<Reader>)
    ensures |r| == |readers|
    ensures forall i: nat {:trigger r[i]} | i < |r| ::
            r[i] == if readers[i].RAsleep? then RLocking(readers[i].n) else readers[i]
  {
    seq(|readers|, (i: nat) requires i < |readers| =>
        if readers[i].RAsleep? then RLocking(readers[i].n) else readers[i])
  }

  function WritersWoken(writers: seq<Writer>): (r: seq<Writer>)
    ensures |r| == |writers|
    ensures forall i: nat {:trigger r[i]} | i < |r| ::
              r[i] == if writers[i].WAsleep? then WLocking(writers[i].buf, writers[i].i) else writers[i]
  {
    seq(|writers|, (i: nat) requires i < |writers| =>
        if writers[i].WAsleep? then WLocking(writers[i].buf, writers[i].i) else writers[i])
  }

  datatype Step =
    | CallWrite(i: nat, buf: seq<int>)
    | Write(i: nat)
    | WriterWakes(i: nat)
    | WriterDrops(i: nat)
    | WriterFalls(i: nat)
    | WriterReleases(i: nat)
    | CallRead(i: nat, n: nat)
    | Read(i: nat)
    | ReaderWakes(i: nat)
    | ReaderDrops(i: nat)
    | ReaderFalls(i: nat)
    | ReaderReleases(i: nat)
    | CloseWriting
    | CloseReading

  /** The pipe, the two locks and the processes; all bytes ever stored, in order, and all bytes
      ever handed to a reader, in order. */
  datatype State = State(data: seq<int>, nread: nat, nwrite: nat, readopen: bool, writeopen: bool, lock: Holder,
                         tlock: Holder,
                         writers: seq<Writer>, readers: seq<Reader>, stored: seq<int>, read: seq<int>)

  ghost predicate StateOk(s: State) {
    && s.read <= s.stored && DataOk(s.data, s.nread, s.nwrite, s.stored, |s.read|)
    && LocksOk(s.lock, s.tlock, s.writers, s.readers) && ProgressOk(s.writers)
       && EndsOk(s.writers, s.readers, s.readopen, s.writeopen)
    && NobodyLost(s.lock, s.writers, s.readers, |s.stored|, |s.read|, s.readopen, s.writeopen)
  }

  ghost predicate MayStep(s: State, step: Step) {
    Possible(s.writers, s.readers, s.lock, s.tlock, s.readopen, s.writeopen, step)
  }

  predicate Possible(writers: seq<Writer>, readers: seq<Reader>, lock: Holder, tlock: Holder, readopen: bool,
                     writeopen: bool, step: Step) {
    match step
    case CallWrite(i, _) => i < |writers| && writers[i].WIdle? && writeopen
    case Write(i) => i < |writers| && writers[i].WLocking? && lock == Nobody
    case WriterWakes(i) => i < |writers| && (writers[i].WFull? || writers[i].WDone?) && tlock == Nobody
    case WriterDrops(i) => i < |writers| && writers[i].WDropping? && tlock == Nobody
    case WriterFalls(i) => i < |writers| && writers[i].WFalling?
    case WriterReleases(i) => i < |writers| && writers[i].WReleasing?
    case CallRead(i, _) => i < |readers| && readers[i].RIdle? && readopen
    case Read(i) => i < |readers| && readers[i].RLocking? && lock == Nobody
    case ReaderWakes(i) => i < |readers| && readers[i].RDone? && tlock == Nobody
    case ReaderDrops(i) => i < |readers| && readers[i].RDropping? && tlock == Nobody
    case ReaderFalls(i) => i < |readers| && readers[i].RFalling?
    case ReaderReleases(i) => i < |readers| && readers[i].RReleasing?
    case CloseWriting => lock == tlock == Nobody && forall i: nat | i < |writers| :: writers[i].WIdle?
    case CloseReading => lock == tlock == Nobody && forall i: nat | i < |readers| :: readers[i].RIdle?
  }

  /** The bytes of a writer's buffer go in, in order, until all are or the pipe is full; then it
      is done, or fails, or goes to sleep. */
  ghost predicate WriterRan(s: State, i: nat, t: State)
    requires StateOk(s) && i < |s.writers| && s.writers[i].WLocking?
  {
    var w := s.writers[i];
    var k := w.i + |t.stored| - |s.stored|;
    && t == s.(data := t.data, nwrite := t.nwrite, stored := t.stored, lock := t.lock, writers := t.writers)
    && w.i <= k <= |w.buf| && t.stored == s.stored + w.buf[w.i..k]
    && (k < |w.buf| ==> |t.stored| == |t.read| + PIPESIZE)
    && t.writers == s.writers[i := if k == |w.buf| then WDone(|w.buf|) else if s.readopen then WFull(w.buf, k)
                              else WIdle(-1)]
    && t.lock == if k < |w.buf| && !s.readopen then Nobody else TheWriter(i)
  }

  /** A reader goes to sleep when the pipe is empty and may still be written; otherwise it gets the
      next bytes, as many as it wants or as there are. */
  ghost predicate ReaderRan(s: State, i: nat, t: State)
    requires StateOk(s) && i < |s.readers| && s.readers[i].RLocking?
  {
    var n := s.readers[i].n;
    if s.stored == s.read && s.writeopen then t == s.(lock := TheReader(i), readers := s.readers[i := RDropping(n)])
    else
      && t == s.(nread := t.nread, read := t.read, lock := TheReader(i), readers := t.readers)
      && s.read <= t.read && t.readers == s.readers[i := RDone(t.read[|s.read|..])]
      && |t.read| - |s.read| <= n && (|t.read| - |s.read| == n || t.read == t.stored)
  }

  ghost predicate Next(s: State, step: Step, t: State)
    requires StateOk(s) && MayStep(s, step)
  {
    var writers, readers := s.writers, s.readers;
    match step
    case CallWrite(i, buf) => t == s.(writers := writers[i := WLocking(buf, 0)])
    case Write(i) => WriterRan(s, i, t)
    case WriterWakes(i) =>
      t == s.(readers := ReadersWoken(readers),
              writers := writers[i := if writers[i].WFull? then WDropping(writers[i].buf, writers[i].i)
                                 else WReleasing(writers[i].n)])
    case WriterDrops(i) => t == s.(lock := Nobody, tlock := TheWriter(i),
                                   writers := writers[i := WFalling(writers[i].buf, writers[i].i)])
    case WriterFalls(i) => t == s.(tlock := Nobody, writers := writers[i := WAsleep(writers[i].buf, writers[i].i)])
    case WriterReleases(i) => t == s.(lock := Nobody, writers := writers[i := WIdle(writers[i].n)])
    case CallRead(i, n) => t == s.(readers := readers[i := RLocking(n)])
    case Read(i) => ReaderRan(s, i, t)
    case ReaderWakes(i) => t == s.(writers := WritersWoken(writers),
                                   readers := readers[i := RReleasing(readers[i].got)])
    case ReaderDrops(i) => t == s.(lock := Nobody, tlock := TheReader(i),
                                   readers := readers[i := RFalling(readers[i].n)])
    case ReaderFalls(i) => t == s.(tlock := Nobody, readers := readers[i := RAsleep(readers[i].n)])
    case ReaderReleases(i) => t == s.(lock := Nobody, readers := readers[i := RIdle(readers[i].got)])
    case CloseWriting => t == s.(writeopen := false, readers := ReadersWoken(readers))
    case CloseReading => t == s.(readopen := false, writers := WritersWoken(writers))
  }

  function Fresh(nwriters: nat, nreaders: nat): State {
    State(seq(PIPESIZE, _ => 0), 0, 0, true, true, Nobody, Nobody, seq(nwriters, _ => WIdle(0)),
          seq(nreaders, _ => RIdle([])), [], [])
  }

  /** Each state follows from the one before by its step, or is the same when the step is not
      possible; and all are sound. */
  ghost predicate IsRun(nwriters: nat, nreaders: nat, t: Trace<State, Step>) {
    && StateOk(t.s)
    && match t
       case Begin(s) => s == Fresh(nwriters, nreaders)
       case Then(past, step, s) =>
         IsRun(nwriters, nreaders, past) && StateOk(past.s) && if MayStep(past.s, step) then Next(past.s, step, s)
             else s == past.s
  }

  lemma RunOn(nwriters: nat, nreaders: nat, t: Trace<State, Step>, step: Step, s: State)
    requires IsRun(nwriters, nreaders, t) && StateOk(s) && StateOk(t.s) && if MayStep(t.s, step) then Next(t.s, step, s)
             else s == t.s
    ensures IsRun(nwriters, nreaders, Then(t, step, s))
  {
  }

  class Channel {
    var data: seq<int>
    var nread: nat
    var nwrite: nat
    var readopen: bool
    var writeopen: bool
    var lock: Holder
    var tlock: Holder // ptable.lock
    var writers: seq<Writer>
    var readers: seq<Reader>
    ghost var stored: seq<int> // all bytes ever stored, in order
    ghost var read: seq<int> // all bytes ever handed to a reader, in order

    ghost predicate Counters()
      reads this`data, this`nread, this`nwrite, this`stored, this`read
    {
      read <= stored && DataOk(data, nread, nwrite, stored, |read|)
    }

    ghost function Now(): State
      reads this
    {
      State(data, nread, nwrite, readopen, writeopen, lock, tlock, writers, readers, stored, read)
    }

    ghost predicate Valid()
      reads this
    {
      StateOk(Now())
    }

    /** pipealloc */
    constructor (nwriters: nat, nreaders: nat)
      ensures Valid() && Now() == Fresh(nwriters, nreaders)
    {
      data, nread, nwrite, readopen, writeopen := seq(PIPESIZE, _ => 0), 0, 0, true, true;
      lock, tlock, stored, read := Nobody, Nobody, [], [];
      writers, readers := seq(nwriters, _ => WIdle(0)), seq(nreaders, _ => RIdle([]));
    }

    /** p->data[p->nwrite++ % PIPESIZE] = b */
    method StoreByte(b: int)
      requires Counters() && |stored| < |read| + PIPESIZE
      modifies this`data, this`nwrite, this`stored
      ensures Counters() && stored == old(stored) + [b]
    {
      CountOn(|stored|);
      SamePlace(|stored|);
      forall k: nat | |read| <= k < |stored| ensures k % PIPESIZE != |stored| % PIPESIZE { OtherPlace(k, |stored|); }
      data := data[nwrite % PIPESIZE := b];
      nwrite := (nwrite + 1) % UINT;
      stored := stored + [b];
    }

    /** p->data[p->nread++ % PIPESIZE] */
    method TakeByte() returns (b: int)
      requires Counters() && |read| < |stored|
      modifies this`nread, this`read
      ensures Counters() && read == old(read) + [b]
    {
      CountOn(|read|);
      SamePlace(|read|);
      b := data[nread % PIPESIZE];
      nread := (nread + 1) % UINT;
      read := read + [b];
    }

    /** The loop of pipewrite, up to where it has to sleep, fails or is done; k bytes are stored by then. */
    method StoreLoop(buf: seq<int>, k0: nat) returns (k: nat, full: bool)
      requires Counters() && k0 <= |buf|
      modifies this`data, this`nwrite, this`stored
      ensures Counters() && k0 <= k <= |buf| && stored == old(stored) + buf[k0..k]
      ensures full <==> k < |buf|
      ensures full ==> |stored| == |read| + PIPESIZE
    {
      k, full := k0, false;
      while k < |buf|
        invariant Counters() && k0 <= k <= |buf| && stored == old(stored) + buf[k0..k]
      {
        FullTest(|read|, |stored|);
        if nwrite == (nread + PIPESIZE) % UINT { return k, true; }
        StoreByte(buf[k]);
        k := k + 1;
      }
    }

    /** What pipewrite does with the lock, until it sleeps, fails or is done. */
    method WriterRuns(i: nat)
      requires Valid() && MayStep(Now(), Write(i))
      modifies this`data, this`nwrite, this`stored, this`lock, this`writers
      ensures Valid() && Next(old(Now()), Write(i), Now())
    {
      var w := writers[i];
      var full: bool;
      var m: nat;
      m, full := StoreLoop(w.buf, w.i);
      if full && !readopen {
        writers := writers[i := WIdle(-1)];
      } else if full {
        lock, writers := TheWriter(i), writers[i := WFull(w.buf, m)];
      } else {
        lock, writers := TheWriter(i), writers[i := WDone(|w.buf|)];
      }
    }

    /** wakeup(&p->nread) */
    method WriterWake(i: nat)
      requires Valid() && MayStep(Now(), WriterWakes(i))
      modifies this`writers, this`readers
      ensures Valid() && Next(old(Now()), WriterWakes(i), Now())
    {
      var w := writers[i];
      readers := ReadersWoken(readers);
      writers := writers[i := if w.WFull? then WDropping(w.buf, w.i) else WReleasing(w.n)];
    }

    /** sleep: take ptable.lock, let the pipe's lock go. */
    method WriterDrop(i: nat)
      requires Valid() && MayStep(Now(), WriterDrops(i))
      modifies this`writers, this`lock, this`tlock
      ensures Valid() && Next(old(Now()), WriterDrops(i), Now())
    {
      lock, tlock, writers := Nobody, TheWriter(i), writers[i := WFalling(writers[i].buf, writers[i].i)];
    }

    /** sleep: state = SLEEPING, and into the scheduler, which releases ptable.lock. */
    method WriterFall(i: nat)
      requires Valid() && MayStep(Now(), WriterFalls(i))
      modifies this`writers, this`tlock
      ensures Valid() && Next(old(Now()), WriterFalls(i), Now())
    {
      tlock, writers := Nobody, writers[i := WAsleep(writers[i].buf, writers[i].i)];
    }

    method WriterRelease(i: nat)
      requires Valid() && MayStep(Now(), WriterReleases(i))
      modifies this`writers, this`lock
      ensures Valid() && Next(old(Now()), WriterReleases(i), Now())
    {
      lock, writers := Nobody, writers[i := WIdle(writers[i].n)];
    }

    method StartWrite(i: nat, buf: seq<int>)
      requires Valid() && MayStep(Now(), CallWrite(i, buf))
      modifies this`writers
      ensures Valid() && Next(old(Now()), CallWrite(i, buf), Now())
    {
      writers := writers[i := WLocking(buf, 0)];
    }

    method StartRead(i: nat, n: nat)
      requires Valid() && MayStep(Now(), CallRead(i, n))
      modifies this`readers
      ensures Valid() && Next(old(Now()), CallRead(i, n), Now())
    {
      readers := readers[i := RLocking(n)];
    }

    /** The copying loop of piperead. */
    method TakeLoop(n: nat) returns (got: seq<int>)
      requires Counters()
      modifies this`nread, this`read
      ensures Counters() && |got| <= n && read == old(read) + got
      ensures |got| == n || read == stored
    {
      got := [];
      while |got| < n
        invariant Counters() && |got| <= n && read == old(read) + got
        decreases n - |got|
      {
        FullTest(|read|, |stored|);
        if nread == nwrite { return; }
        var b := TakeByte();
        got := got + [b];
      }
    }

    /** What piperead does with the lock, until it sleeps or has its bytes. */
    method ReaderRuns(i: nat)
      requires Valid() && MayStep(Now(), Read(i))
      modifies this`nread, this`read, this`lock, this`readers
      ensures Valid() && Next(old(Now()), Read(i), Now())
    {
      FullTest(|read|, |stored|);
      var r := readers[i];
      if nread == nwrite && writeopen {
        lock, readers := TheReader(i), readers[i := RDropping(r.n)];
      } else {
        var got := TakeLoop(r.n);
        lock, readers := TheReader(i), readers[i := RDone(got)];
      }
    }

    /** wakeup(&p->nwrite) */
    method ReaderWake(i: nat)
      requires Valid() && MayStep(Now(), ReaderWakes(i))
      modifies this`writers, this`readers
      ensures Valid() && Next(old(Now()), ReaderWakes(i), Now())
    {
      writers, readers := WritersWoken(writers), readers[i := RReleasing(readers[i].got)];
    }

    method ReaderDrop(i: nat)
      requires Valid() && MayStep(Now(), ReaderDrops(i))
      modifies this`readers, this`lock, this`tlock
      ensures Valid() && Next(old(Now()), ReaderDrops(i), Now())
    {
      lock, tlock, readers := Nobody, TheReader(i), readers[i := RFalling(readers[i].n)];
    }

    method ReaderFall(i: nat)
      requires Valid() && MayStep(Now(), ReaderFalls(i))
      modifies this`readers, this`tlock
      ensures Valid() && Next(old(Now()), ReaderFalls(i), Now())
    {
      tlock, readers := Nobody, readers[i := RAsleep(readers[i].n)];
    }

    method ReaderRelease(i: nat)
      requires Valid() && MayStep(Now(), ReaderReleases(i))
      modifies this`readers, this`lock
      ensures Valid() && Next(old(Now()), ReaderReleases(i), Now())
    {
      lock, readers := Nobody, readers[i := RIdle(readers[i].got)];
    }

    /** pipeclose(p, 1) */
    method CloseWriter()
      requires Valid() && MayStep(Now(), CloseWriting)
      modifies this`writeopen, this`readers
      ensures Valid() && Next(old(Now()), CloseWriting, Now())
    {
      writeopen, readers := false, ReadersWoken(readers);
    }

    /** pipeclose(p, 0) */
    method CloseReader()
      requires Valid() && MayStep(Now(), CloseReading)
      modifies this`readopen, this`writers
      ensures Valid() && Next(old(Now()), CloseReading, Now())
    {
      readopen, writers := false, WritersWoken(writers);
    }

    method Perform(s: Step)
      requires Valid()
      modifies this
      ensures Valid()
      ensures if MayStep(old(Now()), s) then Next(old(Now()), s, Now()) else Now() == old(Now())
    {
      if Possible(writers, readers, lock, tlock, readopen, writeopen, s) {
        if s.CallWrite? || s.Write? || s.WriterWakes? || s.WriterDrops? || s.WriterFalls? || s.WriterReleases?
            || s.CloseWriting? {
          PerformWriter(s);
        } else {
          PerformReader(s);
        }
      }
    }

    method PerformWriter(s: Step)
      requires Valid() && MayStep(Now(), s)
      requires s.CallWrite? || s.Write? || s.WriterWakes? || s.WriterDrops? || s.WriterFalls? || s.WriterReleases?
               || s.CloseWriting?
      modifies this
      ensures Valid() && Next(old(Now()), s, Now())
    {
      match s
      case CallWrite(i, buf) => StartWrite(i, buf);
      case Write(i) => WriterRuns(i);
      case WriterWakes(i) => WriterWake(i);
      case WriterDrops(i) => WriterDrop(i);
      case WriterFalls(i) => WriterFall(i);
      case WriterReleases(i) => WriterRelease(i);
      case CloseWriting => CloseWriter();
    }

    method PerformReader(s: Step)
      requires Valid() && MayStep(Now(), s)
      requires s.CallRead? || s.Read? || s.ReaderWakes? || s.ReaderDrops? || s.ReaderFalls? || s.ReaderReleases?
               || s.CloseReading?
      modifies this
      ensures Valid() && Next(old(Now()), s, Now())
    {
      match s
      case CallRead(i, n) => StartRead(i, n);
      case Read(i) => ReaderRuns(i);
      case ReaderWakes(i) => ReaderWake(i);
      case ReaderDrops(i) => ReaderDrop(i);
      case ReaderFalls(i) => ReaderFall(i);
      case ReaderReleases(i) => ReaderRelease(i);
      case CloseReading => CloseReader();
    }
  }

  /** The run of any readers and writers through any steps, in which every state is sound. */
  method Run(nwriters: nat, nreaders: nat, steps: seq<Step>) returns (p: Channel, ghost trace: Trace<State, Step>)
    ensures fresh(p) && IsRun(nwriters, nreaders, trace) && StepsOf(trace) == steps && trace.s == p.Now()
  {
    p := new Channel(nwriters, nreaders);
    trace := Begin(p.Now());
    for k := 0 to |steps|
      invariant fresh(p) && p.Valid()
      invariant IsRun(nwriters, nreaders, trace) && StepsOf(trace) == steps[..k] && trace.s == p.Now()
    {
      p.Perform(steps[k]);
      RunOn(nwriters, nreaders, trace, steps[k], p.Now());
      trace := Then(trace, steps[k], p.Now());
      NextStep(steps, k);
    }
    AllSteps(steps);
  }

  /** In a sound state the bytes read are the first of those stored, at most PIPESIZE are in
      between and the counters agree with that through wrap-around; with the lock free no reader
      sleeps with data there or the end closed, nor a writer with room. */
  lemma StateSafe(s: State)
    requires StateOk(s)
    ensures s.read <= s.stored && (s.nwrite - s.nread) % UINT == |s.stored| - |s.read| <= PIPESIZE
    ensures s.lock == Nobody && (s.nread != s.nwrite || !s.writeopen)
            ==> forall i: nat | i < |s.readers| :: !s.readers[i].RAsleep?
    ensures s.lock == Nobody && s.nwrite != (s.nread + PIPESIZE) % UINT
            ==> forall i: nat | i < |s.writers| :: !s.writers[i].WAsleep?
  {
    FullTest(|s.read|, |s.stored|);
    Difference(|s.read|, |s.stored|);
  }

  lemma Difference(taken: nat, stored: nat)
    requires taken <= stored <= taken + PIPESIZE
    ensures (stored % UINT - taken % UINT) % UINT == stored - taken
  {
  }
}
