/** What the calls of pipewrite and piperead return in a run, read off the steps and their effect
    on the bytes stored and read. */
module PipeLaws {

  import opened Pipe
  import opened Traces

  type Run = Trace<State, Step>

  /** The bytes a step has added. */
  function Added(before: seq<int>, after: seq<int>): seq<int> {
    if before <= after then after[|before|..] else []
  }

  // ----- Every byte read is handed to a caller, in order

  /** What a step returns from piperead. */
  function ReturnedBy(s: State, step: Step, t: State): seq<int> {
    if step.ReaderReleases? && step.i < |s.readers| && s.readers[step.i].RReleasing? && step.i < |t.readers|
       && t.readers[step.i].RIdle?
    then t.readers[step.i].result else []
  }

  /** What all finished calls of piperead have returned. */
  function HandedOut(t: Run): seq<int> {
    match t
    case Begin(_) => []
    case Then(past, step, s) => HandedOut(past) + ReturnedBy(past.s, step, s)
  }

  /** What the call that holds the lock has in hand. */
  function InHand(s: State): seq<int> {
    if s.lock.TheReader? && s.lock.i < |s.readers| then
      match s.readers[s.lock.i]
      case RDone(got) => got
      case RReleasing(got) => got
      case _ => []
    else []
  }

  lemma HandStep(s: State, step: Step, t: State)
    requires StateOk(s) && MayStep(s, step) && Next(s, step, t)
    ensures || (t.read == s.read && InHand(s) == ReturnedBy(s, step, t) + InHand(t))
            || (InHand(s) == ReturnedBy(s, step, t) == [] && t.read == s.read + InHand(t))
  {
  }

  lemma HandOn(before: seq<int>, s: State, step: Step, t: State)
    requires StateOk(s) && MayStep(s, step) && Next(s, step, t) && s.read == before + InHand(s)
    ensures t.read == before + ReturnedBy(s, step, t) + InHand(t)
  {
    HandStep(s, step, t);
    assert before + (ReturnedBy(s, step, t) + InHand(t)) == before + ReturnedBy(s, step, t) + InHand(t);
  }

  lemma NothingReturned(s: State, step: Step)
    requires !MayStep(s, step)
    ensures ReturnedBy(s, step, s) == []
  {
  }

  /** The bytes read are those that calls have returned, in the order of the returns, and then
      those that a call is about to return. */
  lemma {:induction false} ReadIsHandedOut(nwriters: nat, nreaders: nat, t: Run)
    requires IsRun(nwriters, nreaders, t)
    ensures t.s.read == HandedOut(t) + InHand(t.s)
  {
    match t
    case Begin(s) =>
    case Then(past, step, s) =>
      ReadIsHandedOut(nwriters, nreaders, past);
      if MayStep(past.s, step) { HandOn(HandedOut(past), past.s, step, s); } else { NothingReturned(past.s, step); }
  }

  // ----- Each call of piperead

  /** What reader i last asked for, what has been read for that call, and whether it has come to a
      pipe with bytes in it or with the writing end closed. */
  datatype Request = Request(n: nat, got: seq<int>, served: bool)

  ghost function Asked(t: Run, i: nat): Request {
    match t
    case Begin(_) => Request(0, [], true)
    case Then(past, step, s) =>
      if !MayStep(past.s, step) then Asked(past, i) else
      match step
      case CallRead(j, n) => if j == i then Request(n, [], false) else Asked(past, i)
      case Read(j) =>
        if j == i then
          var q := Asked(past, i);
          Request(q.n, q.got + Added(past.s.read, s.read), past.s.read != past.s.stored || !past.s.writeopen)
        else Asked(past, i)
      case _ => Asked(past, i)
  }

  /** Reader i is where its call has got to. */
  ghost predicate ReaderAt(r: Reader, q: Request) {
    match r
    case RIdle(result) => result == q.got && |result| <= q.n && q.served
    case RLocking(n) => n == q.n && q.got == [] && !q.served
    case RDropping(n) => n == q.n && q.got == [] && !q.served
    case RFalling(n) => n == q.n && q.got == [] && !q.served
    case RAsleep(n) => n == q.n && q.got == [] && !q.served
    case RDone(got) => got == q.got && |got| <= q.n && q.served
    case RReleasing(got) => got == q.got && |got| <= q.n && q.served
  }

  lemma ReaderStep(past: Run, step: Step, s: State, i: nat)
    requires StateOk(past.s) && MayStep(past.s, step) && Next(past.s, step, s)
    requires i < |past.s.readers| && ReaderAt(past.s.readers[i], Asked(past, i))
    ensures i < |s.readers| == |past.s.readers| && ReaderAt(s.readers[i], Asked(Then(past, step, s), i))
  {
  }

  /** A call of piperead returns the bytes that were read for it, no more than it asked for, once it
      has come to a pipe with bytes in it or with the writing end closed. */
  lemma {:induction false} ReadReturns(nwriters: nat, nreaders: nat, t: Run, i: nat)
    requires IsRun(nwriters, nreaders, t) && i < nreaders
    ensures |t.s.readers| == nreaders && ReaderAt(t.s.readers[i], Asked(t, i))
  {
    match t
    case Begin(s) =>
    case Then(past, step, s) =>
      ReadReturns(nwriters, nreaders, past, i);
      if MayStep(past.s, step) { ReaderStep(past, step, s, i); }
  }

  /** It gets fewer only when the pipe is then empty, and none of what it wants only when the
      writing end is closed, too. */
  lemma ShortRead(s: State, i: nat, t: State)
    requires StateOk(s) && MayStep(s, Read(i)) && Next(s, Read(i), t) && t.readers[i].RDone?
    ensures var got := Added(s.read, t.read);
            && (|got| < s.readers[i].n ==> t.read == t.stored)
            && (got == [] && s.readers[i].n > 0 ==> s.read == s.stored && !s.writeopen)
  {
  }

  // ----- Each call of pipewrite

  /** What writer i was last called with, what has been stored of it, and whether it has come to a
      full pipe with the reading end closed. */
  datatype Delivery = Delivery(buf: seq<int>, sent: seq<int>, refused: bool)

  ghost function Given(t: Run, i: nat): Delivery {
    match t
    case Begin(_) => Delivery([], [], false)
    case Then(past, step, s) =>
      if !MayStep(past.s, step) then Given(past, i) else
      match step
      case CallWrite(j, buf) => if j == i then Delivery(buf, [], false) else Given(past, i)
      case Write(j) =>
        if j == i then
          var g := Given(past, i);
          Delivery(g.buf, g.sent + Added(past.s.stored, s.stored),
                   !past.s.readopen && |s.stored| == |s.read| + PIPESIZE)
        else Given(past, i)
      case _ => Given(past, i)
  }

  /** The first k bytes have been stored. */
  predicate Sent(g: Delivery, buf: seq<int>, k: nat) {
    g.buf == buf && k <= |buf| && g.sent == buf[..k]
  }

  /** Writer i is where its call has got to; -1 means that the reading end was closed with some
      bytes not stored. */
  ghost predicate WriterAt(w: Writer, g: Delivery, readopen: bool) {
    match w
    case WIdle(result) =>
      || (result == |g.buf| && g.sent == g.buf)
      || (result == -1 && !readopen && g.refused && |g.sent| < |g.buf| && g.sent == g.buf[..|g.sent|])
    case WLocking(buf, k) => Sent(g, buf, k)
    case WFull(buf, k) => Sent(g, buf, k)
    case WDropping(buf, k) => Sent(g, buf, k)
    case WFalling(buf, k) => Sent(g, buf, k)
    case WAsleep(buf, k) => Sent(g, buf, k)
    case WDone(n) => n == |g.buf| && g.sent == g.buf
    case WReleasing(n) => n == |g.buf| && g.sent == g.buf
  }

  lemma WriterRound(past: Run, s: State, i: nat)
    requires StateOk(past.s) && MayStep(past.s, Write(i)) && Next(past.s, Write(i), s)
    requires i < |past.s.writers| && WriterAt(past.s.writers[i], Given(past, i), past.s.readopen)
    ensures i < |s.writers| == |past.s.writers|
    ensures WriterAt(s.writers[i], Given(Then(past, Write(i), s), i), s.readopen)
  {
    var w := past.s.writers[i];
    var k := w.i + |s.stored| - |past.s.stored|;
    assert Added(past.s.stored, s.stored) == w.buf[w.i..k];
    assert w.buf[..w.i] + w.buf[w.i..k] == w.buf[..k];
    assert w.buf[..|w.buf|] == w.buf;
  }

  lemma WriterStep(past: Run, step: Step, s: State, i: nat)
    requires StateOk(past.s) && MayStep(past.s, step) && Next(past.s, step, s)
    requires i < |past.s.writers| && WriterAt(past.s.writers[i], Given(past, i), past.s.readopen)
    ensures i < |s.writers| == |past.s.writers|
    ensures WriterAt(s.writers[i], Given(Then(past, step, s), i), s.readopen)
  {
    if step == Write(i) { WriterRound(past, s, i); }
  }

  /** A call of pipewrite returns its length when all its bytes have been stored, in order, and -1
      exactly when it leaves some out, the reading end being closed. */
  lemma {:induction false} WriteReturns(nwriters: nat, nreaders: nat, t: Run, i: nat)
    requires IsRun(nwriters, nreaders, t) && i < nwriters
    ensures |t.s.writers| == nwriters && WriterAt(t.s.writers[i], Given(t, i), t.s.readopen)
  {
    match t
    case Begin(s) =>
    case Then(past, step, s) =>
      WriteReturns(nwriters, nreaders, past, i);
      if MayStep(past.s, step) { WriterStep(past, step, s, i); }
  }

  /** Everything that calls of pipewrite have stored, in the order of their steps. */
  function StoredByWrites(t: Run): seq<int> {
    match t
    case Begin(_) => []
    case Then(past, step, s) => StoredByWrites(past) + if step.Write? then Added(past.s.stored, s.stored) else []
  }

  lemma StoreStep(s: State, step: Step, t: State)
    requires StateOk(s) && MayStep(s, step) && Next(s, step, t)
    ensures t.stored == s.stored + if step.Write? then Added(s.stored, t.stored) else []
  {
  }

  /** Nothing else is ever in the pipe. */
  lemma {:induction false} OnlyWrites(nwriters: nat, nreaders: nat, t: Run)
    requires IsRun(nwriters, nreaders, t)
    ensures t.s.stored == StoredByWrites(t)
  {
    match t
    case Begin(s) =>
    case Then(past, step, s) =>
      OnlyWrites(nwriters, nreaders, past);
      if MayStep(past.s, step) { StoreStep(past.s, step, s); }
  }

  // ----- The ends

  /** An end is open until it is closed. */
  predicate ClosedIn(t: Run, step: Step) {
    match t
    case Begin(_) => false
    case Then(past, done, s) => ClosedIn(past, step) || (done == step && Free(past.s, step))
  }

  /** The close is possible: both locks are free, and no call is in progress. */
  predicate Free(s: State, step: Step) {
    && s.lock == s.tlock == Nobody
    && if step == CloseWriting then forall i: nat | i < |s.writers| :: s.writers[i].WIdle?
       else forall i: nat | i < |s.readers| :: s.readers[i].RIdle?
  }

  lemma EndsStep(s: State, step: Step, t: State)
    requires StateOk(s) && MayStep(s, step) && Next(s, step, t)
    ensures t.writeopen == (s.writeopen && !(step == CloseWriting && Free(s, step)))
    ensures t.readopen == (s.readopen && !(step == CloseReading && Free(s, step)))
  {
  }

  lemma NotFree(s: State, step: Step)
    requires !MayStep(s, step)
    ensures !(step == CloseWriting && Free(s, step)) && !(step == CloseReading && Free(s, step))
  {
  }

  lemma {:induction false} EndsOpen(nwriters: nat, nreaders: nat, t: Run)
    requires IsRun(nwriters, nreaders, t)
    ensures (t.s.writeopen <==> !ClosedIn(t, CloseWriting)) && (t.s.readopen <==> !ClosedIn(t, CloseReading))
  {
    match t
    case Begin(s) =>
    case Then(past, step, s) =>
      EndsOpen(nwriters, nreaders, past);
      if MayStep(past.s, step) { EndsStep(past.s, step, s); } else { NotFree(past.s, step); }
  }

  // ----- No deadlock

  /** A step that goes on with a read or a write. */
  predicate InCall(step: Step) {
    !step.CallWrite? && !step.CallRead? && !step.CloseWriting? && !step.CloseReading?
  }

  lemma LockedWriter(s: State, i: nat) returns (step: Step)
    requires StateOk(s) && i < |s.writers| && s.lock == TheWriter(i) && s.tlock == Nobody
    ensures InCall(step) && MayStep(s, step)
  {
    assert WHolds(s.writers[i]);
    step := if s.writers[i].WDropping? then WriterDrops(i)
            else if s.writers[i].WReleasing? then WriterReleases(i) else WriterWakes(i);
  }

  lemma LockedReader(s: State, i: nat) returns (step: Step)
    requires StateOk(s) && i < |s.readers| && s.lock == TheReader(i) && s.tlock == Nobody
    ensures InCall(step) && MayStep(s, step)
  {
    assert RHolds(s.readers[i]);
    step := if s.readers[i].RDropping? then ReaderDrops(i)
            else if s.readers[i].RReleasing? then ReaderReleases(i) else ReaderWakes(i);
  }

  /** A lock that is held is let go of by a step that is possible. */
  lemma LockMoves(s: State) returns (step: Step)
    requires StateOk(s) && (s.lock != Nobody || s.tlock != Nobody)
    ensures InCall(step) && MayStep(s, step)
  {
    match s.tlock
    case TheWriter(i) =>
      assert s.writers[i].WFalling?;
      step := WriterFalls(i);
    case TheReader(i) =>
      assert s.readers[i].RFalling?;
      step := ReaderFalls(i);
    case Nobody =>
      if s.lock.TheWriter? { step := LockedWriter(s, s.lock.i); } else { step := LockedReader(s, s.lock.i); }
  }

  /** When no call can go on, each reader in a call sleeps at an empty pipe that may still be
      written, and each writer at a full one that may still be read. */
  lemma NoDeadlock(s: State)
    requires StateOk(s) && forall step: Step {:trigger MayStep(s, step)} | InCall(step) :: !MayStep(s, step)
    ensures forall i: nat | i < |s.readers| && !s.readers[i].RIdle? ::
              s.readers[i].RAsleep? && s.read == s.stored && s.writeopen
    ensures forall i: nat | i < |s.writers| && !s.writers[i].WIdle? ::
              s.writers[i].WAsleep? && |s.stored| == |s.read| + PIPESIZE && s.readopen
  {
    if s.lock != Nobody || s.tlock != Nobody { var _ := LockMoves(s); }
    forall i: nat | i < |s.readers| && !s.readers[i].RIdle?
      ensures s.readers[i].RAsleep? && s.read == s.stored && s.writeopen
    {
      assert !MayStep(s, Step.Read(i));
      assert !RHolds(s.readers[i]) && !s.readers[i].RFalling?;
      assert RWaits(s.readers[i]);
    }
    forall i: nat | i < |s.writers| && !s.writers[i].WIdle?
      ensures s.writers[i].WAsleep? && |s.stored| == |s.read| + PIPESIZE && s.readopen
    {
      assert !MayStep(s, Step.Write(i));
      assert !WHolds(s.writers[i]) && !s.writers[i].WFalling?;
      assert WWaits(s.writers[i]);
    }
  }
}
