/** What runs of the buffer cache promise its clients, in terms of the steps taken and the events
    logged, whatever the cache does in between. */
module CacheLaws {

  import opened Blocks
  import opened BufferCache
  import opened Wrappers
  import Traces

  type Run = Traces.Trace<State, Step>

  predicate Performed(s: State, step: Step) {
    Possible(s.bufs, s.procs, s.device, s.disk, step)
  }

  function KeyAt(s: State, b: nat): (k: Option<Key>)
    ensures k.Some? <==> b < |s.bufs| && s.bufs[b].dev >= 0
  {
    if b < |s.bufs| && s.bufs[b].dev >= 0 then Some(KeyOf(s.bufs[b])) else None
  }

  function List<T>(x: Option<T>): seq<T> {
    match x
    case None => []
    case Some(y) => [y]
  }

  /** What was logged between two states. */
  function Logged1(h: History, h1: History): Option<Event> {
    if h1.Then? && h1.past == h then Some(h1.e) else None
  }

  // ----- Every call of bread or bwrite returns its sector to its caller, once

  /** The sector that process p asks for by a step. */
  function AskedBy(p: nat, s: State, step: Step): Option<Key> {
    if !Performed(s, step) then None
    else
      match step
      case Call(r, key) => if r == p then Some(key) else None
      case Write(r, b) => if r == p then KeyAt(s, b) else None
      case _ => None
  }

  function Asked(p: nat, t: Run): seq<Key> {
    match t
    case Begin(_) => []
    case Then(past, step, _) => Asked(p, past) + List(AskedBy(p, past.s, step))
  }

  function Returns(p: nat, h: History): seq<Key> {
    match h
    case Start => []
    case Then(past, e) => Returns(p, past) + if e.Returned? && e.p == p then [e.key] else []
  }

  /** The buffer that process p is reading or writing. */
  function Getting(s: State, p: nat): Option<nat>
    requires p < |s.procs|
  {
    match s.procs[p]
    case NeedsIo(b) => Some(b)
    case AsleepIo(b) => Some(b)
    case AwakeIo(b) => Some(b)
    case _ => None
  }

  /** The sector that process p has asked for and not been given. */
  function Open(s: State, p: nat): Option<Key>
    requires p < |s.procs|
  {
    match s.procs[p]
    case Running => None
    case Wants(key) => Some(key)
    case AsleepGet(key, _) => Some(key)
    case NeedsIo(b) => KeyAt(s, b)
    case AsleepIo(b) => KeyAt(s, b)
    case AwakeIo(b) => KeyAt(s, b)
  }

  /** Who reads or writes a buffer has it. */
  ghost predicate Has(s: State, p: nat)
    requires p < |s.procs|
  {
    Getting(s, p).Some? ==>
      var b := Getting(s, p).value;
      b < |s.bufs| && s.bufs[b].busy && s.bufs[b].holder == p && s.bufs[b].dev >= 0
  }

  lemma GettingHas(flat0: map<Key, Sector>, s: State, p: nat)
    requires StateOk(flat0, s) && p < |s.procs|
    ensures Has(s, p)
  {
    assert ProcOk(s.bufs, s.procs, s.q, s.flat, p);
    if Getting(s, p).Some? { assert BufOk(s.bufs, s.procs, s.q, s.flat, Getting(s, p).value); }
  }

  lemma OpenGet(s: State, r: nat, got: Got, b: nat, t: State, p: nat)
    requires |s.bufs| == |s.stamp| && r < |s.procs| && s.procs[r].Wants? && Gotten(s, r, got, b, t)
    requires p < |s.procs| && Has(s, p)
    ensures |t.procs| == |s.procs|
    ensures Returns(p, t.events) + List(Open(t, p)) == Returns(p, s.events) + List(Open(s, p))
  {
  }

  lemma OpenStep(s: State, step: Step, t: State, p: nat)
    requires Next(s, step, t) && p < |s.procs| && Has(s, p)
    ensures |t.procs| == |s.procs|
    ensures Returns(p, t.events) + List(Open(t, p)) ==
            Returns(p, s.events) + List(Open(s, p)) + List(AskedBy(p, s, step))
  {
    if step.Get? {
      var r: Got, b: nat :| Gotten(s, step.p, r, b, t);
      OpenGet(s, step.p, r, b, t, p);
    } else if step.Interrupt? || step.Release? {
      OpenWoken(s, step, t, p);
    }
  }

  /** Being woken changes nothing of what a process has asked for. */
  lemma OpenWoken(s: State, step: Step, t: State, p: nat)
    requires Next(s, step, t) && (step.Interrupt? || step.Release?) && p < |s.procs| && Has(s, p)
    ensures |t.procs| == |s.procs| && Open(t, p) == Open(s, p) && t.events == s.events
  {
  }

  /** Each call returns once, in order, but for the one that is open. */
  lemma {:induction false} CallsReturn(nproc: nat, disk: map<Key, Sector>, t: Run, p: nat)
    requires IsRun(nproc, disk, t) && p < nproc
    ensures |t.s.procs| == nproc && Asked(p, t) == Returns(p, t.s.events) + List(Open(t.s, p))
  {
    match t
    case Begin(s) =>
    case Then(past, step, s) =>
      CallsReturn(nproc, disk, past, p);
      if Performed(past.s, step) {
        GettingHas(disk, past.s, p);
        OpenStep(past.s, step, s, p);
      }
  }

  /** A process comes to run again with the sector it has asked for, in a buffer that is its own
      and holds what the call returns. */
  lemma ReturnHolds(flat0: map<Key, Sector>, s: State, step: Step, t: State, p: nat)
    requires StateOk(flat0, s) && Next(s, step, t) && p < |s.procs| && !s.procs[p].Running?
    requires |t.procs| == |s.procs| && t.procs[p].Running?
    ensures Open(s, p).Some?
    ensures exists b: nat :: HeldBy(t.bufs, t.procs, p, b) && t.bufs[b].valid && KeyAt(t, b) == Open(s, p)
                          && t.events == History.Then(s.events, Returned(p, Open(s, p).value, t.bufs[b].data))
  {
    GettingHas(flat0, s, p);
    match step
    case Get(r) =>
      var got: Got, b: nat :| Gotten(s, r, got, b, t);
      assert r == p && got == Buffer;
      assert BufOk(s.bufs, s.procs, s.q, s.flat, b);
      assert HeldBy(t.bufs, t.procs, p, b);
    case Resume(r) =>
      assert r == p && ProcOk(s.bufs, s.procs, s.q, s.flat, p);
      assert HeldBy(t.bufs, t.procs, p, s.procs[p].b);
    case _ =>
  }

  // ----- A buffer belongs to one process from when it is returned until it is released

  /** What process p owns after a step that takes s to t. */
  function OwnedAfter(p: nat, owned: set<Key>, s: State, step: Step, t: State): set<Key> {
    var e := Logged1(s.events, t.events);
    var given := if e.Some? && e.value.Returned? && e.value.p == p then {e.value.key} else {};
    var back := if Performed(s, step) && step.Release? && step.p == p then Keys(KeyAt(s, step.b)) else {};
    owned + given - back
  }

  /** The sectors whose buffers process p has been given and has not released. */
  function Owned(p: nat, t: Run): set<Key> {
    match t
    case Begin(_) => {}
    case Then(past, step, s) => OwnedAfter(p, Owned(p, past), past.s, step, s)
  }

  function Keys(k: Option<Key>): set<Key> {
    if k.Some? then {k.value} else {}
  }

  /** Buffer b is busy for process p. */
  predicate BusyFor(s: State, p: nat, b: nat) {
    b < |s.bufs| && s.bufs[b].busy && s.bufs[b].holder == p
  }

  /** p owns the sectors in `owned`, and perhaps the one it is getting. */
  ghost predicate Owns(s: State, p: nat, owned: set<Key>)
    requires p < |s.procs|
  {
    && (forall b: nat {:trigger BusyFor(s, p, b)} | BusyFor(s, p, b) ::
          KeyAt(s, b).Some? && (KeyAt(s, b).value in owned || Getting(s, p) == Some(b)))
    && (forall k: Key {:trigger k in owned} | k in owned :: exists b: nat :: BusyFor(s, p, b) && KeyAt(s, b) == Some(k))
  }

  lemma OwnsGet(s: State, r: nat, got: Got, b: nat, t: State, p: nat, owned: set<Key>)
    requires |s.bufs| == |s.stamp| && r < |s.procs| && s.procs[r].Wants? && Gotten(s, r, got, b, t)
    requires p < |s.procs| && Owns(s, p, owned)
    ensures |t.procs| == |s.procs| && Owns(t, p, OwnedAfter(p, owned, s, Step.Get(r), t))
  {
    var owned1 := OwnedAfter(p, owned, s, Step.Get(r), t);
    forall k: Key | k in owned1
      ensures exists c: nat :: BusyFor(t, p, c) && KeyAt(t, c) == Some(k)
    {
      var c := b;
      if k in owned { c :| BusyFor(s, p, c) && KeyAt(s, c) == Some(k); }
      assert BusyFor(t, p, c) && KeyAt(t, c) == Some(k);
    }
    forall c: nat | BusyFor(t, p, c)
      ensures KeyAt(t, c).Some? && (KeyAt(t, c).value in owned1 || Getting(t, p) == Some(c))
    {
      if c == b && (got.Buffer? || got.Recycling?) {
        assert p == r;
      } else {
        assert BusyFor(s, p, c) && KeyAt(t, c) == KeyAt(s, c);
      }
    }
  }

  lemma OwnsRelease(s: State, r: nat, b: nat, t: State, p: nat, owned: set<Key>)
    requires CachedOnce(s.bufs) && HeldBy(s.bufs, s.procs, r, b) && s.bufs[b].dev >= 0 && ReleaseStep(s, b, t)
    requires p < |s.procs| && Owns(s, p, owned) && Performed(s, Step.Release(r, b))
    ensures |t.procs| == |s.procs| && Owns(t, p, OwnedAfter(p, owned, s, Step.Release(r, b), t))
  {
    forall k: Key | k in owned && !(p == r && KeyAt(s, b) == Some(k))
      ensures exists c: nat :: BusyFor(t, p, c) && KeyAt(t, c) == Some(k)
    {
      var c: nat :| BusyFor(s, p, c) && KeyAt(s, c) == Some(k);
      assert BusyFor(t, p, c) && KeyAt(t, c) == Some(k);
    }
    forall c: nat | BusyFor(t, p, c)
      ensures BusyFor(s, p, c) && c != b && KeyAt(t, c) == KeyAt(s, c) && (p == r ==> KeyAt(s, c) != KeyAt(s, b))
    {
      assert s.bufs[c].busy;
    }
  }

  /** The same buffers are busy, for the same processes and with the same sectors. */
  ghost predicate SameHolders(s: State, t: State) {
    |t.bufs| == |s.bufs| && |t.procs| == |s.procs| && forall c: nat {:trigger t.bufs[c]} | c < |s.bufs| ::
      && t.bufs[c].busy == s.bufs[c].busy && t.bufs[c].holder == s.bufs[c].holder
      && t.bufs[c].dev == s.bufs[c].dev && t.bufs[c].sector == s.bufs[c].sector
  }

  lemma OtherSteps(s: State, step: Step, t: State)
    requires Next(s, step, t) && !step.Get? && !step.Release?
    ensures SameHolders(s, t)
  {
  }

  /** What process p is getting goes on, begins with what it owns, or is returned. */
  ghost predicate Goes(s: State, t: State, p: nat, owned: set<Key>, owned1: set<Key>)
    requires p < |s.procs| == |t.procs|
  {
    if Getting(s, p).Some? && Getting(t, p).None? then KeyAt(s, Getting(s, p).value).Some?
      && BusyFor(s, p, Getting(s, p).value) && owned1 == owned + {KeyAt(s, Getting(s, p).value).value}
    else owned1 == owned && (Getting(s, p) == Getting(t, p) || Getting(s, p).None?)
  }

  lemma GoesOn(s: State, step: Step, t: State, p: nat, owned: set<Key>)
    requires Next(s, step, t) && !step.Get? && !step.Release? && p < |s.procs| && Has(s, p)
    ensures |t.procs| == |s.procs| && Goes(s, t, p, owned, OwnedAfter(p, owned, s, step, t))
  {
  }

  lemma OwnsOther(s: State, t: State, p: nat, owned: set<Key>, owned1: set<Key>)
    requires SameHolders(s, t) && p < |s.procs| && Owns(s, p, owned) && Goes(s, t, p, owned, owned1)
    ensures Owns(t, p, owned1)
  {
    forall k: Key | k in owned1
      ensures exists c: nat :: BusyFor(t, p, c) && KeyAt(t, c) == Some(k)
    {
      var c := 0;
      if k in owned { c :| BusyFor(s, p, c) && KeyAt(s, c) == Some(k); } else { c := Getting(s, p).value; }
      assert BusyFor(t, p, c) && KeyAt(t, c) == Some(k);
    }
    forall c: nat | BusyFor(t, p, c)
      ensures KeyAt(t, c).Some? && (KeyAt(t, c).value in owned1 || Getting(t, p) == Some(c))
    {
      assert BusyFor(s, p, c) && KeyAt(t, c) == KeyAt(s, c);
    }
  }

  lemma OwnershipStep(flat0: map<Key, Sector>, s: State, step: Step, t: State, p: nat, owned: set<Key>)
    requires StateOk(flat0, s) && Next(s, step, t) && p < |s.procs| && Owns(s, p, owned)
    ensures |t.procs| == |s.procs| && Owns(t, p, OwnedAfter(p, owned, s, step, t))
  {
    GettingHas(flat0, s, p);
    if step.Get? {
      var r: Got, b: nat :| Gotten(s, step.p, r, b, t);
      OwnsGet(s, step.p, r, b, t, p, owned);
    } else if step.Release? {
      BusyHasSector(s.bufs, s.procs, s.q, s.device, s.disk, s.flat, step.b);
      OwnsRelease(s, step.p, step.b, t, p, owned);
    } else {
      OtherSteps(s, step, t);
      GoesOn(s, step, t, p, owned);
      OwnsOther(s, t, p, owned, OwnedAfter(p, owned, s, step, t));
    }
  }

  /** A buffer is busy for a process exactly from the return of its sector, or from when the
      process starts to read it, until the process releases it. */
  lemma {:induction false} Ownership(nproc: nat, disk: map<Key, Sector>, t: Run, p: nat)
    requires IsRun(nproc, disk, t) && p < nproc
    ensures |t.s.procs| == nproc && Owns(t.s, p, Owned(p, t))
  {
    match t
    case Begin(s) =>
      forall b: nat ensures !BusyFor(s, p, b) { if b < NBUF { assert BufOk(s.bufs, s.procs, s.q, s.flat, b); } }
    case Then(past, step, s) =>
      Ownership(nproc, disk, past, p);
      if Performed(past.s, step) { OwnershipStep(disk, past.s, step, s, p, Owned(p, past)); }
  }

  /** Nobody but its owner changes a buffer that has been returned. */
  lemma OnlyOwnerChanges(flat0: map<Key, Sector>, s: State, step: Step, t: State, p: nat, b: nat)
    requires StateOk(flat0, s) && Next(s, step, t) && p < |s.procs| && BusyFor(s, p, b) && Getting(s, p) != Some(b)
    ensures b < |t.bufs| && (t.bufs[b] == s.bufs[b] || step == Release(p, b) || step == Write(p, b) ||
                             (step.Modify? && step.p == p && step.b == b && t.bufs[b].data == step.data))
  {
    assert BufOk(s.bufs, s.procs, s.q, s.flat, b);
    if step.Interrupt? { assert s.q[0] in s.q; assert BufOk(s.bufs, s.procs, s.q, s.flat, s.q[0]); }
  }

  // ----- The disk serves requests in the order in which they were made

  function StartedBy(s: State, step: Step): Option<Key> {
    if Performed(s, step) && step.Start? then Open(s, step.p) else None
  }

  /** The sectors for which iderw was called, and those whose requests ideintr has finished. */
  function Requested(t: Run): seq<Key> {
    match t
    case Begin(_) => []
    case Then(past, step, _) => Requested(past) + List(StartedBy(past.s, step))
  }

  function ServedBy(s: State, step: Step): Option<Key> {
    if Performed(s, step) && step.Interrupt? then Some(s.device.key) else None
  }

  function Served(t: Run): seq<Key> {
    match t
    case Begin(_) => []
    case Then(past, step, _) => Served(past) + List(ServedBy(past.s, step))
  }

  ghost predicate Waiting(s: State, keys: seq<Key>) {
    |keys| == |s.q| && forall i: nat {:trigger keys[i]} | i < |keys| :: KeyAt(s, s.q[i]) == Some(keys[i])
  }

  ghost predicate QueueBusy(s: State) {
    forall i: nat {:trigger s.q[i]} | i < |s.q| :: s.q[i] < |s.bufs| && s.bufs[s.q[i]].busy
  }

  lemma QueuedAreBusy(flat0: map<Key, Sector>, s: State)
    requires StateOk(flat0, s)
    ensures QueueBusy(s) && AtHead(s)
  {
    forall i: nat | i < |s.q| ensures s.q[i] < |s.bufs| && s.bufs[s.q[i]].busy {
      assert s.q[i] in s.q && BufOk(s.bufs, s.procs, s.q, s.flat, s.q[i]);
    }
  }

  /** The sector of a busy buffer stays the same. */
  lemma BusyKeepsKey(s: State, step: Step, t: State, b: nat)
    requires Next(s, step, t) && b < |s.bufs| && s.bufs[b].busy
    ensures KeyAt(t, b) == KeyAt(s, b)
  {
    if step.Get? {
      var r: Got, x: nat :| Gotten(s, step.p, r, x, t);
    }
  }

  lemma WaitingOn(s: State, step: Step, t: State, keys: seq<Key>)
    requires Next(s, step, t) && QueueBusy(s) && Waiting(s, keys) && !step.Start? && !step.Interrupt?
    ensures Waiting(t, keys)
  {
    assert t.q == s.q;
    forall i: nat | i < |keys| ensures KeyAt(t, t.q[i]) == Some(keys[i]) {
      BusyKeepsKey(s, step, t, s.q[i]);
    }
  }

  lemma WaitingStarted(s: State, p: nat, t: State, keys: seq<Key>)
    requires p < |s.procs| && s.procs[p].NeedsIo? && StartStep(s, p, t) && Waiting(s, keys)
    ensures Open(s, p).Some? && Waiting(t, keys + [Open(s, p).value])
  {
  }

  lemma WaitingServed(s: State, t: State, keys: seq<Key>)
    requires s.device.Working? && InterruptStep(s, t) && Waiting(s, keys) && KeyAt(s, s.q[0]) == Some(s.device.key)
    ensures keys != [] && keys[0] == s.device.key && Waiting(t, keys[1..])
  {
  }

  /** The disk works on the head of the queue. */
  ghost predicate AtHead(s: State) {
    s.device.Working? ==> s.q != [] && KeyAt(s, s.q[0]) == Some(s.device.key)
  }

  lemma FirstInFirstOut(s: State, step: Step, t: State, keys: seq<Key>) returns (keys1: seq<Key>)
    requires QueueBusy(s) && AtHead(s) && Next(s, step, t) && Waiting(s, keys)
    ensures Waiting(t, keys1) && List(ServedBy(s, step)) + keys1 == keys + List(StartedBy(s, step))
  {
    keys1 := keys;
    if step.Start? {
      WaitingStarted(s, step.p, t, keys);
      keys1 := keys + [Open(s, step.p).value];
    } else if step.Interrupt? {
      WaitingServed(s, t, keys);
      keys1 := keys[1..];
    } else {
      WaitingOn(s, step, t, keys);
    }
  }

  lemma Moved(served: seq<Key>, before: seq<Key>, started: seq<Key>, now: seq<Key>, after: seq<Key>)
    requires now + after == before + started
    ensures served + before + started == served + now + after
  {
    assert served + before + started == served + (before + started);
  }

  lemma OrderStep(past: Run, step: Step, s: State, before: seq<Key>) returns (keys: seq<Key>)
    requires QueueBusy(past.s) && AtHead(past.s) && Next(past.s, step, s)
    requires Waiting(past.s, before) && Requested(past) == Served(past) + before
    ensures var t := Traces.Then(past, step, s); Waiting(s, keys) && Requested(t) == Served(t) + keys
  {
    keys := FirstInFirstOut(past.s, step, s, before);
    Moved(Served(past), before, List(StartedBy(past.s, step)), List(ServedBy(past.s, step)), keys);
  }

  /** A run as far as the queue is concerned. */
  ghost predicate Queueing(t: Run) {
    match t
    case Begin(s) => s.q == []
    case Then(past, step, s) => Queueing(past) && QueueBusy(past.s) && AtHead(past.s) && StepTo(past.s, step, s)
  }

  lemma {:induction false} RunQueues(nproc: nat, disk: map<Key, Sector>, t: Run)
    requires IsRun(nproc, disk, t)
    ensures Queueing(t)
  {
    match t
    case Begin(_) =>
    case Then(past, _, _) =>
      RunQueues(nproc, disk, past);
      QueuedAreBusy(disk, past.s);
  }

  lemma {:induction false} QueueInOrder(t: Run) returns (keys: seq<Key>)
    requires Queueing(t)
    ensures Waiting(t.s, keys) && Requested(t) == Served(t) + keys
  {
    match t
    case Begin(s) => keys := [];
    case Then(past, step, s) =>
      keys := QueueInOrder(past);
      if Performed(past.s, step) { keys := OrderStep(past, step, s, keys); }
  }

  /** Requests are finished in the order in which they were made; those in the queue are next. */
  lemma InOrder(nproc: nat, disk: map<Key, Sector>, t: Run) returns (keys: seq<Key>)
    requires IsRun(nproc, disk, t)
    ensures Waiting(t.s, keys) && Requested(t) == Served(t) + keys
  {
    RunQueues(nproc, disk, t);
    keys := QueueInOrder(t);
  }

  // ----- Buffers are reused in the order in which they were last released

  function Releases(t: Run): nat {
    match t
    case Begin(_) => 0
    case Then(past, step, _) => Releases(past) + if Performed(past.s, step) && step.Release? then 1 else 0
  }

  /** When buffer b was last released; before any release the buffers are in the order of binit. */
  function LastUse(t: Run, b: nat): nat {
    match t
    case Begin(_) => b
    case Then(past, step, _) =>
      if Performed(past.s, step) && step.Release? && step.b == b then NBUF + Releases(past) else LastUse(past, b)
  }

  lemma StampStep(s: State, step: Step, t: State)
    requires Next(s, step, t)
    ensures |t.stamp| == |s.stamp| && t.clock == s.clock + if step.Release? then 1 else 0
    ensures forall b: nat {:trigger t.stamp[b]} | b < |s.stamp| ::
              t.stamp[b] == if step.Release? && step.b == b then s.clock else s.stamp[b]
  {
  }

  lemma {:induction false} Stamped(nproc: nat, disk: map<Key, Sector>, t: Run)
    requires IsRun(nproc, disk, t)
    ensures |t.s.stamp| == NBUF && t.s.clock == NBUF + Releases(t)
    ensures forall b: nat {:trigger t.s.stamp[b]} | b < NBUF :: t.s.stamp[b] == LastUse(t, b)
  {
    match t
    case Begin(s) =>
    case Then(past, step, s) =>
      Stamped(nproc, disk, past);
      if Performed(past.s, step) { StampStep(past.s, step, s); }
  }

  lemma OnlyRecycled(s: State, step: Step, t: State, b: nat)
    requires Next(s, step, t) && b < |s.bufs| == |s.stamp| && |t.bufs| == |s.bufs| && KeyAt(t, b) != KeyAt(s, b)
    ensures step.Get? && KeyAt(t, b) == Open(s, step.p) && NotCached(s.bufs, s.procs[step.p].key)
    ensures Oldest(s.bufs, s.stamp, b)
  {
    if step.Get? {
      var r: Got, x: nat :| Gotten(s, step.p, r, x, t);
      assert x == b;
    }
  }

  /** A buffer gets another sector only when no buffer has that sector, and it is then an idle one
      that nobody has used for longer. */
  lemma LeastRecentlyUsed(nproc: nat, disk: map<Key, Sector>, past: Run, step: Step, s: State, b: nat)
    requires IsRun(nproc, disk, Traces.Then(past, step, s)) && b < NBUF && |s.bufs| == NBUF && |past.s.bufs| == NBUF
    requires KeyAt(s, b) != KeyAt(past.s, b)
    ensures step.Get? && Performed(past.s, step) && KeyAt(s, b) == Open(past.s, step.p)
    ensures !past.s.bufs[b].busy && forall c: nat :: KeyAt(past.s, c) != KeyAt(s, b)
    ensures forall c: nat | c < NBUF && !past.s.bufs[c].busy :: LastUse(past, b) <= LastUse(past, c)
  {
    Stamped(nproc, disk, past);
    OnlyRecycled(past.s, step, s, b);
  }

  // ----- Nobody waits in vain

  /** A process inside bread or bwrite can go on, or the disk can, or the process waits for a busy
      buffer that has the sector it asked for. */
  lemma NoDeadlock(nproc: nat, disk: map<Key, Sector>, t: Run, p: nat)
    requires IsRun(nproc, disk, t) && p < |t.s.procs| && !t.s.procs[p].Running?
    ensures || Performed(t.s, Get(p)) || Performed(t.s, Step.Start(p)) || Performed(t.s, Resume(p))
            || Performed(t.s, Transfer) || Performed(t.s, Interrupt)
            || (t.s.procs[p].AsleepGet? && exists b: nat :: KeyAt(t.s, b) == Open(t.s, p) && t.s.bufs[b].busy)
  {
    Waits(disk, t.s, p);
  }

  lemma Waits(disk: map<Key, Sector>, s: State, p: nat)
    requires StateOk(disk, s) && p < |s.procs| && !s.procs[p].Running?
    ensures || Performed(s, Get(p)) || Performed(s, Step.Start(p)) || Performed(s, Resume(p))
            || Performed(s, Transfer) || Performed(s, Interrupt)
            || (s.procs[p].AsleepGet? && exists b: nat :: KeyAt(s, b) == Open(s, p) && s.bufs[b].busy)
  {
    assert ProcOk(s.bufs, s.procs, s.q, s.flat, p);
    if s.procs[p].AsleepGet? { assert KeyAt(s, s.procs[p].b) == Open(s, p); }
  }
}
