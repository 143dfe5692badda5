/** The life of processes, p2/xv6/kernel/proc.c: fork, exit, wait, sleep, wakeup and kill over the
    process table.

    A step is what one processor does while it holds ptable.lock, or one of the unlocked writes
    of fork. A process switched to while in sleep still has the lock its scheduler took, so a
    woken wait scans the table again in the step that switches to it. */
module Proc {

  import opened Traces

  datatype State = Unused | Embryo | Sleeping | Runnable | Running | Zombie

  datatype Chan = NoChan | OfProc(i: nat) | Other(c: nat)

  datatype Parent = Nobody | Slot(i: nat)

  /** Where a process is inside the kernel, as far as the others may notice. */
  datatype Job = Nothing | Forking(child: nat, linked: bool) | Waiting

  datatype Proc = Proc(state: State, pid: nat, parent: Parent, chan: Chan, killed: bool, job: Job)

  /** What is known of a call of wait when its process gives up the lock. */
  datatype Outcome = Reaped(pid: nat) | Refused | Asleep

  predicate Able(p: Proc) {
    p.state.Sleeping? || p.state.Runnable? || p.state.Running?
  }

  // ----- Invariants

  /** Whoever is in slot i has a parent that can still wait for it. */
  ghost predicate RaisedAt(ps: seq<Proc>, init: nat, i: nat)
    requires i < |ps|
  {
    match ps[i].state
    case Unused => ps[i].parent == Nobody
    case Embryo => ps[i].parent.Slot? ==> ps[i].parent.i < |ps| && ps[ps[i].parent.i].job == Forking(i, true)
    case _ => if i == init then ps[i].parent == Nobody
              else ps[i].parent.Slot? && ps[i].parent.i != i && ps[i].parent.i < |ps| && Able(ps[ps[i].parent.i])
  }

  /** A fork in progress owns the slot of its child. */
  ghost predicate ForkAt(ps: seq<Proc>, i: nat)
    requires i < |ps|
  {
    match ps[i].job
    case Forking(c, linked) =>
      && (ps[i].state.Running? || ps[i].state.Runnable?)
      && c < |ps| && ps[c].state.Embryo? && ps[c].job.Nothing? && ps[c].parent == if linked then Slot(i) else Nobody
    case Waiting => (ps[i].state.Sleeping? || ps[i].state.Runnable?) && ps[i].chan == OfProc(i)
    case Nothing => ps[i].state.Sleeping? ==> !ps[i].chan.OfProc?
  }

  ghost predicate NoZombieChild(ps: seq<Proc>, i: nat) {
    forall c: nat {:trigger ps[c]} | c < |ps| && ps[c].parent == Slot(i) :: !ps[c].state.Zombie?
  }

  ghost predicate HasChild(ps: seq<Proc>, i: nat) {
    exists c: nat :: c < |ps| && ps[c].parent == Slot(i)
  }

  /** Who sleeps in wait has children, and none of them has exited yet. */
  ghost predicate WaitAt(ps: seq<Proc>, i: nat)
    requires i < |ps|
  {
    ps[i].state.Sleeping? && ps[i].job.Waiting? ==> NoZombieChild(ps, i) && HasChild(ps, i)
  }

  ghost predicate Family(ps: seq<Proc>, init: nat) {
    && init < |ps| && Able(ps[init])
    && (forall i: nat {:trigger RaisedAt(ps, init, i)} | i < |ps| :: RaisedAt(ps, init, i))
    && (forall i: nat {:trigger ForkAt(ps, i)} | i < |ps| :: ForkAt(ps, i))
    && (forall i: nat, j: nat {:trigger ps[i].job, ps[j].job} | i < |ps| && j < |ps| && i != j ::
          ps[i].job.Forking? && ps[j].job.Forking? ==> ps[i].job.child != ps[j].job.child)
  }

  ghost predicate Waits(ps: seq<Proc>) {
    forall i: nat {:trigger WaitAt(ps, i)} | i < |ps| :: WaitAt(ps, i)
  }

  ghost predicate PidsOk(ps: seq<Proc>, nextpid: nat) {
    && (forall i: nat {:trigger ps[i]} | i < |ps| :: ps[i].pid < nextpid && (ps[i].pid == 0 ==> ps[i].state.Unused?))
    && (forall i: nat, j: nat {:trigger ps[i].pid, ps[j].pid} | i < j < |ps| ::
        ps[i].pid == ps[j].pid ==> ps[i].pid == 0)
  }

  ghost predicate IsZombie(ps: seq<Proc>, pid: nat) {
    exists i: nat :: i < |ps| && ps[i].state.Zombie? && ps[i].pid == pid
  }

  /** A pid that exited has been returned by wait or is a zombie, and not both. */
  ghost predicate Ledger(ps: seq<Proc>, exited: set<nat>, reaped: map<nat, nat>) {
    && 0 !in exited && reaped.Keys <= exited
    && (forall i: nat {:trigger ps[i]} | i < |ps| ::
          if ps[i].state.Zombie? then ps[i].pid in exited && ps[i].pid !in reaped else ps[i].pid !in exited)
    && (forall q: nat {:trigger IsZombie(ps, q)} | q in exited :: q in reaped || IsZombie(ps, q))
  }

  lemma ReapedOrZombie(ps: seq<Proc>, exited: set<nat>, reaped: map<nat, nat>, q: nat)
    requires Ledger(ps, exited, reaped) && q in exited
    ensures (q in reaped) != IsZombie(ps, q)
  {
    assert q in reaped || IsZombie(ps, q);
    if IsZombie(ps, q) {
      var i: nat :| i < |ps| && ps[i].state.Zombie? && ps[i].pid == q;
    }
  }

  /** The parent is there to wait. */
  ghost predicate LookedAfter(ps: seq<Proc>, i: nat)
    requires i < |ps|
  {
    ps[i].parent.Slot? && ps[i].parent.i < |ps| && Able(ps[ps[i].parent.i])
  }

  ghost predicate Known(exited: set<nat>, nextpid: nat) {
    forall q: nat | q in exited :: q < nextpid
  }

  // ----- What a step may change

  /** Only who runs and who sleeps, and their channels, may differ. */
  ghost predicate Alike(ps: seq<Proc>, qs: seq<Proc>) {
    && |ps| == |qs|
    && forall i: nat {:trigger qs[i]} | i < |ps| ::
         && qs[i].pid == ps[i].pid && qs[i].parent == ps[i].parent
         && (qs[i].state == ps[i].state || (Able(ps[i]) && Able(qs[i])))
         && (qs[i].job == ps[i].job || (!ps[i].job.Forking? && !qs[i].job.Forking?))
  }

  lemma FamilyAlike(ps: seq<Proc>, qs: seq<Proc>, init: nat)
    requires Family(ps, init) && Alike(ps, qs) && forall i: nat {:trigger ForkAt(qs, i)} | i < |qs| :: ForkAt(qs, i)
    ensures Family(qs, init)
  {
    forall i: nat | i < |qs| ensures RaisedAt(qs, init, i) { assert RaisedAt(ps, init, i); }
  }

  /** The same pids in the same slots, and the same zombies. */
  ghost predicate SameFates(ps: seq<Proc>, qs: seq<Proc>) {
    && |ps| == |qs|
    && forall i: nat {:trigger qs[i]} | i < |ps| ::
         qs[i].pid == ps[i].pid && qs[i].state.Zombie? == ps[i].state.Zombie?
             && qs[i].state.Unused? == ps[i].state.Unused?
  }

  lemma LedgerAlike(ps: seq<Proc>, qs: seq<Proc>, nextpid: nat, exited: set<nat>, reaped: map<nat, nat>)
    requires SameFates(ps, qs) && PidsOk(ps, nextpid) && Ledger(ps, exited, reaped)
    ensures PidsOk(qs, nextpid) && Ledger(qs, exited, reaped)
  {
    forall q: nat | q in exited ensures q in reaped || IsZombie(qs, q) {
      assert q in reaped || IsZombie(ps, q);
      if q !in reaped {
        var i: nat :| i < |ps| && ps[i].state.Zombie? && ps[i].pid == q;
        assert qs[i].state.Zombie? && qs[i].pid == q;
      }
    }
  }

  /** Nobody falls asleep in wait. */
  lemma WaitsAlike(ps: seq<Proc>, qs: seq<Proc>)
    requires Waits(ps) && Alike(ps, qs)
    requires forall i: nat {:trigger qs[i]} | i < |ps| ::
             qs[i].state.Sleeping? && qs[i].job.Waiting? ==> ps[i].state.Sleeping? && ps[i].job.Waiting?
    ensures Waits(qs)
  {
    forall i: nat | i < |qs| ensures WaitAt(qs, i) {
      assert WaitAt(ps, i);
      if qs[i].state.Sleeping? && qs[i].job.Waiting? {
        var c: nat :| c < |ps| && ps[c].parent == Slot(i);
        assert qs[c].parent == Slot(i);
      }
    }
  }

  function Awake(p: Proc, c: Chan): Proc {
    if p.state.Sleeping? && p.chan == c then p.(state := Runnable) else p
  }

  function Woken(ps: seq<Proc>, c: Chan): (r: seq<Proc>)
    ensures |r| == |ps| && forall i: nat {:trigger r[i]} | i < |r| :: r[i] == Awake(ps[i], c)
  {
    seq(|ps|, (i: nat) requires i < |ps| => Awake(ps[i], c))
  }

  /** The slots below k have lost i as parent and have init instead. */
  function Adopted(ps: seq<Proc>, i: nat, init: nat, k: nat): (r: seq<Proc>)
    ensures |r| == |ps|
    ensures forall j: nat {:trigger r[j]} | j < |r| ::
              r[j] == if j < k && ps[j].parent == Slot(i) then ps[j].(parent := Slot(init)) else ps[j]
  {
    seq(|ps|, (j: nat) requires j < |ps| => if j < k && ps[j].parent == Slot(i) then ps[j].(parent := Slot(init))
        else ps[j])
  }

  ghost predicate ZombieBelow(ps: seq<Proc>, i: nat, k: nat) {
    exists c: nat :: c < k && c < |ps| && ps[c].parent == Slot(i) && ps[c].state.Zombie?
  }

  /** The children of i are init's, and init is awake if one of them is a zombie. */
  ghost function Orphaned(ps: seq<Proc>, i: nat, init: nat, k: nat): (r: seq<Proc>)
    ensures |r| == |ps|
  {
    if ZombieBelow(ps, i, k) then Woken(Adopted(ps, i, init, k), OfProc(init)) else Adopted(ps, i, init, k)
  }

  ghost function Exited(ps: seq<Proc>, i: nat, init: nat): (r: seq<Proc>)
    requires i < |ps| && ps[i].parent.Slot?
    ensures |r| == |ps|
  {
    var qs := Orphaned(Woken(ps, OfProc(ps[i].parent.i)), i, init, |ps|);
    qs[i := qs[i].(state := Zombie)]
  }

  lemma WokenFamily(ps: seq<Proc>, c: Chan, init: nat)
    requires Family(ps, init)
    ensures Alike(ps, Woken(ps, c)) && Family(Woken(ps, c), init)
  {
    var qs := Woken(ps, c);
    forall i: nat | i < |qs| ensures ForkAt(qs, i) { assert ForkAt(ps, i); }
    FamilyAlike(ps, qs, init);
  }

  lemma WokenKeeps(ps: seq<Proc>, c: Chan, init: nat)
    requires Family(ps, init) && Waits(ps)
    ensures Alike(ps, Woken(ps, c)) && Family(Woken(ps, c), init) && Waits(Woken(ps, c))
  {
    WokenFamily(ps, c, init);
    WaitsAlike(ps, Woken(ps, c));
  }

  // ----- exit

  lemma AdoptedFamily(ps: seq<Proc>, i: nat, init: nat)
    requires Family(ps, init) && i != init && i < |ps| && ps[i].job.Nothing?
    ensures Family(Adopted(ps, i, init, |ps|), init)
  {
    var qs := Adopted(ps, i, init, |ps|);
    assert RaisedAt(ps, init, init);
    forall j: nat | j < |qs| ensures RaisedAt(qs, init, j) { assert RaisedAt(ps, init, j); }
    forall j: nat | j < |qs| ensures ForkAt(qs, j) { assert ForkAt(ps, j); }
  }

  lemma OrphanedFamily(ps: seq<Proc>, i: nat, init: nat)
    requires Family(ps, init) && i != init && i < |ps| && ps[i].job.Nothing?
    ensures Family(Orphaned(ps, i, init, |ps|), init)
    ensures var qs := Orphaned(ps, i, init, |ps|); forall j: nat {:trigger qs[j]} | j < |qs| :: qs[j].parent != Slot(i)
  {
    AdoptedFamily(ps, i, init);
    WokenFamily(Adopted(ps, i, init, |ps|), OfProc(init), init);
  }

  lemma OrphanedWaits(ps: seq<Proc>, i: nat, init: nat)
    requires Family(ps, init) && Waits(ps) && i != init && i < |ps| && ps[i].state.Running?
    ensures Waits(Orphaned(ps, i, init, |ps|))
  {
    var qs := Orphaned(ps, i, init, |ps|);
    assert ForkAt(ps, init);
    forall j: nat | j < |qs| ensures WaitAt(qs, j) {
      assert WaitAt(ps, j);
      if qs[j].state.Sleeping? && qs[j].job.Waiting? {
        var c: nat :| c < |ps| && ps[c].parent == Slot(j);
        assert qs[c].parent == Slot(j);
        assert ZombieBelow(ps, i, |ps|) ==> j != init;
      }
    }
  }

  lemma PassedOne(ps: seq<Proc>, i: nat, init: nat, k: nat, qs: seq<Proc>)
    requires k < |ps| && ps[k].parent == Slot(i)
    requires qs == Orphaned(ps, i, init, k)[k := Orphaned(ps, i, init, k)[k].(parent := Slot(init))]
    ensures Orphaned(ps, i, init, k + 1) == if qs[k].state.Zombie? then Woken(qs, OfProc(init)) else qs
  {
    var rs := Orphaned(ps, i, init, k + 1);
    assert ps[k].state.Zombie? ==> ZombieBelow(ps, i, k + 1);
    assert ZombieBelow(ps, i, k) ==> ZombieBelow(ps, i, k + 1);
  }

  lemma PassedNone(ps: seq<Proc>, i: nat, init: nat, k: nat)
    requires k < |ps| && ps[k].parent != Slot(i)
    ensures Orphaned(ps, i, init, k + 1) == Orphaned(ps, i, init, k)
  {
    assert ZombieBelow(ps, i, k) <==> ZombieBelow(ps, i, k + 1);
    assert Adopted(ps, i, init, k) == Adopted(ps, i, init, k + 1);
  }

  /** A zombie whose parent does not sleep in wait. */
  lemma DiedKeeps(ps: seq<Proc>, i: nat, init: nat)
    requires Family(ps, init) && Waits(ps) && i != init && i < |ps| && Able(ps[i]) && ps[i].job.Nothing?
    requires ps[i].parent.Slot? && ps[i].parent.i < |ps|
             && !(ps[ps[i].parent.i].state.Sleeping? && ps[ps[i].parent.i].job.Waiting?)
    requires forall j: nat {:trigger ps[j]} | j < |ps| :: ps[j].parent != Slot(i)
    ensures Family(ps[i := ps[i].(state := Zombie)], init) && Waits(ps[i := ps[i].(state := Zombie)])
  {
    var qs := ps[i := ps[i].(state := Zombie)];
    forall j: nat | j < |qs| ensures RaisedAt(qs, init, j) && ForkAt(qs, j) && WaitAt(qs, j) {
      assert RaisedAt(ps, init, j) && ForkAt(ps, j) && WaitAt(ps, j);
      if qs[j].state.Sleeping? && qs[j].job.Waiting? {
        var c: nat :| c < |ps| && ps[c].parent == Slot(j);
        assert qs[c].parent == Slot(j);
      }
    }
  }

  lemma ExitedKeeps(ps: seq<Proc>, i: nat, init: nat)
    requires Family(ps, init) && Waits(ps) && i != init && i < |ps| && ps[i].state.Running? && ps[i].job.Nothing?
    ensures ps[i].parent.Slot? && Family(Exited(ps, i, init), init) && Waits(Exited(ps, i, init))
  {
    assert RaisedAt(ps, init, i);
    var p := ps[i].parent.i;
    var qs := Woken(ps, OfProc(p));
    WokenKeeps(ps, OfProc(p), init);
    OrphanedFamily(qs, i, init);
    OrphanedWaits(qs, i, init);
    assert ForkAt(ps, p);
    DiedKeeps(Orphaned(qs, i, init, |ps|), i, init);
  }

  lemma DiedLedger(ps: seq<Proc>, i: nat, nextpid: nat, exited: set<nat>, reaped: map<nat, nat>)
    requires PidsOk(ps, nextpid) && Ledger(ps, exited, reaped) && i < |ps| && Able(ps[i])
    ensures var qs := ps[i := ps[i].(state := Zombie)]; PidsOk(qs, nextpid) && Ledger(qs, exited + {ps[i].pid}, reaped)
  {
    var qs := ps[i := ps[i].(state := Zombie)];
    var all := exited + {ps[i].pid};
    forall q: nat | q in all ensures q in reaped || IsZombie(qs, q) {
      if q == ps[i].pid {
        assert qs[i].state.Zombie?;
      } else if q !in reaped {
        assert IsZombie(ps, q);
        var j: nat :| j < |ps| && ps[j].state.Zombie? && ps[j].pid == q;
        assert qs[j].state.Zombie? && qs[j].pid == q;
      }
    }
    forall j: nat | j < |qs|
      ensures if qs[j].state.Zombie? then qs[j].pid in all && qs[j].pid !in reaped else qs[j].pid !in all
    {
      assert i != j ==> qs[j] == ps[j] && ps[i].pid != ps[j].pid;
    }
  }

  lemma ExitedLedger(ps: seq<Proc>, i: nat, init: nat, nextpid: nat, exited: set<nat>, reaped: map<nat, nat>)
    requires PidsOk(ps, nextpid) && Ledger(ps, exited, reaped) && Known(exited, nextpid)
    requires i < |ps| && ps[i].state.Running? && ps[i].parent.Slot?
    ensures var all := exited + {ps[i].pid};
      PidsOk(Exited(ps, i, init), nextpid) && Ledger(Exited(ps, i, init), all, reaped) && Known(all, nextpid)
  {
    var qs := Orphaned(Woken(ps, OfProc(ps[i].parent.i)), i, init, |ps|);
    LedgerAlike(ps, qs, nextpid, exited, reaped);
    DiedLedger(qs, i, nextpid, exited, reaped);
  }

  // ----- wait

  function Freed(p: Proc): Proc {
    p.(state := Unused, pid := 0, parent := Nobody, killed := false)
  }

  lemma ReapedKeeps(ps: seq<Proc>, i: nat, c: nat, init: nat)
    requires Family(ps, init) && Waits(ps) && i < |ps| && ps[i].state.Running?
    requires c < |ps| && ps[c].state.Zombie? && ps[c].parent == Slot(i)
    ensures Family(ps[c := Freed(ps[c])], init) && Waits(ps[c := Freed(ps[c])])
  {
    var qs := ps[c := Freed(ps[c])];
    assert ForkAt(ps, c);
    forall j: nat | j < |qs| ensures RaisedAt(qs, init, j) && ForkAt(qs, j) && WaitAt(qs, j) {
      assert RaisedAt(ps, init, j) && ForkAt(ps, j) && WaitAt(ps, j);
      if qs[j].state.Sleeping? && qs[j].job.Waiting? {
        var k: nat :| k < |ps| && ps[k].parent == Slot(j);
        assert qs[k].parent == Slot(j);
      }
    }
  }

  lemma ReapedLedger(ps: seq<Proc>, i: nat, c: nat, nextpid: nat, exited: set<nat>, reaped: map<nat, nat>)
    requires PidsOk(ps, nextpid) && Ledger(ps, exited, reaped) && c < |ps| && ps[c].state.Zombie?
    ensures ps[c].pid !in reaped
    ensures var qs := ps[c := Freed(ps[c])]; PidsOk(qs, nextpid) && Ledger(qs, exited, reaped[ps[c].pid := i])
  {
    var qs := ps[c := Freed(ps[c])];
    var now := reaped[ps[c].pid := i];
    forall q: nat | q in exited ensures q in now || IsZombie(qs, q) {
      assert q in reaped || IsZombie(ps, q);
      if q !in now {
        var j: nat :| j < |ps| && ps[j].state.Zombie? && ps[j].pid == q;
        assert qs[j].state.Zombie? && qs[j].pid == q;
      }
    }
    forall j: nat | j < |qs| ensures if qs[j].state.Zombie? then qs[j].pid in exited && qs[j].pid !in now
        else qs[j].pid !in exited {
      assert j != c ==> qs[j] == ps[j] && ps[j].pid != ps[c].pid;
    }
  }

  function Slept(p: Proc, i: nat): Proc {
    p.(state := Sleeping, chan := OfProc(i), job := Waiting)
  }

  lemma SleptKeeps(ps: seq<Proc>, i: nat, init: nat)
    requires Family(ps, init) && Waits(ps) && i < |ps| && ps[i].state.Running? && ps[i].job.Nothing?
    requires NoZombieChild(ps, i) && HasChild(ps, i)
    ensures Family(ps[i := Slept(ps[i], i)], init) && Waits(ps[i := Slept(ps[i], i)])
  {
    var qs := ps[i := Slept(ps[i], i)];
    forall j: nat | j < |qs| ensures ForkAt(qs, j) && WaitAt(qs, j) {
      assert ForkAt(ps, j) && WaitAt(ps, j);
      if qs[j].state.Sleeping? && qs[j].job.Waiting? {
        var k: nat :| k < |ps| && ps[k].parent == Slot(j);
        assert qs[k].parent == Slot(j);
      }
    }
    FamilyAlike(ps, qs, init);
  }

  /** What the scan of wait by the process in slot i did: a zombie child of its own, whose pid no
      wait has returned before, is gone from the table; or there is none. */
  ghost predicate Scanned(ps: seq<Proc>, qs: seq<Proc>, i: nat, r: Outcome, reaped: map<nat, nat>, now: map<nat, nat>)
    requires i < |ps|
  {
    match r
    case Reaped(pid) =>
      && pid !in reaped && now == reaped[pid := i]
      && exists c: nat ::
           && c < |ps| && ps[c].state.Zombie? && ps[c].parent == Slot(i) && pid == ps[c].pid
           && qs == ps[c := Freed(ps[c])]
    case Refused => now == reaped && qs == ps && NoZombieChild(ps, i) && (ps[i].killed || !HasChild(ps, i))
    case Asleep =>
        && now == reaped && qs == ps[i := Slept(ps[i], i)] && NoZombieChild(ps, i) && !ps[i].killed
        && HasChild(ps, i)
  }

  /** The first slot with that pid is killed, and no longer asleep. */
  ghost predicate KilledFirst(ps: seq<Proc>, qs: seq<Proc>, pid: int) {
    exists k: nat ::
      && k < |ps| && ps[k].pid == pid && (forall j: nat | j < k :: ps[j].pid != pid)
      && qs == ps[k := ps[k].(killed := true, state := if ps[k].state.Sleeping? then Runnable else ps[k].state)]
  }

  /** Slot i changes its state among the able ones, its channel and its killed flag, outside wait. */
  lemma ChangedKeeps(ps: seq<Proc>, i: nat, p: Proc, init: nat)
    requires Family(ps, init) && Waits(ps) && i < |ps|
    requires p.pid == ps[i].pid && p.parent == ps[i].parent
    requires p.state == ps[i].state || (Able(ps[i]) && Able(p))
    requires p.job == ps[i].job || (!ps[i].job.Forking? && !p.job.Forking?)
    requires ForkAt(ps[i := p], i)
    requires p.state.Sleeping? && p.job.Waiting? ==> ps[i].state.Sleeping? && ps[i].job.Waiting?
    ensures Alike(ps, ps[i := p]) && Family(ps[i := p], init) && Waits(ps[i := p])
  {
    var qs := ps[i := p];
    forall j: nat | j < |qs| ensures ForkAt(qs, j) { assert ForkAt(ps, j); }
    FamilyAlike(ps, qs, init);
    WaitsAlike(ps, qs);
  }

  // ----- fork

  lemma StartedKeeps(ps: seq<Proc>, i: nat, c: nat, pid: nat, init: nat)
    requires Family(ps, init) && Waits(ps) && i < |ps| && ps[i].state.Running? && ps[i].job.Nothing?
    requires c < |ps| && ps[c].state.Unused?
    ensures var qs := ps[c := ps[c].(state := Embryo, pid := pid)][i := ps[i].(job := Forking(c, false))];
      Family(qs, init) && Waits(qs)
  {
    var qs := ps[c := ps[c].(state := Embryo, pid := pid)][i := ps[i].(job := Forking(c, false))];
    assert RaisedAt(ps, init, c) && ForkAt(ps, c);
    forall j: nat | j < |qs| ensures RaisedAt(qs, init, j) && ForkAt(qs, j) && WaitAt(qs, j) {
      assert RaisedAt(ps, init, j) && ForkAt(ps, j) && WaitAt(ps, j);
      if qs[j].state.Sleeping? && qs[j].job.Waiting? {
        var k: nat :| k < |ps| && ps[k].parent == Slot(j);
        assert qs[k].parent == Slot(j);
      }
    }
    forall j: nat, k: nat | j < |qs| && k < |qs| && j != k && qs[j].job.Forking? && qs[k].job.Forking?
      ensures qs[j].job.child != qs[k].job.child
    {
      assert ForkAt(ps, j) && ForkAt(ps, k);
    }
  }

  /** The child of the fork in slot i, and what is left of the fork, change. */
  lemma ForkMoves(ps: seq<Proc>, i: nat, child: Proc, job: Job, init: nat)
    requires Family(ps, init) && Waits(ps) && i < |ps| && ps[i].state.Running? && ps[i].job.Forking? && !job.Waiting?
    requires child.job.Nothing? && (job.Forking? ==> job.child == ps[i].job.child)
    requires
      var linked := ps[i].job.linked;
      match job
      case Forking(_, now) => now && child.state.Embryo? && child.parent == Slot(i)
      case _ => if linked then child.state.Runnable? && child.parent == Slot(i)
          else child.state.Unused? && child.parent == Nobody
    ensures ForkAt(ps, i) && var qs := ps[ps[i].job.child := child][i := ps[i].(job := job)];
            && Family(qs, init)
            && Waits(qs)
  {
    assert ForkAt(ps, i);
    var c := ps[i].job.child;
    var qs := ps[c := child][i := ps[i].(job := job)];
    assert RaisedAt(ps, init, c) && RaisedAt(ps, init, i) && RaisedAt(ps, init, init);
    forall j: nat | j < |qs| ensures RaisedAt(qs, init, j) { assert RaisedAt(ps, init, j); }
    forall j: nat | j < |qs| ensures ForkAt(qs, j) { assert ForkAt(ps, j); }
    ForkWaits(ps, qs, i, c);
  }

  /** Slots i and c change, of which i runs and c has i or nobody as parent. */
  lemma ForkWaits(ps: seq<Proc>, qs: seq<Proc>, i: nat, c: nat)
    requires Waits(ps) && i < |ps| == |qs| && c < |ps| && i != c && ps[i].state.Running? && qs[i].state.Running?
             && qs[i].parent == ps[i].parent
    requires forall j: nat {:trigger qs[j]} | j < |ps| && j != i && j != c :: qs[j] == ps[j]
    requires ps[c].parent.Slot? ==> ps[c].parent == Slot(i)
    requires qs[c].parent.Slot? ==> qs[c].parent == Slot(i)
    requires !qs[c].job.Waiting?
    ensures Waits(qs)
  {
    forall j: nat | j < |qs| ensures WaitAt(qs, j) {
      assert WaitAt(ps, j);
      if qs[j].state.Sleeping? && qs[j].job.Waiting? {
        var k: nat :| k < |ps| && ps[k].parent == Slot(j);
        assert qs[k].parent == Slot(j);
      }
    }
  }

  /** Slot c turns from unused or new to something that is no zombie, and i keeps its pid. */
  lemma LedgerMoves(ps: seq<Proc>, i: nat, p: Proc, c: nat, child: Proc, nextpid: nat, exited: set<nat>,
                    reaped: map<nat, nat>)
    requires PidsOk(ps, nextpid) && Ledger(ps, exited, reaped) && Known(exited, nextpid)
    requires i < |ps| && c < |ps| && i != c && p.pid == ps[i].pid && p.state == ps[i].state && !p.state.Unused?
    requires !ps[c].state.Zombie? && !child.state.Zombie?
    requires (child.pid == ps[c].pid && (ps[c].pid == 0 ==> child.state.Unused?))
             || (child.pid == nextpid && nextpid != 0)
    ensures var qs := ps[c := child][i := p]; var next := if child.pid == nextpid then nextpid + 1 else nextpid;
      PidsOk(qs, next) && Ledger(qs, exited, reaped) && Known(exited, next)
  {
    var qs := ps[c := child][i := p];
    forall q: nat | q in exited ensures q in reaped || IsZombie(qs, q) {
      assert q in reaped || IsZombie(ps, q);
      if q !in reaped {
        var j: nat :| j < |ps| && ps[j].state.Zombie? && ps[j].pid == q;
        assert qs[j].state.Zombie? && qs[j].pid == q;
      }
    }
  }

  datatype Step =
    | Dispatch(i: nat)
    | Yield(i: nat)
    | Sleep(i: nat, c: nat)
    | Wakeup(c: nat)
    | Kill(pid: int)
    | Fork(i: nat)
    | ForkFails(i: nat)
    | ForkLinks(i: nat)
    | ForkEnds(i: nat)
    | Exit(i: nat)
    | Wait(i: nat)

  /** What a call has returned, to the process in slot i; kill is called by anybody. */
  datatype Result = Forked(i: nat, r: int) | Waited(i: nat, r: int) | Killed(pid: int, r: int)

  /** The process table, init's slot and the next pid; every pid that has ever exited, the pids
      returned by wait with the slot each was returned to, and all results in order. */
  datatype Kernel = Kernel(procs: seq<Proc>, init: nat, nextpid: nat, exited: set<nat>, reaped: map<nat, nat>,
                           results: seq<Result>)

  function Gave(s: Kernel, r: Result): Kernel {
    s.(results := s.results + [r])
  }

  /** What wait returns, if it does. */
  function Answer(i: nat, r: Outcome): seq<Result> {
    match r
    case Reaped(pid) => [Waited(i, pid)]
    case Refused => [Waited(i, -1)]
    case Asleep => []
  }

  ghost predicate KernelOk(s: Kernel) {
    && Family(s.procs, s.init) && Waits(s.procs) && PidsOk(s.procs, s.nextpid)
    && Ledger(s.procs, s.exited, s.reaped) && Known(s.exited, s.nextpid)
  }

  predicate Possible(ps: seq<Proc>, init: nat, step: Step) {
    match step
    case Dispatch(i) => i < |ps| && ps[i].state.Runnable?
    case Yield(i) => i < |ps| && ps[i].state.Running?
    case Sleep(i, _) => i < |ps| && ps[i].state.Running? && ps[i].job.Nothing?
    case Wakeup(_) => true
    case Kill(_) => true
    case Fork(i) => i < |ps| && ps[i].state.Running? && ps[i].job.Nothing?
    case ForkFails(i) => i < |ps| && ps[i].state.Running? && ps[i].job.Forking? && !ps[i].job.linked
    case ForkLinks(i) => i < |ps| && ps[i].state.Running? && ps[i].job.Forking? && !ps[i].job.linked
    case ForkEnds(i) => i < |ps| && ps[i].state.Running? && ps[i].job.Forking? && ps[i].job.linked
    case Exit(i) => i < |ps| && ps[i].state.Running? && ps[i].job.Nothing? && i != init
    case Wait(i) => i < |ps| && ps[i].state.Running? && ps[i].job.Nothing?
  }

  ghost predicate NoneUnused(ps: seq<Proc>) {
    forall k: nat {:trigger ps[k]} | k < |ps| :: !ps[k].state.Unused?
  }

  ghost predicate FirstUnused(ps: seq<Proc>, c: nat) {
    c < |ps| && ps[c].state.Unused? && forall k: nat {:trigger ps[k]} | k < c :: !ps[k].state.Unused?
  }

  /** fork as far as allocproc marks the first unused slot. */
  ghost predicate Started(s: Kernel, i: nat, t: Kernel)
    requires i < |s.procs|
  {
    if NoneUnused(s.procs) then t == Gave(s, Forked(i, -1))
    else exists c: nat ::
           && FirstUnused(s.procs, c)
           && t == s.(nextpid := s.nextpid + 1,
                      procs := s.procs[c := s.procs[c].(state := Embryo, pid := s.nextpid)][i :=
                                s.procs[i].(job := Forking(c, false))])
  }

  /** The child of the fork in slot i becomes c, and the fork goes on as job. */
  function ForkMoved(s: Kernel, i: nat, c: Proc, job: Job): Kernel
    requires i < |s.procs| && s.procs[i].job.Forking? && s.procs[i].job.child < |s.procs|
  {
    s.(procs := s.procs[s.procs[i].job.child := c][i := s.procs[i].(job := job)])
  }

  /** What the scan of wait, by the process in slot i, made of s. */
  ghost predicate ScannedTo(s: Kernel, i: nat, t: Kernel)
    requires i < |s.procs|
  {
    && t == s.(procs := t.procs, reaped := t.reaped, results := t.results)
    && exists r: Outcome {:trigger Scanned(s.procs, t.procs, i, r, s.reaped, t.reaped)} ::
         && Scanned(s.procs, t.procs, i, r, s.reaped, t.reaped) && (r.Reaped? ==> r.pid in s.exited)
         && t.results == s.results + Answer(i, r)
  }

  /** The process in slot i runs; one that was woken in wait is back in its loop. */
  function Resumed(s: Kernel, i: nat): Kernel
    requires i < |s.procs|
  {
    var p := s.procs[i];
    s.(procs := s.procs[i := p.(state := Running, chan := NoChan, job := if p.job.Waiting? then Nothing else p.job)])
  }

  /** The steps of one process. */
  ghost predicate Next(s: Kernel, step: Step, t: Kernel)
    requires Possible(s.procs, s.init, step)
  {
    var ps := s.procs;
    match step
    case Dispatch(i) => if ps[i].job.Waiting? then ScannedTo(Resumed(s, i), i, t) else t == Resumed(s, i)
    case Yield(i) => t == s.(procs := ps[i := ps[i].(state := Runnable)])
    case Sleep(i, c) => t == s.(procs := ps[i := ps[i].(state := Sleeping, chan := Other(c))])
    case Wakeup(c) => t == s.(procs := Woken(ps, Other(c)))
    case Kill(pid) =>
      if exists k: nat :: k < |ps| && ps[k].pid == pid
      then t == Gave(s, Killed(pid, 0)).(procs := t.procs) && KilledFirst(ps, t.procs, pid)
      else t == Gave(s, Killed(pid, -1))
    case Fork(i) => Started(s, i, t)
    case ForkFails(i) =>
      ChildOf(ps, i) < |ps| &&
      t == Gave(ForkMoved(s, i, ps[ChildOf(ps, i)].(state := Unused), Nothing), Forked(i, -1))
    case ForkLinks(i) => ChildOf(ps, i) < |ps| && t ==
        ForkMoved(s, i, ps[ChildOf(ps, i)].(parent := Slot(i)), Forking(ChildOf(ps, i), true))
    case ForkEnds(i) =>
      ChildOf(ps, i) < |ps| &&
      t == Gave(ForkMoved(s, i, ps[ChildOf(ps, i)].(state := Runnable), Nothing), Forked(i, ps[ChildOf(ps, i)].pid))
    case Exit(i) => ps[i].parent.Slot? && t == s.(procs := Exited(ps, i, s.init), exited := s.exited + {ps[i].pid})
    case Wait(i) => ScannedTo(s, i, t)
  }

  function ChildOf(ps: seq<Proc>, i: nat): nat
    requires i < |ps| && ps[i].job.Forking?
  {
    ps[i].job.child
  }

  function Booted(n: nat): Kernel {
    Kernel(seq(n, (i: nat) => if i == 0 then Proc(Runnable, 1, Nobody, NoChan, false, Nothing)
                              else Proc(Unused, 0, Nobody, NoChan, false, Nothing)), 0, 2, {}, map[], [])
  }

  /** Each state follows from the one before by its step, or is the same when the step is not
      possible; and all are sound. */
  ghost predicate IsRun(n: nat, t: Trace<Kernel, Step>) {
    && KernelOk(t.s)
    && match t
       case Begin(s) => s == Booted(n)
       case Then(past, step, s) => IsRun(n, past) && KernelOk(past.s) && StepTo(past.s, step, s)
  }

  ghost predicate StepTo(s: Kernel, step: Step, t: Kernel) {
    if Possible(s.procs, s.init, step) then Next(s, step, t) else t == s
  }

  lemma RunOn(n: nat, t: Trace<Kernel, Step>, step: Step, s: Kernel)
    requires IsRun(n, t) && KernelOk(s) && KernelOk(t.s) && StepTo(t.s, step, s)
    ensures IsRun(n, Then(t, step, s))
  {
  }

  ghost predicate ZombieChild(ps: seq<Proc>, i: nat, pid: nat) {
    exists c: nat :: c < |ps| && ps[c].state.Zombie? && ps[c].parent == Slot(i) && ps[c].pid == pid
  }

  /** No step returns a pid a second time, and what it returns is a zombie child of the process
      it returns it to, which is in wait. */
  lemma ReturnedOnce(s: Kernel, step: Step, t: Kernel)
    requires KernelOk(s) && StepTo(s, step, t)
    ensures forall q: nat {:trigger t.reaped[q]} | q in s.reaped :: q in t.reaped && t.reaped[q] == s.reaped[q]
    ensures forall q: nat {:trigger t.reaped[q]} | q in t.reaped && q !in s.reaped ::
              (step == Wait(t.reaped[q]) || step == Dispatch(t.reaped[q])) && ZombieChild(s.procs, t.reaped[q], q)
  {
    if Possible(s.procs, s.init, step) && (step.Wait? || step.Dispatch?) && t.reaped != s.reaped {
      var i := step.i;
      var from := if step.Wait? then s else Resumed(s, i);
      var r: Outcome :| Scanned(from.procs, t.procs, i, r, s.reaped, t.reaped);
      var c: nat :| c < |from.procs| && from.procs[c].state.Zombie? && from.procs[c].parent == Slot(i)
          && r.pid == from.procs[c].pid;
      assert s.procs[c] == from.procs[c];
    }
  }

  class Table {
    var procs: seq<Proc>
    var init: nat
    var nextpid: nat
    ghost var exited: set<nat> // every pid that has ever exited
    ghost var reaped: map<nat, nat> // the pids returned by wait, and by which slot's
    ghost var results: seq<Result> // what fork, wait and kill have returned

    ghost function Now(): Kernel
      reads this
    {
      Kernel(procs, init, nextpid, exited, reaped, results)
    }

    ghost predicate Valid()
      reads this
    {
      KernelOk(Now())
    }

    predicate Runs(i: nat)
      reads this`procs
    {
      i < |procs| && procs[i].state.Running?
    }

    /** userinit in an empty table. */
    constructor (n: nat)
      requires n > 0
      ensures Valid() && Now() == Booted(n)
    {
      procs := seq(n, (i: nat) => if i == 0 then Proc(Runnable, 1, Nobody, NoChan, false, Nothing)
                                  else Proc(Unused, 0, Nobody, NoChan, false, Nothing));
      init, nextpid, exited, reaped, results := 0, 2, {}, map[], [];
      new;
      forall j: nat | j < n ensures RaisedAt(procs, 0, j) && ForkAt(procs, j) && WaitAt(procs, j) { }
    }

    /** The first slot that is unused, or the table's size. */
    method FindUnused() returns (c: nat)
      ensures if c == |procs| then NoneUnused(procs) else FirstUnused(procs, c)
    {
      c := 0;
      while c < |procs| && !procs[c].state.Unused?
        invariant c <= |procs| && forall k: nat {:trigger procs[k]} | k < c :: !procs[k].state.Unused?
      {
        c := c + 1;
      }
    }

    /** fork as far as allocproc marks a slot; ok is false when the table is full. */
    method ForkBegin(i: nat) returns (ok: bool)
      requires Valid() && Possible(procs, init, Fork(i))
      modifies this`procs, this`nextpid, this`results
      ensures Valid() && Started(old(Now()), i, Now()) && (ok <==> !NoneUnused(old(procs)))
    {
      var c := FindUnused();
      ok := c < |procs|;
      if ok {
        assert procs[i].pid < nextpid;
        StartedKeeps(procs, i, c, nextpid, init);
        LedgerMoves(procs, i, procs[i].(job := Forking(c, false)), c, procs[c].(state := Embryo, pid := nextpid),
                    nextpid, exited, reaped);
        procs := procs[c := procs[c].(state := Embryo, pid := nextpid)][i := procs[i].(job := Forking(c, false))];
        nextpid := nextpid + 1;
      } else {
        results := results + [Forked(i, -1)];
      }
    }

    /** No kernel stack or no copy of the memory: the slot is given back. */
    method ForkFail(i: nat)
      requires Valid() && Possible(procs, init, ForkFails(i))
      modifies this`procs, this`results
      ensures Valid() && Next(old(Now()), ForkFails(i), Now())
    {
      assert ForkAt(procs, i);
      var c := procs[i].job.child;
      ForkMoves(procs, i, procs[c].(state := Unused), Nothing, init);
      LedgerMoves(procs, i, procs[i].(job := Nothing), c, procs[c].(state := Unused), nextpid, exited, reaped);
      procs := procs[c := procs[c].(state := Unused)][i := procs[i].(job := Nothing)];
      results := results + [Forked(i, -1)];
    }

    /** np->parent = proc */
    method ForkLink(i: nat)
      requires Valid() && Possible(procs, init, ForkLinks(i))
      modifies this`procs
      ensures Valid() && Next(old(Now()), ForkLinks(i), Now())
    {
      assert ForkAt(procs, i);
      var c := procs[i].job.child;
      ForkMoves(procs, i, procs[c].(parent := Slot(i)), Forking(c, true), init);
      LedgerMoves(procs, i, procs[i].(job := Forking(c, true)), c, procs[c].(parent := Slot(i)), nextpid, exited,
                  reaped);
      procs := procs[c := procs[c].(parent := Slot(i))][i := procs[i].(job := Forking(c, true))];
    }

    /** np->state = RUNNABLE; fork returns the child's pid. */
    method ForkEnd(i: nat) returns (pid: nat)
      requires Valid() && Possible(procs, init, ForkEnds(i))
      modifies this`procs, this`results
      ensures Valid() && Next(old(Now()), ForkEnds(i), Now())
      ensures ChildOf(old(procs), i) < |procs| && pid == procs[ChildOf(old(procs), i)].pid != 0
    {
      assert ForkAt(procs, i);
      var c := procs[i].job.child;
      pid := procs[c].pid;
      ForkMoves(procs, i, procs[c].(state := Runnable), Nothing, init);
      LedgerMoves(procs, i, procs[i].(job := Nothing), c, procs[c].(state := Runnable), nextpid, exited, reaped);
      procs := procs[c := procs[c].(state := Runnable)][i := procs[i].(job := Nothing)];
      results := results + [Forked(i, pid)];
    }

    method Wakeup1(chan: Chan)
      modifies this`procs
      ensures procs == Woken(old(procs), chan)
    {
      var k := 0;
      while k < |procs|
        invariant 0 <= k <= |procs| == |old(procs)|
        invariant forall j: nat {:trigger procs[j]} | j < |procs| ::
                  procs[j] == if j < k then Awake(old(procs)[j], chan) else old(procs)[j]
      {
        if procs[k].state.Sleeping? && procs[k].chan == chan {
          procs := procs[k := procs[k].(state := Runnable)];
        }
        k := k + 1;
      }
    }

    /** The loop of exit that passes the children of i on to init. */
    method PassOn(i: nat)
      requires i < |procs|
      modifies this`procs
      ensures procs == Orphaned(old(procs), i, init, |old(procs)|)
    {
      var k := 0;
      while k < |procs|
        invariant 0 <= k <= |procs| == |old(procs)|
        invariant procs == Orphaned(old(procs), i, init, k)
      {
        if procs[k].parent == Slot(i) {
          procs := procs[k := procs[k].(parent := Slot(init))];
          PassedOne(old(procs), i, init, k, procs);
          if procs[k].state.Zombie? {
            Wakeup1(OfProc(init));
          }
        } else {
          PassedNone(old(procs), i, init, k);
        }
        k := k + 1;
      }
    }

    method ExitNow(i: nat)
      requires Valid() && Possible(procs, init, Exit(i))
      modifies this`procs, this`exited
      ensures Valid() && Next(old(Now()), Exit(i), Now())
      ensures old(procs)[i].pid !in old(exited)
    {
      ExitedKeeps(procs, i, init);
      ExitedLedger(procs, i, init, nextpid, exited, reaped);
      exited := exited + {procs[i].pid};
      Wakeup1(OfProc(procs[i].parent.i));
      PassOn(i);
      procs := procs[i := procs[i].(state := Zombie)];
    }

    /** The loop of wait, up to where it returns or sleeps. */
    method Scan(i: nat) returns (r: Outcome)
      requires Valid() && Runs(i) && procs[i].job.Nothing?
      modifies this`procs, this`reaped, this`results
      ensures Valid() && Scanned(old(procs), procs, i, r, old(reaped), reaped) && (r.Reaped? ==> r.pid in exited)
      ensures results == old(results) + Answer(i, r)
    {
      var havekids := false;
      var c := 0;
      while c < |procs|
        invariant c <= |procs| && procs == old(procs) && reaped == old(reaped) && results == old(results)
        invariant havekids <==> exists k: nat :: k < c && procs[k].parent == Slot(i)
        invariant forall k: nat {:trigger procs[k]} | k < c && procs[k].parent == Slot(i) :: !procs[k].state.Zombie?
      {
        if procs[c].parent == Slot(i) {
          havekids := true;
          if procs[c].state.Zombie? {
            ReapedKeeps(procs, i, c, init);
            ReapedLedger(procs, i, c, nextpid, exited, reaped);
            r := Reaped(procs[c].pid);
            reaped := reaped[procs[c].pid := i];
            procs := procs[c := Freed(procs[c])];
            results := results + Answer(i, r);
            return;
          }
        }
        c := c + 1;
      }
      if !havekids || procs[i].killed {
        results := results + [Waited(i, -1)];
        return Refused;
      }
      SleptKeeps(procs, i, init);
      LedgerAlike(procs, procs[i := Slept(procs[i], i)], nextpid, exited, reaped);
      procs := procs[i := Slept(procs[i], i)];
      return Asleep;
    }

    /** One process moves among the able states, outside wait. */
    method Change(i: nat, p: Proc)
      requires Valid() && i < |procs| && p.pid == procs[i].pid && p.parent == procs[i].parent && Able(procs[i])
               && Able(p)
      requires p.job == procs[i].job || (!procs[i].job.Forking? && !p.job.Forking?)
      requires ForkAt(procs[i := p], i)
      requires p.state.Sleeping? && p.job.Waiting? ==> procs[i].state.Sleeping? && procs[i].job.Waiting?
      modifies this`procs
      ensures Valid() && procs == old(procs)[i := p]
    {
      ChangedKeeps(procs, i, p, init);
      LedgerAlike(procs, procs[i := p], nextpid, exited, reaped);
      procs := procs[i := p];
    }

    /** The scheduler switches to a process; one that was woken in wait scans again. */
    method SwitchTo(i: nat)
      requires Valid() && Possible(procs, init, Dispatch(i))
      modifies this`procs, this`reaped, this`results
      ensures Valid() && Next(old(Now()), Dispatch(i), Now())
    {
      assert ForkAt(procs, i);
      if procs[i].job.Waiting? {
        Change(i, procs[i].(state := Running, chan := NoChan, job := Nothing));
        var _ := Scan(i);
      } else {
        var qs := procs[i := procs[i].(state := Running, chan := NoChan)];
        assert ForkAt(qs, i);
        Change(i, procs[i].(state := Running, chan := NoChan));
      }
    }

    method YieldNow(i: nat)
      requires Valid() && Possible(procs, init, Yield(i))
      modifies this`procs
      ensures Valid() && Next(old(Now()), Yield(i), Now())
    {
      assert ForkAt(procs, i);
      Change(i, procs[i].(state := Runnable));
    }

    /** sleep on a channel other than a process. */
    method SleepOn(i: nat, c: nat)
      requires Valid() && Possible(procs, init, Sleep(i, c))
      modifies this`procs
      ensures Valid() && Next(old(Now()), Sleep(i, c), Now())
    {
      Change(i, procs[i].(state := Sleeping, chan := Other(c)));
    }

    method WakeupAll(c: nat)
      requires Valid()
      modifies this`procs
      ensures Valid() && Next(old(Now()), Wakeup(c), Now())
    {
      WokenKeeps(procs, Other(c), init);
      LedgerAlike(procs, Woken(procs, Other(c)), nextpid, exited, reaped);
      Wakeup1(Other(c));
    }

    /** The first slot with that pid, unused ones included, is killed and woken. */
    method KillPid(pid: int) returns (ok: bool)
      requires Valid()
      modifies this`procs, this`results
      ensures Valid() && Next(old(Now()), Kill(pid), Now())
      ensures ok <==> exists k: nat :: k < |old(procs)| && old(procs)[k].pid == pid
    {
      var k := 0;
      while k < |procs|
        invariant k <= |procs| && procs == old(procs) && results == old(results)
        invariant forall j: nat | j < k :: procs[j].pid != pid
      {
        if procs[k].pid == pid {
          var p := procs[k].(killed := true, state := if procs[k].state.Sleeping? then Runnable else procs[k].state);
          assert ForkAt(procs, k);
          assert ForkAt(procs[k := p], k);
          ChangedKeeps(procs, k, p, init);
          LedgerAlike(procs, procs[k := p], nextpid, exited, reaped);
          procs := procs[k := p];
          results := results + [Killed(pid, 0)];
          return true;
        }
        k := k + 1;
      }
      results := results + [Killed(pid, -1)];
      return false;
    }

    method Perform(s: Step)
      requires Valid()
      modifies this
      ensures Valid() && StepTo(old(Now()), s, Now())
    {
      if Possible(procs, init, s) {
        if s.Fork? || s.ForkFails? || s.ForkLinks? || s.ForkEnds? { PerformFork(s); } else { PerformOther(s); }
      }
    }

    method PerformFork(s: Step)
      requires Valid() && Possible(procs, init, s) && (s.Fork? || s.ForkFails? || s.ForkLinks? || s.ForkEnds?)
      modifies this
      ensures Valid() && Next(old(Now()), s, Now())
    {
      match s
      case Fork(i) => var _ := ForkBegin(i);
      case ForkFails(i) => ForkFail(i);
      case ForkLinks(i) => ForkLink(i);
      case ForkEnds(i) => var _ := ForkEnd(i);
    }

    method PerformOther(s: Step)
      requires Valid() && Possible(procs, init, s) && !(s.Fork? || s.ForkFails? || s.ForkLinks? || s.ForkEnds?)
      modifies this
      ensures Valid() && Next(old(Now()), s, Now())
    {
      match s
      case Dispatch(i) => SwitchTo(i);
      case Yield(i) => YieldNow(i);
      case Sleep(i, c) => SleepOn(i, c);
      case Wakeup(c) => WakeupAll(c);
      case Kill(pid) => var _ := KillPid(pid);
      case Exit(i) => ExitNow(i);
      case Wait(i) => var _ := Scan(i);
    }
  }

  /** The run of the kernel through any steps, in which every state is sound. */
  method Run(n: nat, steps: seq<Step>) returns (t: Table, ghost trace: Trace<Kernel, Step>)
    requires n > 0
    ensures fresh(t) && IsRun(n, trace) && StepsOf(trace) == steps && trace.s == t.Now()
  {
    t := new Table(n);
    trace := Begin(t.Now());
    for k := 0 to |steps|
      invariant fresh(t) && t.Valid()
      invariant IsRun(n, trace) && StepsOf(trace) == steps[..k] && trace.s == t.Now()
    {
      t.Perform(steps[k]);
      RunOn(n, trace, steps[k], t.Now());
      trace := Then(trace, steps[k], t.Now());
      NextStep(steps, k);
    }
    AllSteps(steps);
  }

  /** In a sound state each live process but init has a parent that is neither unused nor a zombie,
      who sleeps in wait has children but no zombie among them, and a pid that has exited is either
      returned by wait or a zombie's. */
  lemma StateSafe(s: Kernel)
    requires KernelOk(s)
    ensures forall i: nat {:trigger LookedAfter(s.procs, i)} | i < |s.procs| && i != s.init
            && (Able(s.procs[i]) || s.procs[i].state.Zombie?) ::
              LookedAfter(s.procs, i)
    ensures forall i: nat {:trigger s.procs[i]} | i < |s.procs| && s.procs[i].state.Sleeping?
            && s.procs[i].chan == OfProc(i) ::
              NoZombieChild(s.procs, i) && HasChild(s.procs, i)
    ensures forall q: nat | q in s.exited :: (q in s.reaped) != IsZombie(s.procs, q)
  {
    forall i: nat | i < |s.procs| && i != s.init && (Able(s.procs[i]) || s.procs[i].state.Zombie?)
        ensures LookedAfter(s.procs, i) {
      assert RaisedAt(s.procs, s.init, i);
    }
    forall i: nat | i < |s.procs| && s.procs[i].state.Sleeping? && s.procs[i].chan == OfProc(i)
      ensures NoZombieChild(s.procs, i) && HasChild(s.procs, i)
    {
      assert ForkAt(s.procs, i) && WaitAt(s.procs, i);
    }
    forall q: nat | q in s.exited ensures (q in s.reaped) != IsZombie(s.procs, q) {
      ReapedOrZombie(s.procs, s.exited, s.reaped, q);
    }
  }
}
