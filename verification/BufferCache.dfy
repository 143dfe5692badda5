/** The buffer cache and the disk driver, p2/xv6/kernel/bio.c and ide.c, with the processes
    that use them and a disk that completes the request at the head of the queue.

    A step is what one process, the disk or the interrupt handler does while it holds the lock.
    Every run of steps refines a flat array of sectors. */
module BufferCache {

  import opened Blocks
  import Traces

  const NBUF := 10
  const NULL := NBUF // also the list head of the ring

  datatype Key = Key(dev: nat, sector: nat)

  datatype Sector = Sector(bytes: Block)

  /** A buffer; `holder`, the process that has a busy one, and `changed`, whether it has modified
      it since it last agreed with its sector, are what the clients know. */
  datatype Buf = Buf(busy: bool, valid: bool, dirty: bool, dev: int, sector: nat, data: Sector, holder: nat,
                     changed: bool)

  /** What a process is doing. */
  datatype Proc =
    | Running
    | Wants(key: Key) // in bget, before looking
    | AsleepGet(key: Key, b: nat) // in bget, sleep(b)
    | NeedsIo(b: nat) // about to call iderw(b)
    | AsleepIo(b: nat) // in iderw, sleep(b)
    | AwakeIo(b: nat) // in iderw, woken

  datatype Device = Quiet | Working(key: Key, write: bool, data: Sector, done: bool)

  datatype Event = Returned(p: nat, key: Key, data: Sector) | Wrote(p: nat, key: Key, data: Sector)

  // ----- The ring of buffers

  function Succ(i: nat, n: nat): nat {
    if i + 1 == n then 0 else i + 1
  }

  /** The doubly linked circular list through the nodes c. */
  ghost predicate Ring(next: seq<nat>, prev: seq<nat>, c: seq<nat>) {
    && |next| == |prev|
    && (forall i: nat {:trigger c[i]} | i < |c| :: c[i] < |next|)
    && (forall i: nat, j: nat {:trigger c[i], c[j]} | i < j < |c| :: c[i] != c[j])
    && (forall i: nat {:trigger next[c[i]]} | i < |c| :: next[c[i]] == c[Succ(i, |c|)])
    && (forall i: nat {:trigger Succ(i, |c|)} | i < |c| :: prev[c[Succ(i, |c|)]] == c[i])
  }

  function Without(c: seq<nat>, i: nat): (r: seq<nat>)
    requires i < |c|
    ensures |r| == |c| - 1
    ensures forall j: nat {:trigger r[j]} | j < |r| :: r[j] == if j < i then c[j] else c[j + 1]
  {
    c[..i] + c[i + 1..]
  }

  /** b->next->prev = b->prev; b->prev->next = b->next */
  lemma RingWithout(next: seq<nat>, prev: seq<nat>, c: seq<nat>, i: nat, next1: seq<nat>, prev1: seq<nat>)
    requires Ring(next, prev, c) && 0 < i < |c|
    requires next[c[i]] < |prev| && prev[c[i]] < |next|
    requires prev1 == prev[next[c[i]] := prev[c[i]]] && next1 == next[prev[c[i]] := next[c[i]]]
    ensures Ring(next1, prev1, Without(c, i))
  {
    var d := Without(c, i);
    assert Succ(i - 1, |c|) == i && prev[c[i]] == c[i - 1];
    forall j: nat | j < |d|
      ensures next1[d[j]] == d[Succ(j, |d|)] && prev1[d[Succ(j, |d|)]] == d[j]
    {
      var k := if j < i then j else j + 1;
      assert next[c[k]] == c[Succ(k, |c|)] && prev[c[Succ(k, |c|)]] == c[k];
    }
  }

  function InFront(c: seq<nat>, b: nat): (r: seq<nat>)
    requires |c| > 0
    ensures |r| == |c| + 1 && r[0] == c[0] && r[1] == b
    ensures forall j: nat {:trigger r[j]} | 1 < j < |r| :: r[j] == c[j - 1]
  {
    [c[0], b] + c[1..]
  }

  /** b->next = head.next; b->prev = &head; head.next->prev = b; head.next = b */
  lemma RingInFront(next: seq<nat>, prev: seq<nat>, c: seq<nat>, b: nat, next1: seq<nat>, prev1: seq<nat>)
    requires Ring(next, prev, c) && |c| > 0 && b < |next| && b !in c && next[c[0]] < |prev|
    requires next1 == next[b := next[c[0]]][c[0] := b] && prev1 == prev[b := c[0]][next[c[0]] := b]
    ensures Ring(next1, prev1, InFront(c, b))
  {
    var d := InFront(c, b);
    forall j: nat | j < |d|
      ensures next1[d[j]] == d[Succ(j, |d|)] && prev1[d[Succ(j, |d|)]] == d[j]
    {
      var k := if j == 0 then 0 else j - 1;
      assert next[c[k]] == c[Succ(k, |c|)] && prev[c[Succ(k, |c|)]] == c[k];
    }
  }

  /** All buffers and the head are on the ring, each later one released earlier. */
  ghost predicate ByAge(c: seq<nat>, stamp: seq<nat>, clock: nat) {
    && |c| == NBUF + 1 && |stamp| == NBUF && c[0] == NULL
    && (forall b: nat {:trigger b in c} | b <= NBUF :: b in c)
    && (forall i: nat {:trigger c[i]} | 0 < i < |c| :: c[i] < NBUF && stamp[c[i]] < clock)
    && (forall i: nat, j: nat {:trigger c[i], c[j]} | 0 < i < j < |c| :: stamp[c[j]] < stamp[c[i]])
  }

  lemma StillThere(c: seq<nat>, i: nat, b: nat)
    requires 0 < i < |c| && b in c
    ensures b in InFront(Without(c, i), c[i])
  {
    var w := Without(c, i);
    var d := InFront(w, c[i]);
    var k :| 0 <= k < |c| && c[k] == b;
    if k == i {
      assert d[1] == b;
    } else {
      var j := if k < i then k else k - 1;
      assert w[j] == b;
      assert d[if j == 0 then 0 else j + 1] == b;
    }
  }

  /** A buffer that is released becomes the youngest. */
  lemma Released(c: seq<nat>, stamp: seq<nat>, clock: nat, i: nat)
    requires ByAge(c, stamp, clock) && 0 < i < |c|
    requires forall i: nat, j: nat {:trigger c[i], c[j]} | i < j < |c| :: c[i] != c[j]
    ensures ByAge(InFront(Without(c, i), c[i]), stamp[c[i] := clock], clock + 1)
    ensures c[i] !in Without(c, i)
  {
    var d := InFront(Without(c, i), c[i]);
    forall x: nat | x <= NBUF
      ensures x in d
    {
      assert x in c;
      StillThere(c, i, x);
    }
  }

  /** All the assignments of brelse together. */
  lemma Fronted(next: seq<nat>, prev: seq<nat>, c: seq<nat>, stamp: seq<nat>, clock: nat, b: nat) returns (d: seq<nat>)
    requires Ring(next, prev, c) && ByAge(c, stamp, clock) && b < NBUF && |next| == NBUF + 1
    ensures next[b] < |prev| && prev[b] < |next| && next[b] != b
    ensures var next1, prev1 := next[prev[b] := next[b]], prev[next[b] := prev[b]];
            && next1[NULL] < |prev|
            && Ring(next1[b := next1[NULL]][NULL := b], prev1[b := NULL][next1[NULL] := b], d)
    ensures ByAge(d, stamp[b := clock], clock + 1) && d[1] == b
  {
    assert b in c;
    var i :| 0 <= i < |c| && c[i] == b;
    assert next[c[i]] == c[Succ(i, |c|)] && Succ(i - 1, |c|) == i;
    var next1, prev1 := next[prev[b] := next[b]], prev[next[b] := prev[b]];
    var rest := Without(c, i);
    RingWithout(next, prev, c, i, next1, prev1);
    Released(c, stamp, clock, i);
    assert next1[rest[0]] == rest[Succ(0, |rest|)];
    RingInFront(next1, prev1, rest, b, next1[b := next1[NULL]][NULL := b], prev1[b := NULL][next1[NULL] := b]);
    d := InFront(rest, b);
  }

  /** After binit the buffers are in the order of their addresses, backwards. */
  lemma FirstAges(c: seq<nat>, stamp: seq<nat>)
    requires |c| == NBUF + 1 && c[0] == NULL && forall i: nat {:trigger c[i]} | 0 < i <= NBUF :: c[i] == NBUF - i
    requires |stamp| == NBUF && forall b: nat | b < NBUF :: stamp[b] == b
    ensures ByAge(c, stamp, NBUF)
  {
    forall b: nat | b <= NBUF
      ensures b in c
    {
      assert c[if b == NULL then 0 else NBUF - b] == b;
    }
  }

  // ----- The disk queue

  /** idequeue and the qnext links spell out q. */
  ghost predicate Queue(idequeue: nat, qnext: seq<nat>, q: seq<nat>) {
    && |qnext| == NBUF
    && (forall i: nat {:trigger q[i]} | i < |q| :: q[i] < NBUF)
    && (forall i: nat, j: nat {:trigger q[i], q[j]} | i < j < |q| :: q[i] != q[j])
    && idequeue == (if q == [] then NULL else q[0])
    && (forall i: nat {:trigger qnext[q[i]]} | i < |q| :: qnext[q[i]] == if i == |q| - 1 then NULL else q[i + 1])
  }

  // ----- Wakeups

  function Woken(p: Proc, b: nat): Proc {
    if p.AsleepGet? && p.b == b then Wants(p.key) else if p.AsleepIo? && p.b == b then AwakeIo(b) else p
  }

  ghost predicate AllWoken(procs: seq<Proc>, b: nat, procs1: seq<Proc>) {
    |procs1| == |procs| && forall p: nat {:trigger procs1[p]} | p < |procs1| :: procs1[p] == Woken(procs[p], b)
  }

  // ----- What holds between steps

  function KeyOf(b: Buf): Key
    requires b.dev >= 0
  {
    Key(b.dev, b.sector)
  }

  /** No sector is cached twice. */
  ghost predicate CachedOnce(bufs: seq<Buf>) {
    forall b: nat, c: nat {:trigger bufs[b], bufs[c]} | b < c < |bufs| && bufs[b].dev >= 0 && bufs[c].dev >= 0 ::
      KeyOf(bufs[b]) != KeyOf(bufs[c])
  }

  /** A buffer against the flat sector array. */
  ghost predicate BufOk(bufs: seq<Buf>, procs: seq<Proc>, q: seq<nat>, flat: map<Key, Sector>, b: nat)
    requires b < |bufs|
  {
    var f := bufs[b];
    && (f.dev >= 0 ==> KeyOf(f) in flat)
    && (!f.busy ==> !f.dirty && b !in q && !f.changed && (f.valid <==> f.dev >= 0))
    && (f.busy ==> f.dev >= 0 && f.holder < |procs|)
    && (b in q ==> f.busy && (f.dirty || !f.valid) && procs[f.holder] == AsleepIo(b))
    && (f.busy && b !in q && (f.dirty || !f.valid) ==> procs[f.holder] == NeedsIo(b))
    && (f.dirty ==> f.valid && !f.changed)
    && (!f.valid ==> !f.changed)
    && (f.busy && procs[f.holder] == AwakeIo(b) ==> !f.changed)
    && (f.valid && !f.changed && f.dev >= 0 ==> f.data == flat[KeyOf(f)])
  }

  ghost predicate ProcOk(bufs: seq<Buf>, procs: seq<Proc>, q: seq<nat>, flat: map<Key, Sector>, p: nat)
    requires p < |procs|
  {
    match procs[p]
    case Running => true
    case Wants(key) => key in flat
    case AsleepGet(key, b) => b < |bufs| && bufs[b].busy && bufs[b].dev >= 0 && KeyOf(bufs[b]) == key && key in flat
    case NeedsIo(b) => b < |bufs| && bufs[b].busy && bufs[b].holder == p && b !in q && (bufs[b].dirty || !bufs[b].valid)
    case AsleepIo(b) => b < |bufs| && bufs[b].busy && bufs[b].holder == p && b in q
    case AwakeIo(b) => b < |bufs| && bufs[b].busy && bufs[b].holder == p && b !in q && bufs[b].valid && !bufs[b].dirty
  }

  /** The disk works on the head of the queue; what it has done is done. */
  ghost predicate DeviceOk(bufs: seq<Buf>, q: seq<nat>, device: Device, disk: map<Key, Sector>) {
    match device
    case Quiet => q == []
    case Working(key, write, data, done) =>
      && q != [] && q[0] < |bufs| && bufs[q[0]].dev >= 0 && key == KeyOf(bufs[q[0]]) && key in disk
      && write == bufs[q[0]].dirty && (write ==> data == bufs[q[0]].data) && (done ==> disk[key] == data)
  }

  ghost predicate PendingAt(bufs: seq<Buf>, k: Key, b: nat) {
    b < |bufs| && bufs[b].dirty && bufs[b].dev >= 0 && KeyOf(bufs[b]) == k
  }

  ghost predicate Pending(bufs: seq<Buf>, k: Key) {
    exists b: nat :: PendingAt(bufs, k, b)
  }

  /** A sector on disk is out of date only while a buffer with its new contents waits to be written. */
  ghost predicate DiskOk(bufs: seq<Buf>, disk: map<Key, Sector>, flat: map<Key, Sector>) {
    && disk.Keys == flat.Keys
    && forall k: Key {:trigger disk[k]} | k in disk ::
         disk[k] == flat[k] || Pending(bufs, k)
  }

  ghost predicate Inv(bufs: seq<Buf>, procs: seq<Proc>, q: seq<nat>, device: Device, disk: map<Key, Sector>,
                      flat: map<Key, Sector>)
  {
    && |bufs| == NBUF
    && CachedOnce(bufs) && DeviceOk(bufs, q, device, disk) && DiskOk(bufs, disk, flat)
    && (forall b: nat {:trigger bufs[b]} | b < NBUF :: BufOk(bufs, procs, q, flat, b))
    && (forall p: nat {:trigger procs[p]} | p < |procs| :: ProcOk(bufs, procs, q, flat, p))
  }

  function Filled<T>(n: nat, x: T): (s: seq<T>)
    ensures |s| == n && forall i: nat | i < n :: s[i] == x
  {
    seq(n, _ => x)
  }

  lemma AtFirst(bufs: seq<Buf>, procs: seq<Proc>, disk: map<Key, Sector>)
    requires |bufs| == NBUF
    requires forall b: nat | b < NBUF ::
             && !bufs[b].changed && bufs[b].dev == -1 && !bufs[b].busy && !bufs[b].valid
             && !bufs[b].dirty
    requires forall p: nat | p < |procs| :: procs[p].Running?
    ensures Inv(bufs, procs, [], Quiet, disk, disk)
  {
    forall b: nat | b < NBUF
      ensures BufOk(bufs, procs, [], disk, b)
    {
      assert !bufs[b].busy;
    }
    forall p: nat | p < |procs|
      ensures ProcOk(bufs, procs, [], disk, p)
    {
      assert procs[p].Running?;
    }
  }

  // ----- Histories

  datatype History = Start | Then(past: History, e: Event)

  /** The flat array after the writes of a history. */
  function Flat(flat0: map<Key, Sector>, h: History): map<Key, Sector> {
    match h
    case Start => flat0
    case Then(past, e) => if e.Wrote? then Flat(flat0, past)[e.key := e.data] else Flat(flat0, past)
  }

  /** Every buffer handed out had the contents of its sector. */
  ghost predicate ReadsFlat(flat0: map<Key, Sector>, h: History) {
    match h
    case Start => true
    case Then(past, e) =>
      ReadsFlat(flat0, past) && (e.Returned? ==> e.key in Flat(flat0, past) && Flat(flat0, past)[e.key] == e.data)
  }

  ghost predicate Logged(flat0: map<Key, Sector>, h: History, flat: map<Key, Sector>) {
    flat == Flat(flat0, h) && ReadsFlat(flat0, h)
  }

  /** idestart */
  function Request(b: Buf): Device
    requires b.dev >= 0
  {
    Working(KeyOf(b), b.dirty, b.data, false)
  }

  /** What ideintr makes of the buffer whose request is done; data is what the disk has read. */
  function Finished(b: Buf, data: Sector): Buf {
    b.(data := if b.dirty then b.data else data, valid := true, dirty := false)
  }

  // ----- What each step keeps

  /** The request after the head is for a buffer with a sector. */
  lemma SecondRequest(bufs: seq<Buf>, procs: seq<Proc>, q: seq<nat>, device: Device, disk: map<Key, Sector>,
                      flat: map<Key, Sector>)
    requires Inv(bufs, procs, q, device, disk, flat)
    ensures |q| > 1 && q[1] < NBUF ==> bufs[q[1]].dev >= 0
  {
    if |q| > 1 && q[1] < NBUF {
      assert BufOk(bufs, procs, q, flat, q[1]) && q[1] in q;
    }
  }

  /** A process in iderw has a buffer with a sector. */
  lemma InIderw(bufs: seq<Buf>, procs: seq<Proc>, q: seq<nat>, device: Device, disk: map<Key, Sector>,
                flat: map<Key, Sector>, p: nat)
    requires Inv(bufs, procs, q, device, disk, flat) && p < |procs|
    requires procs[p].NeedsIo? || procs[p].AwakeIo?
    ensures procs[p].b < NBUF && procs[p].b !in q && bufs[procs[p].b].dev >= 0
    ensures var buf := bufs[procs[p].b];
            procs[p].AwakeIo? ==> KeyOf(buf) in flat && buf.data == flat[KeyOf(buf)] && buf.valid && !buf.dirty
  {
    assert ProcOk(bufs, procs, q, flat, p);
    assert BufOk(bufs, procs, q, flat, procs[p].b);
  }

  lemma BusyHasSector(bufs: seq<Buf>, procs: seq<Proc>, q: seq<nat>, device: Device, disk: map<Key, Sector>,
                      flat: map<Key, Sector>, b: nat)
    requires Inv(bufs, procs, q, device, disk, flat) && b < NBUF && bufs[b].busy
    ensures bufs[b].dev >= 0
  {
    assert BufOk(bufs, procs, q, flat, b);
  }

  /** bread is called. */
  lemma Called(bufs: seq<Buf>, procs: seq<Proc>, q: seq<nat>, device: Device, disk: map<Key, Sector>,
               flat: map<Key, Sector>,
               p: nat, key: Key, procs1: seq<Proc>)
    requires Inv(bufs, procs, q, device, disk, flat)
    requires p < |procs| && procs[p].Running? && key in flat
    requires procs1 == procs[p := Wants(key)]
    ensures Inv(bufs, procs1, q, device, disk, flat)
  {
    forall c: nat | c < NBUF
      ensures BufOk(bufs, procs1, q, flat, c)
    {
      assert BufOk(bufs, procs, q, flat, c);
    }
    forall r: nat | r < |procs1|
      ensures ProcOk(bufs, procs1, q, flat, r)
    {
      assert ProcOk(bufs, procs, q, flat, r);
    }
    if q != [] { assert q[0] in q; }
    forall k: Key | k in disk && disk[k] != flat[k]
      ensures Pending(bufs, k)
    {
      var c: nat :| PendingAt(bufs, k, c);
      assert PendingAt(bufs, k, c);
    }
  }

  /** bget finds the sector in an idle buffer. */
  lemma Found(bufs: seq<Buf>, procs: seq<Proc>, q: seq<nat>, device: Device, disk: map<Key, Sector>,
              flat: map<Key, Sector>,
              p: nat, b: nat, bufs1: seq<Buf>, procs1: seq<Proc>)
    requires Inv(bufs, procs, q, device, disk, flat)
    requires p < |procs| && b < NBUF && !bufs[b].busy && bufs[b].dev >= 0 && procs[p] == Wants(KeyOf(bufs[b]))
    requires bufs1 == bufs[b := bufs[b].(busy := true, holder := p)]
    requires procs1 == procs[p := Running]
    ensures bufs[b].valid && KeyOf(bufs[b]) in flat && bufs[b].data == flat[KeyOf(bufs[b])]
    ensures Inv(bufs1, procs1, q, device, disk, flat)
  {
    forall c: nat | c < NBUF
      ensures BufOk(bufs1, procs1, q, flat, c)
    {
      assert BufOk(bufs, procs, q, flat, c);
    }
    forall r: nat | r < |procs1|
      ensures ProcOk(bufs1, procs1, q, flat, r)
    {
      assert ProcOk(bufs, procs, q, flat, r);
    }
    if q != [] { assert q[0] in q; }
    forall k: Key | k in disk && disk[k] != flat[k]
      ensures Pending(bufs1, k)
    {
      var c: nat :| PendingAt(bufs, k, c);
      assert PendingAt(bufs1, k, c);
    }
  }

  /** bget recycles an idle buffer for a sector that is not cached. */
  lemma Recycled(bufs: seq<Buf>, procs: seq<Proc>, q: seq<nat>, device: Device, disk: map<Key, Sector>,
                 flat: map<Key, Sector>,
                 p: nat, b: nat, key: Key, bufs1: seq<Buf>, procs1: seq<Proc>)
    requires Inv(bufs, procs, q, device, disk, flat)
    requires p < |procs| && b < NBUF && !bufs[b].busy && procs[p] == Wants(key)
    requires forall c: nat {:trigger bufs[c]} | c < NBUF && bufs[c].dev >= 0 :: KeyOf(bufs[c]) != key
    requires bufs1 == bufs[b := Buf(true, false, false, key.dev, key.sector, bufs[b].data, p, false)]
    requires procs1 == procs[p := NeedsIo(b)]
    ensures Inv(bufs1, procs1, q, device, disk, flat)
  {
    assert ProcOk(bufs, procs, q, flat, p);
    forall c: nat | c < NBUF
      ensures BufOk(bufs1, procs1, q, flat, c)
    {
      assert BufOk(bufs, procs, q, flat, c);
    }
    forall r: nat | r < |procs1|
      ensures ProcOk(bufs1, procs1, q, flat, r)
    {
      assert ProcOk(bufs, procs, q, flat, r);
    }
    if q != [] { assert q[0] in q; }
    forall k: Key | k in disk && disk[k] != flat[k]
      ensures Pending(bufs1, k)
    {
      var c: nat :| PendingAt(bufs, k, c);
      assert PendingAt(bufs1, k, c);
    }
  }

  /** bget waits for the holder of the sector's buffer. */
  lemma Slept(bufs: seq<Buf>, procs: seq<Proc>, q: seq<nat>, device: Device, disk: map<Key, Sector>,
              flat: map<Key, Sector>,
              p: nat, b: nat, procs1: seq<Proc>)
    requires Inv(bufs, procs, q, device, disk, flat)
    requires p < |procs| && b < NBUF && bufs[b].busy && bufs[b].dev >= 0 && procs[p] == Wants(KeyOf(bufs[b]))
    requires procs1 == procs[p := AsleepGet(KeyOf(bufs[b]), b)]
    ensures Inv(bufs, procs1, q, device, disk, flat)
  {
    forall c: nat | c < NBUF
      ensures BufOk(bufs, procs1, q, flat, c)
    {
      assert BufOk(bufs, procs, q, flat, c);
    }
    forall r: nat | r < |procs1|
      ensures ProcOk(bufs, procs1, q, flat, r)
    {
      assert ProcOk(bufs, procs, q, flat, r);
    }
    if q != [] { assert q[0] in q; }
    forall k: Key | k in disk && disk[k] != flat[k]
      ensures Pending(bufs, k)
    {
      var c: nat :| PendingAt(bufs, k, c);
      assert PendingAt(bufs, k, c);
    }
  }

  /** iderw appends a buffer to the queue and waits. */
  lemma Enqueued(bufs: seq<Buf>, procs: seq<Proc>, q: seq<nat>, device: Device, disk: map<Key, Sector>,
                 flat: map<Key, Sector>,
                 p: nat, b: nat, procs1: seq<Proc>, q1: seq<nat>, device1: Device)
    requires Inv(bufs, procs, q, device, disk, flat)
    requires p < |procs| && procs[p] == NeedsIo(b) && b < NBUF && bufs[b].dev >= 0
    requires procs1 == procs[p := AsleepIo(b)]
    requires q1 == q + [b]
    requires device1 == if q == [] then Request(bufs[b]) else device
    ensures Inv(bufs, procs1, q1, device1, disk, flat)
  {
    assert ProcOk(bufs, procs, q, flat, p);
    assert forall x: nat {:trigger x in q1} :: x in q1 <==> x in q || x == b;
    forall c: nat | c < NBUF
      ensures BufOk(bufs, procs1, q1, flat, c)
    {
      assert BufOk(bufs, procs, q, flat, c);
    }
    forall r: nat | r < |procs1|
      ensures ProcOk(bufs, procs1, q1, flat, r)
    {
      assert ProcOk(bufs, procs, q, flat, r);
    }
    if q != [] { assert q[0] in q; }
    forall k: Key | k in disk && disk[k] != flat[k]
      ensures Pending(bufs, k)
    {
      var c: nat :| PendingAt(bufs, k, c);
      assert PendingAt(bufs, k, c);
    }
  }

  /** The disk carries out the request it has. */
  lemma Transferred(bufs: seq<Buf>, procs: seq<Proc>, q: seq<nat>, device: Device, disk: map<Key, Sector>,
                    flat: map<Key, Sector>,
                    device1: Device, disk1: map<Key, Sector>)
    requires Inv(bufs, procs, q, device, disk, flat)
    requires device.Working? && !device.done && device.key in disk
    requires device1 == device.(done := true, data := if device.write then device.data else disk[device.key])
    requires disk1 == if device.write then disk[device.key := device.data] else disk
    ensures Inv(bufs, procs, q, device1, disk1, flat)
  {
    forall c: nat | c < NBUF
      ensures BufOk(bufs, procs, q, flat, c)
    {
      assert BufOk(bufs, procs, q, flat, c);
    }
    forall r: nat | r < |procs|
      ensures ProcOk(bufs, procs, q, flat, r)
    {
      assert ProcOk(bufs, procs, q, flat, r);
    }
    if q != [] { assert q[0] in q; }
    forall k: Key | k in disk1 && disk1[k] != flat[k]
      ensures Pending(bufs, k)
    {
      var c: nat :| PendingAt(bufs, k, c);
      assert PendingAt(bufs, k, c);
    }
  }

  /** ideintr finishes the head of the queue and starts the next request. */
  lemma Interrupted(bufs: seq<Buf>, procs: seq<Proc>, q: seq<nat>, device: Device, disk: map<Key, Sector>,
                    flat: map<Key, Sector>,
                    b: nat, rest: seq<nat>, bufs1: seq<Buf>, procs1: seq<Proc>, q1: seq<nat>, device1: Device)
    requires Inv(bufs, procs, q, device, disk, flat)
    requires device.Working? && device.done && q == [b] + rest && b !in rest && b < NBUF
    requires rest != [] ==> rest[0] < NBUF && rest[0] != b && bufs[rest[0]].dev >= 0
    requires bufs1 == bufs[b := Finished(bufs[b], device.data)]
    requires AllWoken(procs, b, procs1)
    requires q1 == rest
    requires device1 == if rest == [] then Quiet else Request(bufs[rest[0]])
    ensures Inv(bufs1, procs1, q1, device1, disk, flat)
  {
    forall c: nat | c < NBUF
      ensures BufOk(bufs1, procs1, q1, flat, c)
    {
      assert BufOk(bufs, procs, q, flat, c);
    }
    forall r: nat | r < |procs1|
      ensures ProcOk(bufs1, procs1, q1, flat, r)
    {
      assert ProcOk(bufs, procs, q, flat, r);
    }
    if q != [] { assert q[0] in q; }
    forall k: Key | k in disk && disk[k] != flat[k]
      ensures Pending(bufs1, k)
    {
      var c: nat :| PendingAt(bufs, k, c);
      assert PendingAt(bufs1, k, c);
    }
  }

  /** iderw returns. */
  lemma Resumed(bufs: seq<Buf>, procs: seq<Proc>, q: seq<nat>, device: Device, disk: map<Key, Sector>,
                flat: map<Key, Sector>,
                p: nat, procs1: seq<Proc>)
    requires Inv(bufs, procs, q, device, disk, flat)
    requires p < |procs| && procs[p].AwakeIo?
    requires procs1 == procs[p := Running]
    ensures Inv(bufs, procs1, q, device, disk, flat)
  {
    forall c: nat | c < NBUF
      ensures BufOk(bufs, procs1, q, flat, c)
    {
      assert BufOk(bufs, procs, q, flat, c);
    }
    forall r: nat | r < |procs1|
      ensures ProcOk(bufs, procs1, q, flat, r)
    {
      assert ProcOk(bufs, procs, q, flat, r);
    }
    if q != [] { assert q[0] in q; }
    forall k: Key | k in disk && disk[k] != flat[k]
      ensures Pending(bufs, k)
    {
      var c: nat :| PendingAt(bufs, k, c);
      assert PendingAt(bufs, k, c);
    }
  }

  /** The holder changes the data of a valid buffer. */
  lemma Modified(bufs: seq<Buf>, procs: seq<Proc>, q: seq<nat>, device: Device, disk: map<Key, Sector>,
                 flat: map<Key, Sector>,
                 p: nat, b: nat, data: Sector, bufs1: seq<Buf>)
    requires Inv(bufs, procs, q, device, disk, flat)
    requires p < |procs| && procs[p].Running? && b < NBUF && bufs[b].busy && bufs[b].holder == p
    requires bufs1 == bufs[b := bufs[b].(data := data, changed := true)]
    ensures Inv(bufs1, procs, q, device, disk, flat)
  {
    forall c: nat | c < NBUF
      ensures BufOk(bufs1, procs, q, flat, c)
    {
      assert BufOk(bufs, procs, q, flat, c);
    }
    forall r: nat | r < |procs|
      ensures ProcOk(bufs1, procs, q, flat, r)
    {
      assert ProcOk(bufs, procs, q, flat, r);
    }
    if q != [] { assert q[0] in q; }
    forall k: Key | k in disk && disk[k] != flat[k]
      ensures Pending(bufs1, k)
    {
      var c: nat :| PendingAt(bufs, k, c);
      assert PendingAt(bufs1, k, c);
    }
  }

  /** bwrite marks the buffer dirty. */
  lemma Written(bufs: seq<Buf>, procs: seq<Proc>, q: seq<nat>, device: Device, disk: map<Key, Sector>,
                flat: map<Key, Sector>,
                p: nat, b: nat, bufs1: seq<Buf>, procs1: seq<Proc>, flat1: map<Key, Sector>)
    requires Inv(bufs, procs, q, device, disk, flat)
    requires p < |procs| && procs[p].Running? && b < NBUF && bufs[b].busy && bufs[b].holder == p && bufs[b].dev >= 0
    requires bufs1 == bufs[b := bufs[b].(dirty := true, changed := false)]
    requires procs1 == procs[p := NeedsIo(b)]
    requires flat1 == flat[KeyOf(bufs[b]) := bufs[b].data]
    ensures Inv(bufs1, procs1, q, device, disk, flat1)
  {
    forall c: nat | c < NBUF
      ensures BufOk(bufs1, procs1, q, flat1, c)
    {
      assert BufOk(bufs, procs, q, flat, c);
    }
    forall r: nat | r < |procs1|
      ensures ProcOk(bufs1, procs1, q, flat1, r)
    {
      assert ProcOk(bufs, procs, q, flat, r);
    }
    if q != [] { assert q[0] in q; }
    forall k: Key | k in disk && disk[k] != flat1[k]
      ensures Pending(bufs1, k)
    {
      assert k == KeyOf(bufs[b]) ==> PendingAt(bufs1, k, b);
      if k != KeyOf(bufs[b]) {
        var c: nat :| PendingAt(bufs, k, c);
        assert PendingAt(bufs1, k, c);
      }
    }
  }

  /** brelse gives back a buffer that agrees with its sector. */
  lemma GivenBack(bufs: seq<Buf>, procs: seq<Proc>, q: seq<nat>, device: Device, disk: map<Key, Sector>,
                  flat: map<Key, Sector>,
                  p: nat, b: nat, bufs1: seq<Buf>, procs1: seq<Proc>)
    requires Inv(bufs, procs, q, device, disk, flat)
    requires p < |procs| && procs[p].Running? && b < NBUF && bufs[b].busy && bufs[b].holder == p && !bufs[b].changed
    requires bufs1 == bufs[b := bufs[b].(busy := false)]
    requires AllWoken(procs, b, procs1)
    ensures Inv(bufs1, procs1, q, device, disk, flat)
  {
    forall c: nat | c < NBUF
      ensures BufOk(bufs1, procs1, q, flat, c)
    {
      assert BufOk(bufs, procs, q, flat, c);
    }
    forall r: nat | r < |procs1|
      ensures ProcOk(bufs1, procs1, q, flat, r)
    {
      assert ProcOk(bufs, procs, q, flat, r);
    }
    if q != [] { assert q[0] in q; }
    forall k: Key | k in disk && disk[k] != flat[k]
      ensures Pending(bufs1, k)
    {
      var c: nat :| PendingAt(bufs, k, c);
      assert PendingAt(bufs1, k, c);
    }
  }

  // ----- The cache

  datatype Step =
    | Call(p: nat, key: Key) // bread is called
    | Get(p: nat) // bget looks
    | Start(p: nat) // iderw queues
    | Transfer // the disk works
    | Interrupt // ideintr
    | Resume(p: nat) // iderw looks again
    | Modify(p: nat, b: nat, data: Sector)
    | Write(p: nat, b: nat) // bwrite is called
    | Release(p: nat, b: nat) // brelse

  datatype Got = Buffer | Recycling | Waiting | NoBuffers

  ghost predicate NotCached(bufs: seq<Buf>, key: Key) {
    forall x: nat {:trigger bufs[x]} | x < |bufs| && bufs[x].dev >= 0 :: KeyOf(bufs[x]) != key
  }

  /** b is the least recently released of the idle buffers. */
  ghost predicate Oldest(bufs: seq<Buf>, stamp: seq<nat>, b: nat)
    requires |bufs| == |stamp|
  {
    b < |bufs| && !bufs[b].busy && forall x: nat {:trigger bufs[x]} | x < |bufs| && !bufs[x].busy ::
        stamp[b] <= stamp[x]
  }

  // ----- Whole states, and what a step does to them

  /** The ring of buffers, its links and when each buffer was last released; the buffers; the
      request queue and its links; processes and device; the disk; the flat array; the history. */
  datatype State = State(next: seq<nat>, prev: seq<nat>, ring: seq<nat>, stamp: seq<nat>, clock: nat, bufs: seq<Buf>,
                         idequeue: nat, qnext: seq<nat>, q: seq<nat>, procs: seq<Proc>, device: Device,
                         disk: map<Key, Sector>, flat: map<Key, Sector>, events: History)

  ghost predicate StateOk(flat0: map<Key, Sector>, s: State) {
    && Ring(s.next, s.prev, s.ring) && |s.next| == NBUF + 1 && ByAge(s.ring, s.stamp, s.clock)
    && Queue(s.idequeue, s.qnext, s.q) && Logged(flat0, s.events, s.flat)
    && Inv(s.bufs, s.procs, s.q, s.device, s.disk, s.flat)
  }

  /** Which steps are possible.  Clients use buffers they hold, bwrite or brelse valid ones,
      and bwrite what they have changed before brelse. */
  predicate Possible(bufs: seq<Buf>, procs: seq<Proc>, device: Device, disk: map<Key, Sector>, step: Step) {
    match step
    case Call(p, key) => p < |procs| && procs[p].Running? && key in disk
    case Get(p) => p < |procs| && procs[p].Wants?
    case Start(p) => p < |procs| && procs[p].NeedsIo?
    case Transfer => device.Working? && !device.done
    case Interrupt => device.Working? && device.done
    case Resume(p) => p < |procs| && procs[p].AwakeIo?
    case Modify(p, b, _) => HeldBy(bufs, procs, p, b)
    case Write(p, b) => HeldBy(bufs, procs, p, b)
    case Release(p, b) => HeldBy(bufs, procs, p, b) && !bufs[b].changed
  }

  predicate HeldBy(bufs: seq<Buf>, procs: seq<Proc>, p: nat, b: nat) {
    p < |procs| && b < |bufs| && procs[p].Running? && bufs[b].busy && bufs[b].holder == p
  }

  ghost predicate AllBusy(bufs: seq<Buf>) {
    forall x: nat {:trigger bufs[x]} | x < |bufs| :: bufs[x].busy
  }

  /** What bget, called by process p, finds and does with buffer b. */
  ghost predicate Gotten(s: State, p: nat, r: Got, b: nat, t: State)
    requires p < |s.procs| && s.procs[p].Wants? && |s.bufs| == |s.stamp|
  {
    var key := s.procs[p].key;
    match r
    case Buffer =>
      && b < |s.bufs| && !s.bufs[b].busy && s.bufs[b].dev >= 0 && KeyOf(s.bufs[b]) == key
      && t == s.(bufs := s.bufs[b := s.bufs[b].(busy := true, holder := p)], procs := s.procs[p := Running],
                 events := Then(s.events, Returned(p, key, s.bufs[b].data)))
    case Waiting =>
      && b < |s.bufs| && s.bufs[b].busy && s.bufs[b].dev >= 0 && KeyOf(s.bufs[b]) == key
      && t == s.(procs := s.procs[p := AsleepGet(key, b)])
    case Recycling =>
      && NotCached(s.bufs, key) && Oldest(s.bufs, s.stamp, b)
      && t == s.(bufs := s.bufs[b := Buf(true, false, false, key.dev, key.sector, s.bufs[b].data, p, false)],
                 procs := s.procs[p := NeedsIo(b)])
    case NoBuffers => NotCached(s.bufs, key) && AllBusy(s.bufs) && t == s
  }

  /** iderw queues the buffer; an idle disk gets the request at once. */
  ghost predicate StartStep(s: State, p: nat, t: State)
    requires p < |s.procs| && s.procs[p].NeedsIo?
  {
    var b := s.procs[p].b;
    && b < |s.bufs| && s.bufs[b].dev >= 0
    && t == s.(idequeue := t.idequeue, qnext := t.qnext, q := s.q + [b], procs := s.procs[p := AsleepIo(b)],
               device := if s.q == [] then Request(s.bufs[b]) else s.device)
  }

  ghost predicate TransferStep(s: State, t: State)
    requires s.device.Working?
  {
    var d := s.device;
    && d.key in s.disk
    && t == s.(disk := if d.write then s.disk[d.key := d.data] else s.disk,
               device := d.(done := true, data := if d.write then d.data else s.disk[d.key]))
  }

  /** ideintr finishes the head of the queue, wakes its sleepers and starts the next request. */
  ghost predicate InterruptStep(s: State, t: State)
    requires s.device.Working?
  {
    && s.q != [] && s.q[0] < |s.bufs|
    && var bufs := s.bufs[s.q[0] := Finished(s.bufs[s.q[0]], s.device.data)];
       && (|s.q| > 1 ==> s.q[1] < |bufs| && bufs[s.q[1]].dev >= 0)
       && AllWoken(s.procs, s.q[0], t.procs)
       && t == s.(bufs := bufs, procs := t.procs, idequeue := t.idequeue, q := s.q[1..],
                  device := if |s.q| == 1 then Quiet else Request(bufs[s.q[1]]))
  }

  ghost predicate ResumeStep(s: State, p: nat, t: State)
    requires p < |s.procs| && s.procs[p].AwakeIo?
  {
    var b := s.procs[p].b;
    && b < |s.bufs| && s.bufs[b].dev >= 0
    && t == s.(procs := s.procs[p := Running], events := Then(s.events, Returned(p, KeyOf(s.bufs[b]), s.bufs[b].data)))
  }

  ghost predicate ModifyStep(s: State, b: nat, data: Sector, t: State)
    requires b < |s.bufs|
  {
    t == s.(bufs := s.bufs[b := s.bufs[b].(data := data, changed := true)])
  }

  ghost predicate WriteStep(s: State, p: nat, b: nat, t: State)
    requires p < |s.procs| && b < |s.bufs|
  {
    && s.bufs[b].dev >= 0
    && var key, data := KeyOf(s.bufs[b]), s.bufs[b].data;
       t == s.(bufs := s.bufs[b := s.bufs[b].(dirty := true, changed := false)], procs := s.procs[p := NeedsIo(b)],
               flat := s.flat[key := data], events := Then(s.events, Wrote(p, key, data)))
  }

  /** brelse puts the buffer in front of the ring and wakes who waits for it. */
  ghost predicate ReleaseStep(s: State, b: nat, t: State)
    requires b < |s.bufs|
  {
    && b < |s.stamp|
    && t == s.(next := t.next, prev := t.prev, ring := t.ring, stamp := s.stamp[b := s.clock], clock := s.clock + 1,
               bufs := s.bufs[b := s.bufs[b].(busy := false)], procs := t.procs)
    && |t.ring| > 1 && t.ring[1] == b && AllWoken(s.procs, b, t.procs)
  }

  ghost predicate Next(s: State, step: Step, t: State) {
    && Possible(s.bufs, s.procs, s.device, s.disk, step)
    && match step
       case Call(p, key) => t == s.(procs := s.procs[p := Wants(key)])
       case Get(p) =>
         |s.bufs| == |s.stamp| && exists r: Got, b: nat {:trigger Gotten(s, p, r, b, t)} :: Gotten(s, p, r, b, t)
       case Start(p) => StartStep(s, p, t)
       case Transfer => TransferStep(s, t)
       case Interrupt => InterruptStep(s, t)
       case Resume(p) => ResumeStep(s, p, t)
       case Modify(p, b, data) => ModifyStep(s, b, data, t)
       case Write(p, b) => WriteStep(s, p, b, t)
       case Release(p, b) => ReleaseStep(s, b, t)
  }

  ghost predicate StepTo(s: State, step: Step, t: State) {
    if Possible(s.bufs, s.procs, s.device, s.disk, step) then Next(s, step, t) else t == s
  }

  /** Each state follows from the one before by its step, or is the same when the step is not
      possible; and all are sound. */
  ghost predicate IsRun(nproc: nat, disk: map<Key, Sector>, t: Traces.Trace<State, Step>) {
    && StateOk(disk, t.s)
    && match t
       case Begin(s) =>
         && s.disk == s.flat == disk && s.procs == Filled(nproc, Running) && s.events == History.Start && s.q == []
            && s.device == Quiet
         && (forall b: nat {:trigger s.bufs[b]} | b < |s.bufs| :: s.bufs[b].dev < 0)
         && s.clock == NBUF && forall b: nat {:trigger s.stamp[b]} | b < |s.stamp| :: s.stamp[b] == b
       case Then(past, step, s) => IsRun(nproc, disk, past) && StepTo(past.s, step, s)
  }

  lemma Starting(s: State, p: nat, t: State)
    requires p < |s.procs| && s.procs[p].NeedsIo?
    requires s.procs[p].b < |s.bufs| && s.bufs[s.procs[p].b].dev >= 0
    requires t.next == s.next && t.prev == s.prev && t.ring == s.ring && t.stamp == s.stamp && t.clock == s.clock
    requires t.bufs == s.bufs && t.disk == s.disk && t.flat == s.flat && t.events == s.events
    requires t.q == s.q + [s.procs[p].b] && t.procs == s.procs[p := AsleepIo(s.procs[p].b)]
    requires t.device == if s.q == [] then Request(s.bufs[s.procs[p].b]) else s.device
    ensures StartStep(s, p, t)
  {
  }

  lemma Writing(s: State, p: nat, b: nat, t: State)
    requires p < |s.procs| && b < |s.bufs| && s.bufs[b].dev >= 0
    requires t.next == s.next && t.prev == s.prev && t.ring == s.ring && t.stamp == s.stamp && t.clock == s.clock
    requires t.idequeue == s.idequeue && t.qnext == s.qnext && t.q == s.q && t.device == s.device && t.disk == s.disk
    requires t.bufs == s.bufs[b := s.bufs[b].(dirty := true, changed := false)] && t.procs == s.procs[p := NeedsIo(b)]
    requires t.flat == s.flat[KeyOf(s.bufs[b]) := s.bufs[b].data]
    requires t.events == Then(s.events, Wrote(p, KeyOf(s.bufs[b]), s.bufs[b].data))
    ensures WriteStep(s, p, b, t)
  {
  }

  lemma Releasing(s: State, b: nat, t: State)
    requires b < |s.bufs| && b < |s.stamp|
    requires t.idequeue == s.idequeue && t.qnext == s.qnext && t.q == s.q && t.device == s.device && t.disk == s.disk
    requires t.flat == s.flat && t.events == s.events && t.stamp == s.stamp[b := s.clock] && t.clock == s.clock + 1
    requires t.bufs == s.bufs[b := s.bufs[b].(busy := false)] && AllWoken(s.procs, b, t.procs)
    requires |t.ring| > 1 && t.ring[1] == b
    ensures ReleaseStep(s, b, t)
  {
  }

  lemma Serving(s: State, t: State)
    requires s.device.Working? && s.q != [] && s.q[0] < |s.bufs|
    requires t.next == s.next && t.prev == s.prev && t.ring == s.ring && t.stamp == s.stamp && t.clock == s.clock
    requires t.qnext == s.qnext && t.disk == s.disk && t.flat == s.flat && t.events == s.events && t.q == s.q[1..]
    requires t.bufs == s.bufs[s.q[0] := Finished(s.bufs[s.q[0]], s.device.data)] && AllWoken(s.procs, s.q[0], t.procs)
    requires t.q != [] ==> t.q[0] < |t.bufs| && t.bufs[t.q[0]].dev >= 0
    requires t.device == if t.q == [] then Quiet else Request(t.bufs[t.q[0]])
    ensures InterruptStep(s, t)
  {
  }

  lemma RunOn(nproc: nat, disk: map<Key, Sector>, t: Traces.Trace<State, Step>, step: Step, s: State)
    requires IsRun(nproc, disk, t) && StateOk(disk, s) && StepTo(t.s, step, s)
    ensures IsRun(nproc, disk, Traces.Then(t, step, s))
  {
  }

  class Cache {
    var next: seq<nat>
    var prev: seq<nat>
    var bufs: seq<Buf>
    var idequeue: nat
    var qnext: seq<nat>
    var procs: seq<Proc>
    var device: Device
    var disk: map<Key, Sector>
    ghost var ring: seq<nat>
    ghost var stamp: seq<nat>
    ghost var clock: nat
    ghost var q: seq<nat>
    ghost var flat: map<Key, Sector>
    ghost var flat0: map<Key, Sector>
    ghost var events: History

    ghost predicate Ringed()
      reads this`next, this`prev, this`ring, this`stamp, this`clock
    {
      Ring(next, prev, ring) && |next| == NBUF + 1 && ByAge(ring, stamp, clock)
    }

    ghost predicate Queued()
      reads this`idequeue, this`qnext, this`q
    {
      Queue(idequeue, qnext, q)
    }

    ghost predicate Recorded()
      reads this`flat0, this`events, this`flat
    {
      Logged(flat0, events, flat)
    }

    ghost predicate Valid()
      reads this
    {
      Ringed() && Queued() && Recorded() && Inv(bufs, procs, q, device, disk, flat)
    }

    ghost function Now(): State
      reads this
    {
      State(next, prev, ring, stamp, clock, bufs, idequeue, qnext, q, procs, device, disk, flat, events)
    }

    constructor (nproc: nat, disk: map<Key, Sector>)
      ensures Valid() && flat0 == disk && IsRun(nproc, disk, Traces.Begin(Now()))
    {
      next, prev, ring := Filled(NBUF + 1, NULL), Filled(NBUF + 1, NULL), [NULL];
      bufs := Filled(NBUF, Buf(false, false, false, -1, 0, Sector(Zero()), 0, false));
      idequeue, qnext, q := NULL, Filled(NBUF, NULL), [];
      procs, device, this.disk := Filled(nproc, Running), Quiet, disk;
      stamp, clock := seq(NBUF, (b: nat) => b), NBUF;
      flat, flat0, events := disk, disk, History.Start;
      new;
      BInit();
      FirstAges(ring, stamp);
      AtFirst(bufs, procs, disk);
    }

    /** binit */
    method BInit()
      requires next == prev == Filled(NBUF + 1, NULL) && ring == [NULL]
      modifies this`next, this`prev, this`ring
      ensures Ring(next, prev, ring) && |next| == NBUF + 1
      ensures |ring| == NBUF + 1 && ring[0] == NULL && forall i: nat {:trigger ring[i]} | 0 < i <= NBUF ::
              ring[i] == NBUF - i
    {
      for b := 0 to NBUF
        invariant |ring| == b + 1 && ring[0] == NULL && forall i: nat {:trigger ring[i]} | 0 < i <= b ::
                  ring[i] == b - i
        invariant Ring(next, prev, ring) && |next| == NBUF + 1
      {
        assert next[ring[0]] == ring[Succ(0, |ring|)];
        ghost var next0, prev0 := next, prev;
        next := next[b := next[NULL]];
        prev := prev[b := NULL];
        prev := prev[next[NULL] := b];
        next := next[NULL := b];
        RingInFront(next0, prev0, ring, b, next, prev);
        ring := InFront(ring, b);
      }
    }

    /** The first loop of bget. */
    method FindCached(key: Key) returns (b: nat)
      requires Ringed() && |bufs| == NBUF
      ensures b <= NBUF
      ensures b != NULL ==> bufs[b].dev >= 0 && KeyOf(bufs[b]) == key
      ensures b == NULL ==> NotCached(bufs, key)
    {
      b := next[NULL];
      ghost var i := 1;
      assert next[ring[0]] == ring[Succ(0, |ring|)];
      while b != NULL
        invariant 0 < i <= |ring| && b == if i == |ring| then NULL else ring[i]
        invariant forall j: nat {:trigger ring[j]} | 0 < j < i && bufs[ring[j]].dev >= 0 :: KeyOf(bufs[ring[j]]) != key
        decreases |ring| - i
      {
        if bufs[b].dev == key.dev && bufs[b].sector == key.sector { return; }
        assert next[ring[i]] == ring[Succ(i, |ring|)];
        b := next[b];
        i := i + 1;
      }
      forall x: nat | x < NBUF && bufs[x].dev >= 0
        ensures KeyOf(bufs[x]) != key
      {
        assert x in ring;
      }
    }

    /** The second loop of bget: the least recently released idle buffer. */
    method FindIdle() returns (b: nat)
      requires Ringed() && |bufs| == NBUF
      ensures b <= NBUF
      ensures b != NULL ==> Oldest(bufs, stamp, b)
      ensures b == NULL ==> forall x: nat {:trigger bufs[x]} | x < NBUF :: bufs[x].busy
    {
      ghost var i := |ring| - 1;
      assert Succ(i, |ring|) == 0;
      b := prev[NULL];
      while b != NULL
        invariant 0 <= i < |ring| && b == ring[i]
        invariant forall j: nat {:trigger ring[j]} | i < j < |ring| :: bufs[ring[j]].busy
        decreases i
      {
        if !bufs[b].busy {
          forall x: nat | x < NBUF && !bufs[x].busy
            ensures stamp[b] <= stamp[x]
          {
            assert x in ring;
          }
          return;
        }
        assert Succ(i - 1, |ring|) == i;
        b := prev[b];
        i := i - 1;
      }
      forall x: nat | x < NBUF
        ensures bufs[x].busy
      {
        assert x in ring;
      }
    }

    /** wakeup */
    method Wakeup(b: nat)
      modifies this`procs
      ensures AllWoken(old(procs), b, procs)
    {
      ghost var procs0 := procs;
      for p := 0 to |procs|
        invariant |procs| == |procs0| && forall r: nat {:trigger procs[r]} | r < |procs| ::
                  procs[r] == if r < p then Woken(procs0[r], b) else procs0[r]
      {
        procs := procs[p := Woken(procs[p], b)];
      }
    }

    ghost method Log(e: Event)
      requires Recorded()
      requires e.Returned? ==> e.key in flat && flat[e.key] == e.data
      modifies this`events, this`flat
      ensures events == Then(old(events), e) && flat == (if e.Wrote? then old(flat)[e.key := e.data] else old(flat))
      ensures Recorded()
    {
      events := Then(events, e);
      flat := if e.Wrote? then flat[e.key := e.data] else flat;
    }

    method Call(p: nat, key: Key)
      requires Valid() && Enabled(Step.Call(p, key))
      modifies this`procs
      ensures Valid() && Next(old(Now()), Step.Call(p, key), Now())
    {
      Called(bufs, procs, q, device, disk, flat, p, key, procs[p := Wants(key)]);
      procs := procs[p := Wants(key)];
    }

    method Take(p: nat, b: nat)
      requires Recorded() && Inv(bufs, procs, q, device, disk, flat)
      requires p < |procs| && b < NBUF && !bufs[b].busy && bufs[b].dev >= 0 && procs[p] == Wants(KeyOf(bufs[b]))
      modifies this`bufs, this`procs, this`events, this`flat
      ensures Recorded() && Inv(bufs, procs, q, device, disk, flat)
      ensures procs == old(procs)[p := Running] && flat == old(flat)
      ensures bufs == old(bufs)[b := old(bufs)[b].(busy := true, holder := p)]
      ensures events == Then(old(events), Returned(p, old(procs)[p].key, old(bufs)[b].data))
    {
      ghost var bufs1, procs1 := bufs[b := bufs[b].(busy := true, holder := p)], procs[p := Running];
      Found(bufs, procs, q, device, disk, flat, p, b, bufs1, procs1);
      Log(Returned(p, KeyOf(bufs[b]), bufs[b].data));
      bufs := bufs[b := bufs[b].(busy := true, holder := p)];
      procs := procs[p := if bufs[b].valid then Running else NeedsIo(b)];
    }

    method Recycle(p: nat, b: nat, key: Key)
      requires Inv(bufs, procs, q, device, disk, flat) && NotCached(bufs, key)
      requires p < |procs| && procs[p] == Wants(key) && b < NBUF && !bufs[b].busy
      modifies this`bufs, this`procs
      ensures Inv(bufs, procs, q, device, disk, flat)
      ensures procs == old(procs)[p := NeedsIo(b)]
      ensures bufs == old(bufs)[b := Buf(true, false, false, key.dev, key.sector, old(bufs)[b].data, p, false)]
    {
      var buf := Buf(true, false, false, key.dev, key.sector, bufs[b].data, p, false);
      Recycled(bufs, procs, q, device, disk, flat, p, b, key, bufs[b := buf], procs[p := NeedsIo(b)]);
      bufs, procs := bufs[b := buf], procs[p := NeedsIo(b)];
    }

    /** bget, up to where it returns, sleeps or gives up; bread goes on to iderw when the buffer is new. */
    method Get(p: nat) returns (r: Got, b: nat)
      requires Valid() && Enabled(Step.Get(p))
      modifies this`bufs, this`procs, this`events, this`flat
      ensures Valid() && Gotten(old(Now()), p, r, b, Now())
    {
      r, b := Look(p);
    }

    method Look(p: nat) returns (r: Got, b: nat)
      requires Ringed() && Recorded() && Inv(bufs, procs, q, device, disk, flat) && p < |procs| && procs[p].Wants?
      modifies this`bufs, this`procs, this`events, this`flat
      ensures Recorded() && Inv(bufs, procs, q, device, disk, flat) && Gotten(old(Now()), p, r, b, Now())
    {
      var key := procs[p].key;
      b := FindCached(key);
      if b != NULL {
        if !bufs[b].busy {
          Take(p, b);
          return Buffer, b;
        }
        Slept(bufs, procs, q, device, disk, flat, p, b, procs[p := AsleepGet(key, b)]);
        procs := procs[p := AsleepGet(key, b)];
        return Waiting, b;
      }
      b := FindIdle();
      if b == NULL { return NoBuffers, b; }
      Recycle(p, b, key);
      r := Recycling;
    }

    /** The walk of iderw to the end of the queue. */
    method Append(b: nat)
      requires Queued() && b < NBUF && b !in q
      modifies this`idequeue, this`qnext, this`q
      ensures Queued() && q == old(q) + [b] && (idequeue == b <==> old(q) == [])
    {
      qnext := qnext[b := NULL];
      if idequeue == NULL {
        idequeue := b;
      } else {
        var c := idequeue;
        ghost var i := 0;
        while qnext[c] != NULL
          invariant i < |q| && c == q[i] && qnext == old(qnext)[b := NULL]
          decreases |q| - i
        {
          assert i < |q| - 1;
          c := qnext[c];
          i := i + 1;
        }
        qnext := qnext[c := b];
      }
      q := q + [b];
    }

    /** iderw, up to where it sleeps. */
    method Start(p: nat)
      requires Valid() && Enabled(Step.Start(p))
      modifies this`idequeue, this`qnext, this`q, this`procs, this`device
      ensures Valid() && StartStep(old(Now()), p, Now())
    {
      ghost var s := Now();
      StartIo(p);
      Starting(s, p, Now());
    }

    method StartIo(p: nat)
      requires Queued() && Inv(bufs, procs, q, device, disk, flat) && p < |procs| && procs[p].NeedsIo?
      modifies this`idequeue, this`qnext, this`q, this`procs, this`device
      ensures Queued() && Inv(bufs, procs, q, device, disk, flat)
      ensures old(procs)[p].b < |bufs| && bufs[old(procs)[p].b].dev >= 0
      ensures procs == old(procs)[p := AsleepIo(old(procs)[p].b)] && q == old(q) + [old(procs)[p].b]
      ensures device == if old(q) == [] then Request(bufs[old(procs)[p].b]) else old(device)
    {
      InIderw(bufs, procs, q, device, disk, flat, p);
      var b := procs[p].b;
      ghost var device1 := if q == [] then Request(bufs[b]) else device;
      Enqueued(bufs, procs, q, device, disk, flat, p, b, procs[p := AsleepIo(b)], q + [b], device1);
      Append(b);
      procs, device := procs[p := AsleepIo(b)], if idequeue == b then Request(bufs[b]) else device;
    }

    /** The disk reads or writes a sector and raises its interrupt. */
    method Transfer()
      requires Valid() && Enabled(Step.Transfer)
      modifies this`disk, this`device
      ensures Valid() && TransferStep(old(Now()), Now())
    {
      var disk1 := if device.write then disk[device.key := device.data] else disk;
      var device1 := device.(done := true, data := if device.write then device.data else disk[device.key]);
      Transferred(bufs, procs, q, device, disk, flat, device1, disk1);
      disk, device := disk1, device1;
    }

    /** The first half of ideintr: the head leaves the queue, its request done. */
    method Pop() returns (b: nat)
      requires Queued() && q != [] && |bufs| == NBUF && device.Working?
      modifies this`idequeue, this`q, this`bufs
      ensures b == old(q)[0] && b !in q && b < NBUF && q == old(q)[1..] && Queued() && idequeue == if q == [] then NULL
              else q[0]
      ensures bufs == old(bufs)[b := Finished(old(bufs)[b], device.data)]
    {
      b := idequeue;
      assert qnext[q[0]] == if |q| == 1 then NULL else q[1];
      idequeue, q := qnext[b], q[1..];
      var buf := bufs[b];
      if !buf.dirty { buf := buf.(data := device.data); }
      bufs := bufs[b := buf.(valid := true, dirty := false)];
    }

    /** ideintr */
    method Interrupt()
      requires Valid() && Enabled(Step.Interrupt)
      modifies this`bufs, this`procs, this`idequeue, this`q, this`device
      ensures Valid() && InterruptStep(old(Now()), Now())
    {
      ghost var s := Now();
      Serve();
      Serving(s, Now());
    }

    method Serve()
      requires Queued() && Inv(bufs, procs, q, device, disk, flat) && device.Working? && device.done
      modifies this`bufs, this`procs, this`idequeue, this`q, this`device
      ensures Queued() && Inv(bufs, procs, q, device, disk, flat)
      ensures old(q) != [] && old(q)[0] < |bufs| && (q != [] ==> q[0] < |bufs| && bufs[q[0]].dev >= 0)
      ensures q == old(q)[1..] && AllWoken(old(procs), old(q)[0], procs)
      ensures bufs == old(bufs)[old(q)[0] := Finished(old(bufs)[old(q)[0]], old(device).data)]
      ensures device == if q == [] then Quiet else Request(bufs[q[0]])
    {
      if idequeue == NULL { return; }
      SecondRequest(bufs, procs, q, device, disk, flat);
      var b := Pop();
      Wakeup(b);
      device := if idequeue != NULL then Request(bufs[idequeue]) else Quiet;
      assert old(q) == [b] + q;
      Interrupted(old(bufs), old(procs), old(q), old(device), disk, flat, b, q, bufs, procs, q, device);
    }

    /** iderw looks at the flags again. */
    method Resume(p: nat)
      requires Valid() && Enabled(Step.Resume(p))
      modifies this`procs, this`events, this`flat
      ensures Valid() && ResumeStep(old(Now()), p, Now())
    {
      InIderw(bufs, procs, q, device, disk, flat, p);
      var b := procs[p].b;
      Resumed(bufs, procs, q, device, disk, flat, p, procs[p := Running]);
      Log(Returned(p, KeyOf(bufs[b]), bufs[b].data));
      procs := procs[p := if bufs[b].valid && !bufs[b].dirty then Running else AsleepIo(b)];
    }

    /** The process that has the buffer writes to its data. */
    method Modify(p: nat, b: nat, data: Sector)
      requires Valid() && Enabled(Step.Modify(p, b, data))
      modifies this`bufs
      ensures Valid() && ModifyStep(old(Now()), b, data, Now())
    {
      Modified(bufs, procs, q, device, disk, flat, p, b, data, bufs[b := bufs[b].(data := data, changed := true)]);
      bufs := bufs[b := bufs[b].(data := data, changed := true)];
    }

    /** bwrite, up to its call of iderw. */
    method Write(p: nat, b: nat)
      requires Valid() && Enabled(Step.Write(p, b))
      modifies this`bufs, this`procs, this`flat, this`events
      ensures Valid() && WriteStep(old(Now()), p, b, Now())
    {
      ghost var s := Now();
      WriteOut(p, b);
      Writing(s, p, b, Now());
    }

    method WriteOut(p: nat, b: nat)
      requires Recorded() && Inv(bufs, procs, q, device, disk, flat) && HeldBy(bufs, procs, p, b)
      modifies this`bufs, this`procs, this`flat, this`events
      ensures Recorded() && Inv(bufs, procs, q, device, disk, flat) && old(bufs)[b].dev >= 0
      ensures bufs == old(bufs)[b := old(bufs)[b].(dirty := true, changed := false)]
              && procs == old(procs)[p := NeedsIo(b)]
      ensures flat == old(flat)[KeyOf(old(bufs)[b]) := old(bufs)[b].data]
      ensures events == Then(old(events), Wrote(p, KeyOf(old(bufs)[b]), old(bufs)[b].data))
    {
      BusyHasSector(bufs, procs, q, device, disk, flat, b);
      ghost var key := KeyOf(bufs[b]);
      Written(bufs, procs, q, device, disk, flat, p, b,
              bufs[b := bufs[b].(dirty := true, changed := false)], procs[p := NeedsIo(b)], flat[key := bufs[b].data]);
      Log(Wrote(p, key, bufs[b].data));
      bufs, procs := bufs[b := bufs[b].(dirty := true, changed := false)], procs[p := NeedsIo(b)];
    }

    /** The list surgery of brelse. */
    method MoveToFront(b: nat)
      requires Ringed() && b < NBUF
      modifies this`next, this`prev, this`ring, this`stamp, this`clock
      ensures Ringed() && stamp == old(stamp)[b := old(clock)] && clock == old(clock) + 1 && |ring| > 1 && ring[1] == b
    {
      ghost var d := Fronted(next, prev, ring, stamp, clock, b);
      prev := prev[next[b] := prev[b]];
      next := next[prev[b] := next[b]];
      next, prev := next[b := next[NULL]], prev[b := NULL];
      prev := prev[next[NULL] := b];
      next := next[NULL := b];
      ring, stamp, clock := d, stamp[b := clock], clock + 1;
    }

    /** brelse; the buffer must agree with its sector again. */
    method Release(p: nat, b: nat)
      requires Valid() && Enabled(Step.Release(p, b))
      modifies this`next, this`prev, this`ring, this`stamp, this`clock, this`bufs, this`procs
      ensures Valid() && ReleaseStep(old(Now()), b, Now())
    {
      ghost var s := Now();
      ReturnBuffer(p, b);
      Releasing(s, b, Now());
    }

    method ReturnBuffer(p: nat, b: nat)
      requires Valid() && HeldBy(bufs, procs, p, b) && !bufs[b].changed
      modifies this`next, this`prev, this`ring, this`stamp, this`clock, this`bufs, this`procs
      ensures Valid() && stamp == old(stamp)[b := old(clock)] && clock == old(clock) + 1 && |ring| > 1 && ring[1] == b
      ensures bufs == old(bufs)[b := old(bufs)[b].(busy := false)] && AllWoken(old(procs), b, procs)
    {
      MoveToFront(b);
      GiveBack(p, b);
    }

    method GiveBack(p: nat, b: nat)
      requires Inv(bufs, procs, q, device, disk, flat) && HeldBy(bufs, procs, p, b) && !bufs[b].changed
      modifies this`bufs, this`procs
      ensures Inv(bufs, procs, q, device, disk, flat)
      ensures bufs == old(bufs)[b := old(bufs)[b].(busy := false)] && AllWoken(old(procs), b, procs)
    {
      bufs := bufs[b := bufs[b].(busy := false)];
      Wakeup(b);
      GivenBack(old(bufs), old(procs), q, device, disk, flat, p, b, bufs, procs);
    }

    /** Nobody waits for something that will not happen: a sleeper in bget waits for a buffer
        with its sector that is in use, a sleeper in iderw for a queued request, and a nonempty
        queue has the disk at work on its head. */
    lemma NobodyStuck()
      requires Valid()
      ensures forall p: nat | p < |procs| && procs[p].AsleepGet? ::
                procs[p].b < NBUF && bufs[procs[p].b].busy && bufs[procs[p].b].dev >= 0
                    && KeyOf(bufs[procs[p].b]) == procs[p].key
      ensures forall p: nat | p < |procs| && procs[p].AsleepIo? :: procs[p].b in q
      ensures idequeue != NULL ==> device.Working? && q != [] && bufs[q[0]].dev >= 0 && device.key == KeyOf(bufs[q[0]])
    {
      forall p: nat | p < |procs|
        ensures ProcOk(bufs, procs, q, flat, p)
      {
        assert procs[p] == procs[p];
      }
    }

    predicate Enabled(s: Step)
      reads this
    {
      Possible(bufs, procs, device, disk, s)
    }

    method Perform(s: Step)
      requires Valid()
      modifies this
      ensures Valid() && flat0 == old(flat0)
      ensures if Possible(old(bufs), old(procs), old(device), old(disk), s) then Next(old(Now()), s, Now())
              else Now() == old(Now())
    {
      if Enabled(s) {
        if s.Start? || s.Resume? {
          PerformIo(s);
        } else if s.Transfer? || s.Interrupt? {
          PerformDisk(s);
        } else if s.Call? || s.Get? {
          PerformGet(s);
        } else {
          PerformUse(s);
        }
      }
    }

    method PerformGet(s: Step)
      requires Valid() && Enabled(s) && (s.Call? || s.Get?)
      modifies this
      ensures Valid() && flat0 == old(flat0) && Next(old(Now()), s, Now())
    {
      match s
      case Call(p, key) => Call(p, key);
      case Get(p) => var _, _ := Get(p);
    }

    method PerformUse(s: Step)
      requires Valid() && Enabled(s) && (s.Modify? || s.Write? || s.Release?)
      modifies this
      ensures Valid() && flat0 == old(flat0) && Next(old(Now()), s, Now())
    {
      match s
      case Modify(p, b, data) => Modify(p, b, data);
      case Write(p, b) => Write(p, b);
      case Release(p, b) => Release(p, b);
    }

    method PerformIo(s: Step)
      requires Valid() && Enabled(s) && (s.Start? || s.Resume?)
      modifies this
      ensures Valid() && flat0 == old(flat0) && Next(old(Now()), s, Now())
    {
      match s
      case Start(p) => Start(p);
      case Resume(p) => Resume(p);
    }

    method PerformDisk(s: Step)
      requires Valid() && Enabled(s) && (s.Transfer? || s.Interrupt?)
      modifies this
      ensures Valid() && flat0 == old(flat0) && Next(old(Now()), s, Now())
    {
      match s
      case Transfer => Transfer();
      case Interrupt => Interrupt();
    }
  }

  /** The run of any number of processes on any disk through any steps, in which every state is sound:
      what processes read and write is a history of one flat sector array. */
  method Run(nproc: nat, disk: map<Key, Sector>, steps: seq<Step>)
    returns (cache: Cache, ghost trace: Traces.Trace<State, Step>)
    ensures fresh(cache) && IsRun(nproc, disk, trace) && Traces.StepsOf(trace) == steps && trace.s == cache.Now()
  {
    cache := new Cache(nproc, disk);
    trace := Traces.Begin(cache.Now());
    for k := 0 to |steps|
      invariant fresh(cache) && cache.Valid() && cache.flat0 == disk
      invariant IsRun(nproc, disk, trace) && Traces.StepsOf(trace) == steps[..k] && trace.s == cache.Now()
    {
      cache.Perform(steps[k]);
      RunOn(nproc, disk, trace, steps[k], cache.Now());
      trace := Traces.Then(trace, steps[k], cache.Now());
      Traces.NextStep(steps, k);
    }
    Traces.AllSteps(steps);
  }

  /** In a sound state no sector is cached twice, an idle buffer that is valid has its sector's
      value, and every read has returned what was last written. */
  lemma StateSafe(flat0: map<Key, Sector>, s: State)
    requires StateOk(flat0, s)
    ensures CachedOnce(s.bufs) && ReadsFlat(flat0, s.events) && s.flat == Flat(flat0, s.events)
    ensures forall b: nat {:trigger s.bufs[b]} | b < NBUF && s.bufs[b].dev >= 0 && !s.bufs[b].busy ::
              s.bufs[b].valid && KeyOf(s.bufs[b]) in s.flat && s.bufs[b].data == s.flat[KeyOf(s.bufs[b])]
  {
    forall b: nat | b < NBUF && s.bufs[b].dev >= 0 && !s.bufs[b].busy
      ensures s.bufs[b].valid && KeyOf(s.bufs[b]) in s.flat && s.bufs[b].data == s.flat[KeyOf(s.bufs[b])]
    {
      assert BufOk(s.bufs, s.procs, s.q, s.flat, b);
    }
  }
}
