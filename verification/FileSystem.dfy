/** Blocks and files of p2/xv6/kernel/fs.c: the bitmap allocator, direct and indirect
    block maps, and byte-granular reading and writing.

    The disk is a sequence of 512-byte blocks; `bread` followed by `bwrite` reads and
    replaces one of them (BufferCache.dfy shows that the cache behaves like that).
    Inodes are records; the ghost map `owner` says which slot of which inode or
    indirect block holds each allocated data block. */
module FileSystem {

  import opened Blocks
  import opened Sets
  import opened Wrappers

  datatype InodeRecord = InodeRecord(kind: int, major: int, minor: int, nlink: int, size: nat, addrs: seq<nat>)

  type Inode = n: InodeRecord | |n.addrs| == NDIRECT + 1
    witness InodeRecord(0, 0, 0, 0, 0, seq(NDIRECT + 1, _ => 0))

  /** A place that can hold a block number: addrs[k] of an inode (k == NDIRECT is the
      indirect block) or word j of an inode's indirect block. */
  datatype Slot = Direct(i: nat, k: nat) | Indirect(i: nat, j: nat)

  const T_DEV := 3

  /** What writei cuts a request of n bytes down to. */
  function Clamped(off: nat, n: nat): (m: nat)
    ensures m <= n && (off <= MAXFILE * BSIZE ==> off + m <= MAXFILE * BSIZE)
    ensures m == n || off + m >= MAXFILE * BSIZE
  {
    if off + n <= MAXFILE * BSIZE then n else if off <= MAXFILE * BSIZE then MAXFILE * BSIZE - off else 0
  }

  /** off + n < off in 32-bit arithmetic. */
  predicate Wraps(off: nat, n: nat)
    requires off < UINT && n < UINT
    ensures Wraps(off, n) <==> off + n >= UINT
  {
    (off + n) % UINT < off
  }

  // ----- Disk layout

  function BitmapBlock(ninodes: nat, b: nat): nat {
    b / BPB + ninodes / 8 + 3
  }

  function DataStart(size: nat, ninodes: nat): nat {
    ninodes / 8 + 3 + size / BPB + 1
  }

  ghost predicate Shape(size: nat, ninodes: nat, disk: seq<Block>, nodes: seq<Inode>) {
    && DataStart(size, ninodes) <= size < UINT
    && |disk| == size
    && |nodes| == ninodes
  }

  /** Bits exist for whole bitmap blocks, that is, also for some blocks past the end. */
  predicate Bit(ninodes: nat, disk: seq<Block>, b: nat) {
    BitmapBlock(ninodes, b) < |disk| && BlockBit(disk[BitmapBlock(ninodes, b)], b % BPB)
  }

  /** The superblock and the inode blocks; they are written by others. */
  ghost predicate StartsWith(disk: seq<Block>, meta: seq<Block>) {
    |meta| <= |disk| && forall c: nat {:trigger meta[c]} | c < |meta| :: disk[c] == meta[c]
  }

  // ----- Slots

  predicate IsSlot(ninodes: nat, s: Slot) {
    s.i < ninodes && if s.Direct? then s.k <= NDIRECT else s.j < NINDIRECT
  }

  /** The block number a slot holds; 0 for none. */
  function Addr(disk: seq<Block>, nodes: seq<Inode>, s: Slot): nat {
    if !IsSlot(|nodes|, s) then 0
    else if s.Direct? then nodes[s.i].addrs[s.k]
    else if nodes[s.i].addrs[NDIRECT] == 0 || nodes[s.i].addrs[NDIRECT] >= |disk| then 0
    else Word(disk[nodes[s.i].addrs[NDIRECT]], s.j)
  }

  /** The slot bmap consults for block bn of file i. */
  function DataSlot(i: nat, bn: nat): Slot {
    if bn < NDIRECT then Direct(i, bn) else Indirect(i, bn - NDIRECT)
  }

  // ----- Exact block accounting

  /** A bit is set iff the block is metadata or held by exactly one slot; every free
      block is zero.  Slots in `dead` are being emptied by itrunc. */
  ghost predicate Accounted(size: nat, ninodes: nat, disk: seq<Block>, nodes: seq<Inode>,
                            owner: map<nat, Slot>, dead: set<Slot>)
  {
    && Shape(size, ninodes, disk, nodes)
    && (forall b: nat {:trigger Bit(ninodes, disk, b)} | b < size ::
          Bit(ninodes, disk, b) <==> b < DataStart(size, ninodes) || b in owner)
    && (forall b: nat {:trigger b in owner} | b in owner ::
          DataStart(size, ninodes) <= b < size && IsSlot(ninodes, owner[b]) && owner[b] !in dead &&
          Addr(disk, nodes, owner[b]) == b)
    && (forall s: Slot {:trigger Addr(disk, nodes, s)} | IsSlot(ninodes, s) && s !in dead ::
          Addr(disk, nodes, s) == 0 || (Addr(disk, nodes, s) in owner && owner[Addr(disk, nodes, s)] == s))
    && (forall b: nat {:trigger disk[b]} | DataStart(size, ninodes) <= b < size && b !in owner ::
          disk[b] == Zero())
  }

  lemma WrittenMeta(disk: seq<Block>, b: nat, blk: Block, meta: seq<Block>)
    requires StartsWith(disk, meta) && |meta| <= b < |disk|
    ensures StartsWith(disk[b := blk], meta)
  {
  }

  // ----- Setting and clearing a bit

  function SetBit(ninodes: nat, disk: seq<Block>, b: nat): seq<Block>
    requires BitmapBlock(ninodes, b) < |disk|
  {
    disk[BitmapBlock(ninodes, b) := WithBit(disk[BitmapBlock(ninodes, b)], b % BPB)]
  }

  function ClearBit(ninodes: nat, disk: seq<Block>, b: nat): seq<Block>
    requires BitmapBlock(ninodes, b) < |disk|
  {
    disk[BitmapBlock(ninodes, b) := WithoutBit(disk[BitmapBlock(ninodes, b)], b % BPB)]
  }

  lemma SetBitBits(ninodes: nat, disk: seq<Block>, b: nat, c: nat)
    requires BitmapBlock(ninodes, b) < |disk| && BitmapBlock(ninodes, c) < |disk|
    ensures Bit(ninodes, SetBit(ninodes, disk, b), c) <==> c == b || Bit(ninodes, disk, c)
  {
  }

  lemma ClearBitBits(ninodes: nat, disk: seq<Block>, b: nat, c: nat)
    requires BitmapBlock(ninodes, b) < |disk| && BitmapBlock(ninodes, c) < |disk|
    ensures Bit(ninodes, ClearBit(ninodes, disk, b), c) <==> c != b && Bit(ninodes, disk, c)
  {
  }

  lemma SetBitFacts(size: nat, ninodes: nat, disk: seq<Block>, nodes: seq<Inode>, b: nat)
    requires Shape(size, ninodes, disk, nodes) && b < size
    ensures |SetBit(ninodes, disk, b)| == size
    ensures forall c: nat {:trigger Bit(ninodes, SetBit(ninodes, disk, b), c)} | c < size ::
              Bit(ninodes, SetBit(ninodes, disk, b), c) <==> c == b || Bit(ninodes, disk, c)
    ensures forall c: nat | DataStart(size, ninodes) <= c < size :: SetBit(ninodes, disk, b)[c] == disk[c]
  {
    forall c: nat | c < size
      ensures Bit(ninodes, SetBit(ninodes, disk, b), c) <==> c == b || Bit(ninodes, disk, c)
    {
      SetBitBits(ninodes, disk, b, c);
    }
  }

  lemma ClearBitFacts(size: nat, ninodes: nat, disk: seq<Block>, nodes: seq<Inode>, b: nat)
    requires Shape(size, ninodes, disk, nodes) && b < size
    ensures |ClearBit(ninodes, disk, b)| == size
    ensures forall c: nat {:trigger Bit(ninodes, ClearBit(ninodes, disk, b), c)} | c < size ::
              Bit(ninodes, ClearBit(ninodes, disk, b), c) <==> c != b && Bit(ninodes, disk, c)
    ensures forall c: nat | DataStart(size, ninodes) <= c < size :: ClearBit(ninodes, disk, b)[c] == disk[c]
  {
    forall c: nat | c < size
      ensures Bit(ninodes, ClearBit(ninodes, disk, b), c) <==> c != b && Bit(ninodes, disk, c)
    {
      ClearBitBits(ninodes, disk, b, c);
    }
  }

  ghost predicate FirstBits(blk: Block, n: nat)
    requires n <= BPB
  {
    forall j: nat | j < n :: BlockBit(blk, j)
  }

  /** The bits of all blocks below n * BPB + bi are set. */
  ghost predicate Scanned(ninodes: nat, disk: seq<Block>, n: nat, bi: nat)
    requires bi <= BPB
  {
    var start := BitmapBlock(ninodes, 0);
    && start + n <= |disk|
    && (forall q: nat | start <= q < start + n :: FirstBits(disk[q], BPB))
    && (bi > 0 ==> start + n < |disk| && FirstBits(disk[start + n], bi))
  }

  lemma BitmapPlace(ninodes: nat, n: nat, bi: nat)
    requires bi < BPB
    ensures BitmapBlock(ninodes, n * BPB + bi) == BitmapBlock(ninodes, 0) + n && (n * BPB + bi) % BPB == bi
  {
  }

  lemma ScannedBits(ninodes: nat, disk: seq<Block>, n: nat, bi: nat, c: nat)
    requires bi <= BPB && Scanned(ninodes, disk, n, bi) && c < n * BPB + bi
    ensures Bit(ninodes, disk, c)
  {
    var q := BitmapBlock(ninodes, c);
    assert FirstBits(disk[q], if c / BPB < n then BPB else bi);
  }

  // ----- Giving a free block to an empty slot

  /** An inode's indirect block is a data block of its own. */
  lemma IndirectBlock(size: nat, ninodes: nat, disk: seq<Block>, nodes: seq<Inode>, owner: map<nat, Slot>,
                      dead: set<Slot>, i: nat)
    requires Accounted(size, ninodes, disk, nodes, owner, dead) && i < ninodes && Direct(i, NDIRECT) !in dead
    ensures var p := nodes[i].addrs[NDIRECT];
            p != 0 ==> DataStart(size, ninodes) <= p < size && p in owner && owner[p] == Direct(i, NDIRECT)
  {
    assert Addr(disk, nodes, Direct(i, NDIRECT)) == nodes[i].addrs[NDIRECT];
  }

  /** Accounting after block b, so far free, has been stored in slot t, so far empty. */
  lemma Reaccount(size: nat, ninodes: nat, disk: seq<Block>, nodes: seq<Inode>, owner: map<nat, Slot>,
                  b: nat, t: Slot, disk1: seq<Block>, nodes1: seq<Inode>)
    requires Accounted(size, ninodes, disk, nodes, owner, {})
    requires DataStart(size, ninodes) <= b < size && b !in owner && IsSlot(ninodes, t)
    requires Shape(size, ninodes, disk1, nodes1)
    requires forall c: nat {:trigger Bit(ninodes, disk1, c)} | c < size ::
               Bit(ninodes, disk1, c) <==> c == b || Bit(ninodes, disk, c)
    requires forall c: nat | DataStart(size, ninodes) <= c < size && c !in owner :: disk1[c] == disk[c]
    requires Addr(disk, nodes, t) == 0 && Addr(disk1, nodes1, t) == b
    requires forall s: Slot {:trigger Addr(disk1, nodes1, s)} | IsSlot(ninodes, s) && s != t ::
               Addr(disk1, nodes1, s) == Addr(disk, nodes, s)
    ensures Accounted(size, ninodes, disk1, nodes1, owner[b := t], {})
  {
  }

  lemma AllocDirectAddr(size: nat, ninodes: nat, disk: seq<Block>, nodes: seq<Inode>, owner: map<nat, Slot>,
                        i: nat, k: nat, b: nat, nodes1: seq<Inode>, s: Slot)
    requires Accounted(size, ninodes, disk, nodes, owner, {})
    requires i < ninodes && k <= NDIRECT && nodes[i].addrs[k] == 0
    requires DataStart(size, ninodes) <= b < size && b !in owner
    requires nodes1 == nodes[i := nodes[i].(addrs := nodes[i].addrs[k := b])]
    requires IsSlot(ninodes, s) && s != Direct(i, k)
    ensures Addr(SetBit(ninodes, disk, b), nodes1, s) == Addr(disk, nodes, s)
  {
    if s.Indirect? {
      SetBitFacts(size, ninodes, disk, nodes, b);
      var disk1 := SetBit(ninodes, disk, b);
      if s.i == i && k == NDIRECT {
        assert nodes1[i].addrs[NDIRECT] == b && disk1[b] == disk[b] == Zero();
        ZeroWords(s.j);
      } else {
        IndirectBlock(size, ninodes, disk, nodes, owner, {}, s.i);
        assert nodes1[s.i].addrs[NDIRECT] == nodes[s.i].addrs[NDIRECT];
      }
    }
  }

  /** bmap stores the newly allocated block b in an empty direct slot. */
  lemma AllocDirect(size: nat, ninodes: nat, disk: seq<Block>, nodes: seq<Inode>, owner: map<nat, Slot>,
                    i: nat, k: nat, b: nat, nodes1: seq<Inode>)
    requires Accounted(size, ninodes, disk, nodes, owner, {})
    requires i < ninodes && k <= NDIRECT && nodes[i].addrs[k] == 0
    requires DataStart(size, ninodes) <= b < size && b !in owner
    requires nodes1 == nodes[i := nodes[i].(addrs := nodes[i].addrs[k := b])]
    ensures Accounted(size, ninodes, SetBit(ninodes, disk, b), nodes1, owner[b := Direct(i, k)], {})
    ensures forall s: Slot {:trigger Addr(SetBit(ninodes, disk, b), nodes1, s)} | IsSlot(ninodes, s)
            && s != Direct(i, k) ::
              Addr(SetBit(ninodes, disk, b), nodes1, s) == Addr(disk, nodes, s)
  {
    SetBitFacts(size, ninodes, disk, nodes, b);
    forall s: Slot | IsSlot(ninodes, s) && s != Direct(i, k)
      ensures Addr(SetBit(ninodes, disk, b), nodes1, s) == Addr(disk, nodes, s)
    {
      AllocDirectAddr(size, ninodes, disk, nodes, owner, i, k, b, nodes1, s);
    }
    Reaccount(size, ninodes, disk, nodes, owner, b, Direct(i, k), SetBit(ninodes, disk, b), nodes1);
  }

  /** bmap stores the newly allocated block b in an empty word of the indirect block. */
  lemma AllocIndirect(size: nat, ninodes: nat, disk: seq<Block>, nodes: seq<Inode>, owner: map<nat, Slot>,
                      i: nat, j: nat, b: nat, disk1: seq<Block>)
    requires Accounted(size, ninodes, disk, nodes, owner, {})
    requires i < ninodes && j < NINDIRECT && nodes[i].addrs[NDIRECT] != 0 && Addr(disk, nodes, Indirect(i, j)) == 0
    requires DataStart(size, ninodes) <= b < size && b !in owner
    requires var p := nodes[i].addrs[NDIRECT];
             p < size && disk1 == SetBit(ninodes, disk, b)[p := PutWord(disk[p], j, b)]
    ensures Accounted(size, ninodes, disk1, nodes, owner[b := Indirect(i, j)], {})
    ensures forall s: Slot {:trigger Addr(disk1, nodes, s)} | IsSlot(ninodes, s) && s != Indirect(i, j) ::
              Addr(disk1, nodes, s) == Addr(disk, nodes, s)
  {
    SetBitFacts(size, ninodes, disk, nodes, b);
    IndirectBlock(size, ninodes, disk, nodes, owner, {}, i);
    forall s: Slot | IsSlot(ninodes, s) && s != Indirect(i, j)
      ensures Addr(disk1, nodes, s) == Addr(disk, nodes, s)
    {
      IndirectBlock(size, ninodes, disk, nodes, owner, {}, s.i);
    }
    Reaccount(size, ninodes, disk, nodes, owner, b, Indirect(i, j), disk1, nodes);
  }

  // ----- What a file's blocks contain

  /** Block bn of file i; a block that is not allocated counts as zero. */
  function FileBlock(disk: seq<Block>, nodes: seq<Inode>, i: nat, bn: nat): Block {
    if 0 < Addr(disk, nodes, DataSlot(i, bn)) < |disk| then disk[Addr(disk, nodes, DataSlot(i, bn))] else Zero()
  }

  /** The first len bytes of file i. */
  function Bytes(disk: seq<Block>, nodes: seq<Inode>, i: nat, len: nat): (s: seq<Byte>)
    ensures |s| == len
  {
    seq(len, (o: nat) => FileBlock(disk, nodes, i, o / BSIZE)[o % BSIZE])
  }

  ghost predicate SameBlocks(ninodes: nat, disk: seq<Block>, nodes: seq<Inode>, disk1: seq<Block>, nodes1: seq<Inode>) {
    forall i: nat, bn: nat {:trigger FileBlock(disk1, nodes1, i, bn)} | i < ninodes && bn < MAXFILE ::
      FileBlock(disk1, nodes1, i, bn) == FileBlock(disk, nodes, i, bn)
  }

  /** Allocation changes no file's contents, because the new block is zero. */
  lemma AllocKeepsBlocks(size: nat, ninodes: nat, disk: seq<Block>, nodes: seq<Inode>, owner: map<nat, Slot>,
                         i: nat, b: nat, t: Slot, disk1: seq<Block>, nodes1: seq<Inode>)
    requires Accounted(size, ninodes, disk, nodes, owner, {}) && Shape(size, ninodes, disk1, nodes1)
    requires DataStart(size, ninodes) <= b < size && b !in owner && i < ninodes
    requires forall c: nat | DataStart(size, ninodes) <= c < size && c != nodes[i].addrs[NDIRECT] :: disk1[c] == disk[c]
    requires Addr(disk, nodes, t) == 0 && Addr(disk1, nodes1, t) == b
    requires forall s: Slot {:trigger Addr(disk1, nodes1, s)} | IsSlot(ninodes, s) && s != t ::
               Addr(disk1, nodes1, s) == Addr(disk, nodes, s)
    ensures SameBlocks(ninodes, disk, nodes, disk1, nodes1)
  {
    forall i': nat, bn: nat | i' < ninodes && bn < MAXFILE
      ensures FileBlock(disk1, nodes1, i', bn) == FileBlock(disk, nodes, i', bn)
    {
      var s := DataSlot(i', bn);
      IndirectBlock(size, ninodes, disk, nodes, owner, {}, i);
      assert Addr(disk1, nodes1, s) == if s == t then b else Addr(disk, nodes, s);
    }
  }

  /** Writing a data block changes that block of that file and nothing else. */
  lemma DataWrite(size: nat, ninodes: nat, disk: seq<Block>, nodes: seq<Inode>, owner: map<nat, Slot>,
                  i: nat, bn: nat, blk: Block, disk1: seq<Block>)
    requires Accounted(size, ninodes, disk, nodes, owner, {}) && i < ninodes && bn < MAXFILE
    requires var a := Addr(disk, nodes, DataSlot(i, bn)); 0 < a < size && disk1 == disk[a := blk]
    ensures Accounted(size, ninodes, disk1, nodes, owner, {})
    ensures forall s: Slot {:trigger Addr(disk1, nodes, s)} | IsSlot(ninodes, s) ::
            Addr(disk1, nodes, s) == Addr(disk, nodes, s)
    ensures forall i': nat, bn': nat {:trigger FileBlock(disk1, nodes, i', bn')} | i' < ninodes && bn' < MAXFILE ::
              FileBlock(disk1, nodes, i', bn') == if i' == i && bn' == bn then blk else FileBlock(disk, nodes, i', bn')
  {
    var t := DataSlot(i, bn);
    var a := Addr(disk, nodes, t);
    assert a in owner && owner[a] == t;
    forall s: Slot | IsSlot(ninodes, s)
      ensures Addr(disk1, nodes, s) == Addr(disk, nodes, s)
    {
      IndirectBlock(size, ninodes, disk, nodes, owner, {}, s.i);
    }
    forall c: nat | c < size
      ensures Bit(ninodes, disk1, c) == Bit(ninodes, disk, c)
    {
    }
    forall i': nat, bn': nat | i' < ninodes && bn' < MAXFILE
      ensures FileBlock(disk1, nodes, i', bn') == if i' == i && bn' == bn then blk else FileBlock(disk, nodes, i', bn')
    {
      var s := DataSlot(i', bn');
      assert Addr(disk1, nodes, s) == Addr(disk, nodes, s);
      assert Addr(disk, nodes, s) == 0 || owner[Addr(disk, nodes, s)] == s;
    }
  }

  // ----- Counting

  ghost function Range(lo: nat, hi: nat): (s: set<nat>)
    requires lo <= hi
    ensures forall b: nat :: b in s <==> lo <= b < hi
    ensures |s| == hi - lo
  {
    if lo == hi then {} else Range(lo, hi - 1) + {hi - 1}
  }

  /** The data region is full exactly when every data block has an owner. */
  lemma OwnersInRange(size: nat, ninodes: nat, disk: seq<Block>, nodes: seq<Inode>, owner: map<nat, Slot>)
    requires Accounted(size, ninodes, disk, nodes, owner, {})
    ensures |owner| <= size - DataStart(size, ninodes)
    ensures |owner| == size - DataStart(size, ninodes) <==>
            forall b: nat | DataStart(size, ninodes) <= b < size :: b in owner
  {
    var all := Range(DataStart(size, ninodes), size);
    assert owner.Keys <= all;
    CardLe(owner.Keys, all);
  }

  // ----- Files without holes

  /** File i holds exactly the blocks its first len bytes need. */
  ghost predicate Dense(disk: seq<Block>, nodes: seq<Inode>, i: nat, len: nat)
    requires i < |nodes|
  {
    && len <= MAXFILE * BSIZE
    && (forall bn: nat {:trigger DataSlot(i, bn)} | bn < MAXFILE ::
        Addr(disk, nodes, DataSlot(i, bn)) != 0 <==> bn * BSIZE < len)
    && (nodes[i].addrs[NDIRECT] != 0 <==> NDIRECT * BSIZE < len)
  }

  /** Blocks such a file of len bytes uses, its indirect block included. */
  function BlocksFor(len: nat): nat {
    (len + BSIZE - 1) / BSIZE + if len > NDIRECT * BSIZE then 1 else 0
  }

  /** What bmap would have to allocate. */
  function Missing(disk: seq<Block>, nodes: seq<Inode>, i: nat, bn: nat): nat
    requires i < |nodes|
  {
    (if Addr(disk, nodes, DataSlot(i, bn)) == 0 then 1 else 0) +
    if bn >= NDIRECT && nodes[i].addrs[NDIRECT] == 0 then 1 else 0
  }

  /** One step of the copying loop of writei reaches from len to newLen. */
  ghost predicate StepTo(len: nat, off: nat, m: nat, newLen: nat) {
    && off <= len <= MAXFILE * BSIZE && 0 < m <= BSIZE - off % BSIZE && off + m <= MAXFILE * BSIZE
    && newLen == if off + m > len then off + m else len
  }

  lemma StepBlocks(len: nat, off: nat, m: nat, newLen: nat, bn: nat)
    requires StepTo(len, off, m, newLen)
    ensures bn * BSIZE < newLen <==> bn * BSIZE < len || bn == off / BSIZE
  {
  }

  lemma StepCount(len: nat, off: nat, m: nat, newLen: nat)
    requires StepTo(len, off, m, newLen)
    ensures NDIRECT * BSIZE < newLen <==> NDIRECT * BSIZE < len || off / BSIZE >= NDIRECT
    ensures BlocksFor(newLen) - BlocksFor(len)
         == (if off / BSIZE * BSIZE < len then 0 else 1) +
            if off / BSIZE >= NDIRECT && !(NDIRECT * BSIZE < len) then 1 else 0
  {
  }

  lemma MissingStep(disk: seq<Block>, nodes: seq<Inode>, i: nat, len: nat, off: nat, m: nat, newLen: nat)
    requires i < |nodes| && Dense(disk, nodes, i, len) && StepTo(len, off, m, newLen)
    ensures Missing(disk, nodes, i, off / BSIZE) == BlocksFor(newLen) - BlocksFor(len)
    ensures newLen == len ==> Missing(disk, nodes, i, off / BSIZE) == 0
  {
    StepCount(len, off, m, newLen);
    assert Addr(disk, nodes, DataSlot(i, off / BSIZE)) != 0 <==> off / BSIZE * BSIZE < len;
  }

  lemma DenseStep(disk: seq<Block>, nodes: seq<Inode>, disk1: seq<Block>, nodes1: seq<Inode>,
                  i: nat, len: nat, off: nat, m: nat, newLen: nat)
    requires i < |nodes| == |nodes1| && Dense(disk, nodes, i, len) && StepTo(len, off, m, newLen)
    requires Addr(disk1, nodes1, DataSlot(i, off / BSIZE)) != 0
    requires nodes1[i].addrs[NDIRECT] != 0 <==> nodes[i].addrs[NDIRECT] != 0 || off / BSIZE >= NDIRECT
    requires forall s: Slot {:trigger Addr(disk1, nodes1, s)} |
               IsSlot(|nodes|, s) && s != DataSlot(i, off / BSIZE) && s != Direct(i, NDIRECT) ::
               Addr(disk1, nodes1, s) == Addr(disk, nodes, s)
    ensures Dense(disk1, nodes1, i, newLen)
  {
    StepCount(len, off, m, newLen);
    forall bn: nat | bn < MAXFILE
      ensures Addr(disk1, nodes1, DataSlot(i, bn)) != 0 <==> bn * BSIZE < newLen
    {
      StepBlocks(len, off, m, newLen, bn);
    }
  }

  ghost predicate SameSlotsBut(ninodes: nat, disk: seq<Block>, nodes: seq<Inode>, disk1: seq<Block>, nodes1: seq<Inode>,
                               ip: nat) {
    forall s: Slot {:trigger Addr(disk1, nodes1, s)} | IsSlot(ninodes, s) && s.i != ip ::
      Addr(disk1, nodes1, s) == Addr(disk, nodes, s)
  }

  /** Other files keep their block maps. */
  lemma DenseOther(disk: seq<Block>, nodes: seq<Inode>, disk1: seq<Block>, nodes1: seq<Inode>, i: nat, len: nat,
                   ip: nat)
    requires i < |nodes| == |nodes1| && ip != i && Dense(disk, nodes, i, len)
    requires SameSlotsBut(|nodes|, disk, nodes, disk1, nodes1, ip)
    ensures Dense(disk1, nodes1, i, len)
  {
    assert Addr(disk1, nodes1, Direct(i, NDIRECT)) == Addr(disk, nodes, Direct(i, NDIRECT));
    forall bn: nat | bn < MAXFILE
      ensures Addr(disk1, nodes1, DataSlot(i, bn)) != 0 <==> bn * BSIZE < len
    {
      assert Addr(disk, nodes, DataSlot(i, bn)) != 0 <==> bn * BSIZE < len;
    }
  }

  lemma DenseSame(disk: seq<Block>, disk1: seq<Block>, nodes: seq<Inode>, i: nat, len: nat)
    requires i < |nodes| && Dense(disk, nodes, i, len)
    requires forall s: Slot {:trigger Addr(disk1, nodes, s)} | IsSlot(|nodes|, s) ::
             Addr(disk1, nodes, s) == Addr(disk, nodes, s)
    ensures Dense(disk1, nodes, i, len)
  {
    forall bn: nat | bn < MAXFILE
      ensures Addr(disk1, nodes, DataSlot(i, bn)) != 0 <==> bn * BSIZE < len
    {
      assert Addr(disk, nodes, DataSlot(i, bn)) != 0 <==> bn * BSIZE < len;
    }
  }

  /** Bytes off .. off + n of file i are now those of src; all its others are as before. */
  ghost predicate Overwritten(disk0: seq<Block>, nodes0: seq<Inode>, disk: seq<Block>, nodes: seq<Inode>,
                              i: nat, off: nat, src: seq<Byte>, n: nat)
    requires n <= |src|
  {
    forall bn: nat, k: nat {:trigger FileBlock(disk, nodes, i, bn)[k]} | bn < MAXFILE && k < BSIZE ::
      FileBlock(disk, nodes, i, bn)[k] ==
      if off <= bn * BSIZE + k < off + n then src[bn * BSIZE + k - off] else FileBlock(disk0, nodes0, i, bn)[k]
  }

  /** memmove(bp->data + o, src, |piece|) */
  function Splice(blk: Block, o: nat, piece: seq<Byte>): Block
    requires o + |piece| <= BSIZE
  {
    blk[..o] + piece + blk[o + |piece|..]
  }

  /** Block bn of file ip has received the piece; all other blocks of all files are as before. */
  ghost predicate PieceWritten(ninodes: nat, disk: seq<Block>, nodes: seq<Inode>, disk1: seq<Block>, nodes1: seq<Inode>,
                               ip: nat, bn: nat, o: nat, piece: seq<Byte>)
    requires o + |piece| <= BSIZE
  {
    forall i: nat, c: nat {:trigger FileBlock(disk1, nodes1, i, c)} | i < ninodes && c < MAXFILE ::
      FileBlock(disk1, nodes1, i, c) ==
      if i == ip && c == bn then Splice(FileBlock(disk, nodes, i, c), o, piece) else FileBlock(disk, nodes, i, c)
  }

  /** The block map step of bmap followed by the data write of writei. */
  lemma PieceKeeps(size: nat, ninodes: nat, disk0: seq<Block>, nodes0: seq<Inode>, disk: seq<Block>, nodes: seq<Inode>,
                   owner: map<nat, Slot>, ip: nat, bn: nat, o: nat, piece: seq<Byte>, disk1: seq<Block>)
    requires Accounted(size, ninodes, disk, nodes, owner, {}) && ip < ninodes && bn < MAXFILE && o + |piece| <= BSIZE
    requires var a := Addr(disk, nodes, DataSlot(ip, bn)); 0 < a < size && disk1 == disk[a := Splice(disk[a], o, piece)]
    requires forall s: Slot {:trigger Addr(disk, nodes, s)} |
               IsSlot(ninodes, s) && s != DataSlot(ip, bn) && s != Direct(ip, NDIRECT) ::
               Addr(disk, nodes, s) == Addr(disk0, nodes0, s)
    requires SameBlocks(ninodes, disk0, nodes0, disk, nodes)
    ensures Accounted(size, ninodes, disk1, nodes, owner, {})
    ensures forall s: Slot {:trigger Addr(disk1, nodes, s)} | IsSlot(ninodes, s) ::
            Addr(disk1, nodes, s) == Addr(disk, nodes, s)
    ensures SameSlotsBut(ninodes, disk0, nodes0, disk1, nodes, ip)
    ensures PieceWritten(ninodes, disk0, nodes0, disk1, nodes, ip, bn, o, piece)
  {
    var a := Addr(disk, nodes, DataSlot(ip, bn));
    assert FileBlock(disk, nodes, ip, bn) == disk[a];
    DataWrite(size, ninodes, disk, nodes, owner, ip, bn, disk1[a], disk1);
    forall s: Slot | IsSlot(ninodes, s) && s.i != ip
      ensures Addr(disk1, nodes, s) == Addr(disk0, nodes0, s)
    {
      assert Addr(disk1, nodes, s) == Addr(disk, nodes, s);
    }
  }

  lemma OverwrittenAt(disk0: seq<Block>, nodes0: seq<Inode>, disk: seq<Block>, nodes: seq<Inode>,
                      disk1: seq<Block>, nodes1: seq<Inode>,
                      i: nat, off: nat, src: seq<Byte>, tot: nat, m: nat, b: nat, o: nat,
                      bn: nat, k: nat)
    requires tot + m <= |src| && Overwritten(disk0, nodes0, disk, nodes, i, off, src, tot)
    requires bn < MAXFILE && k < BSIZE && off + tot == b * BSIZE + o && o + m <= BSIZE
    requires forall bn: nat {:trigger FileBlock(disk1, nodes1, i, bn)} | bn < MAXFILE ::
               FileBlock(disk1, nodes1, i, bn) ==
               if bn == b then Splice(FileBlock(disk, nodes, i, bn), o, src[tot..tot + m])
               else FileBlock(disk, nodes, i, bn)
    ensures FileBlock(disk1, nodes1, i, bn)[k] ==
            if off <= bn * BSIZE + k < off + tot + m then src[bn * BSIZE + k - off]
            else FileBlock(disk0, nodes0, i, bn)[k]
  {
    BlockCopied(off, src, tot, m, b, o, bn, k, FileBlock(disk0, nodes0, i, bn), FileBlock(disk, nodes, i, bn),
                FileBlock(disk1, nodes1, i, bn));
  }

  lemma OverwrittenStep(disk0: seq<Block>, nodes0: seq<Inode>, disk: seq<Block>, nodes: seq<Inode>,
                        disk1: seq<Block>, nodes1: seq<Inode>,
                        i: nat, off: nat, src: seq<Byte>, tot: nat, m: nat, b: nat, o: nat)
    requires tot + m <= |src| && Overwritten(disk0, nodes0, disk, nodes, i, off, src, tot)
    requires off + tot == b * BSIZE + o && o + m <= BSIZE
    requires forall bn: nat {:trigger FileBlock(disk1, nodes1, i, bn)} | bn < MAXFILE ::
               FileBlock(disk1, nodes1, i, bn) ==
               if bn == b then Splice(FileBlock(disk, nodes, i, bn), o, src[tot..tot + m])
               else FileBlock(disk, nodes, i, bn)
    ensures Overwritten(disk0, nodes0, disk1, nodes1, i, off, src, tot + m)
  {
    forall bn: nat, k: nat | bn < MAXFILE && k < BSIZE
      ensures FileBlock(disk1, nodes1, i, bn)[k] ==
              if off <= bn * BSIZE + k < off + tot + m then src[bn * BSIZE + k - off]
              else FileBlock(disk0, nodes0, i, bn)[k]
    {
      OverwrittenAt(disk0, nodes0, disk, nodes, disk1, nodes1, i, off, src, tot, m, b, o, bn, k);
    }
  }

  lemma BlockCopied(off: nat, src: seq<Byte>, tot: nat, m: nat, b: nat, o: nat, bn: nat, k: nat,
                    init: Block, before: Block, after: Block)
    requires tot + m <= |src| && off + tot == b * BSIZE + o && o + m <= BSIZE && k < BSIZE
    requires before[k] == if off <= bn * BSIZE + k < off + tot then src[bn * BSIZE + k - off] else init[k]
    requires after == if bn == b then Splice(before, o, src[tot..tot + m]) else before
    ensures after[k] == if off <= bn * BSIZE + k < off + tot + m then src[bn * BSIZE + k - off] else init[k]
  {
    if bn == b { SpliceAt(before, o, src[tot..tot + m], k); }
    ByteCopied(off, src, tot, m, b, o, bn, k, init[k], before[k], after[k]);
  }

  /** What one round does to byte k of block bn, the piece going to o .. o + m of block b. */
  lemma ByteCopied(off: nat, src: seq<Byte>, tot: nat, m: nat, b: nat, o: nat, bn: nat, k: nat,
                   init: Byte, before: Byte, after: Byte)
    requires tot + m <= |src| && off + tot == b * BSIZE + o && o + m <= BSIZE && k < BSIZE
    requires before == if off <= bn * BSIZE + k < off + tot then src[bn * BSIZE + k - off] else init
    requires after == if bn == b && o <= k < o + m then src[tot + k - o] else before
    ensures after == if off <= bn * BSIZE + k < off + tot + m then src[bn * BSIZE + k - off] else init
  {
    if bn != b { PieceElsewhere(b, o, m, bn, k); }
  }

  lemma SpliceAt(blk: Block, o: nat, piece: seq<Byte>, k: nat)
    requires o + |piece| <= BSIZE && k < BSIZE
    ensures Splice(blk, o, piece)[k] == if o <= k < o + |piece| then piece[k - o] else blk[k]
  {
  }

  lemma PieceElsewhere(b: nat, o: nat, m: nat, bn: nat, k: nat)
    requires o + m <= BSIZE && k < BSIZE && bn != b
    ensures bn * BSIZE + k < b * BSIZE + o || bn * BSIZE + k >= b * BSIZE + o + m
  {
  }

  // ----- A file as one byte sequence

  /** Overwriting and extending a sequence from off on. */
  function Overwrite(s: seq<Byte>, off: nat, d: seq<Byte>): (r: seq<Byte>)
    requires off <= |s|
    ensures |r| == if off + |d| > |s| then off + |d| else |s|
  {
    s[..off] + d + if off + |d| < |s| then s[off + |d|..] else []
  }

  lemma OverwrittenBytes(disk0: seq<Block>, nodes0: seq<Inode>, disk: seq<Block>, nodes: seq<Inode>,
                         i: nat, len: nat, off: nat, src: seq<Byte>, n: nat)
    requires n <= |src| && off <= len <= MAXFILE * BSIZE && off + n <= MAXFILE * BSIZE
    requires Overwritten(disk0, nodes0, disk, nodes, i, off, src, n)
    ensures Bytes(disk, nodes, i, if off + n > len then off + n else len)
         == Overwrite(Bytes(disk0, nodes0, i, len), off, src[..n])
  {
    var newLen := if off + n > len then off + n else len;
    var got, want := Bytes(disk, nodes, i, newLen), Overwrite(Bytes(disk0, nodes0, i, len), off, src[..n]);
    forall o: nat | o < newLen
      ensures got[o] == want[o]
    {
      PositionOf(o);
      var bn, k := o / BSIZE, o % BSIZE;
      assert got[o] == FileBlock(disk, nodes, i, bn)[k];
      OverwriteAt(Bytes(disk0, nodes0, i, len), off, src[..n], o);
    }
  }

  lemma PositionOf(o: nat)
    requires o < MAXFILE * BSIZE
    ensures o / BSIZE * BSIZE + o % BSIZE == o && o / BSIZE < MAXFILE
  {
  }

  lemma OverwriteAt(s: seq<Byte>, off: nat, d: seq<Byte>, o: nat)
    requires off <= |s| && o < |Overwrite(s, off, d)|
    ensures Overwrite(s, off, d)[o] == if off <= o < off + |d| then d[o - off] else s[o]
  {
  }

  // ----- The copying loop of writei after tot bytes

  ghost predicate OthersKept(ninodes: nat, disk0: seq<Block>, nodes0: seq<Inode>, disk: seq<Block>, nodes: seq<Inode>,
                             ip: nat) {
    forall i: nat, bn: nat {:trigger FileBlock(disk, nodes, i, bn)} | i < ninodes && i != ip && bn < MAXFILE ::
      FileBlock(disk, nodes, i, bn) == FileBlock(disk0, nodes0, i, bn)
  }

  ghost predicate SameNodesBut(nodes0: seq<Inode>, nodes: seq<Inode>, ip: nat)
    requires ip < |nodes0|
  {
    |nodes| == |nodes0| && nodes == nodes0[ip := nodes0[ip].(addrs := nodes[ip].addrs)]
  }

  function Reach(size: nat, end: nat): nat {
    if end > size then end else size
  }

  /** Blocks that have to be allocated when a file of `size` bytes is written up to `end`. */
  function Extra(size: nat, end: nat): (n: nat)
    ensures end <= size ==> n == 0
  {
    ReachMore(size, end);
    BlocksFor(Reach(size, end)) - BlocksFor(size)
  }

  lemma RoundStep(size: nat, off: nat, off1: nat, m: nat)
    requires size <= MAXFILE * BSIZE && off1 == off + m <= MAXFILE * BSIZE && 0 < m <= BSIZE - off % BSIZE
    ensures StepTo(Reach(size, off), off, m, Reach(size, off1))
  {
  }

  lemma ReachMore(size: nat, end: nat)
    ensures BlocksFor(size) <= BlocksFor(Reach(size, end))
  {
  }

  lemma ExtraGrows(size: nat, end: nat, laterEnd: nat)
    requires end <= laterEnd
    ensures Extra(size, end) <= Extra(size, laterEnd)
  {
  }

  /** min(n - tot, BSIZE - off % BSIZE) */
  function PieceLen(off: nat, left: nat): (m: nat)
    requires left > 0
    ensures 0 < m <= left && m <= BSIZE - off % BSIZE
  {
    if left < BSIZE - off % BSIZE then left else BSIZE - off % BSIZE
  }

  ghost predicate Writing(ninodes: nat, disk0: seq<Block>, nodes0: seq<Inode>, disk: seq<Block>, nodes: seq<Inode>,
                          ip: nat, off: nat, src: seq<Byte>, tot: nat)
    requires ip < |nodes0| && tot <= |src|
  {
    && SameNodesBut(nodes0, nodes, ip)
    && Dense(disk, nodes, ip, Reach(nodes0[ip].size, off + tot))
    && SameSlotsBut(ninodes, disk0, nodes0, disk, nodes, ip)
    && OthersKept(ninodes, disk0, nodes0, disk, nodes, ip)
    && Overwritten(disk0, nodes0, disk, nodes, ip, off, src, tot)
    && (off + tot <= nodes0[ip].size ==> nodes == nodes0)
  }

  lemma WritingStart(ninodes: nat, disk: seq<Block>, nodes: seq<Inode>, ip: nat, off: nat, src: seq<Byte>)
    requires ip < ninodes == |nodes| && Dense(disk, nodes, ip, nodes[ip].size) && off <= nodes[ip].size
    ensures Writing(ninodes, disk, nodes, disk, nodes, ip, off, src, 0)
  {
  }

  lemma WritingStep(ninodes: nat, disk0: seq<Block>, nodes0: seq<Inode>, disk: seq<Block>, nodes: seq<Inode>,
                    disk1: seq<Block>, nodes1: seq<Inode>, ip: nat, off: nat, src: seq<Byte>, tot: nat, tot1: nat,
                    pos: nat, pos1: nat)
    requires ip < ninodes == |nodes0| && tot < tot1 <= |src| && pos == off + tot && pos1 == off + tot1
    requires tot1 - tot <= BSIZE - pos % BSIZE
    requires Writing(ninodes, disk0, nodes0, disk, nodes, ip, off, src, tot)
    requires SameNodesBut(nodes, nodes1, ip)
    requires Dense(disk1, nodes1, ip, Reach(nodes0[ip].size, pos1))
    requires Reach(nodes0[ip].size, pos1) == Reach(nodes0[ip].size, pos) ==> nodes1 == nodes
    requires SameSlotsBut(ninodes, disk, nodes, disk1, nodes1, ip)
    requires PieceWritten(ninodes, disk, nodes, disk1, nodes1, ip, pos / BSIZE, pos % BSIZE, src[tot..tot1])
    ensures Writing(ninodes, disk0, nodes0, disk1, nodes1, ip, off, src, tot1)
  {
    OverwrittenStep(disk0, nodes0, disk, nodes, disk1, nodes1, ip, off, src, tot, tot1 - tot, pos / BSIZE, pos % BSIZE);
    forall s: Slot | IsSlot(ninodes, s) && s.i != ip
      ensures Addr(disk1, nodes1, s) == Addr(disk0, nodes0, s)
    {
      assert Addr(disk1, nodes1, s) == Addr(disk, nodes, s);
    }
    forall i: nat, bn: nat | i < ninodes && i != ip && bn < MAXFILE
      ensures FileBlock(disk1, nodes1, i, bn) == FileBlock(disk0, nodes0, i, bn)
    {
      assert FileBlock(disk1, nodes1, i, bn) == FileBlock(disk, nodes, i, bn);
    }
  }

  lemma OtherBytes(ninodes: nat, disk0: seq<Block>, nodes0: seq<Inode>, disk: seq<Block>, nodes: seq<Inode>,
                   ip: nat, i: nat, len: nat)
    requires OthersKept(ninodes, disk0, nodes0, disk, nodes, ip) && i < ninodes && i != ip && len <= MAXFILE * BSIZE
    ensures Bytes(disk, nodes, i, len) == Bytes(disk0, nodes0, i, len)
  {
    forall o: nat | o < len
      ensures Bytes(disk, nodes, i, len)[o] == Bytes(disk0, nodes0, i, len)[o]
    {
      PositionOf(o);
      assert FileBlock(disk, nodes, i, o / BSIZE) == FileBlock(disk0, nodes0, i, o / BSIZE);
    }
  }

  /** Nothing but an inode's own length depends on its size field. */
  lemma Resized(size: nat, ninodes: nat, disk: seq<Block>, nodes: seq<Inode>, owner: map<nat, Slot>, ip: nat, n: nat,
                nodes1: seq<Inode>)
    requires Accounted(size, ninodes, disk, nodes, owner, {}) && ip < ninodes
    requires nodes1 == nodes[ip := nodes[ip].(size := n)]
    ensures Accounted(size, ninodes, disk, nodes1, owner, {})
    ensures forall s: Slot {:trigger Addr(disk, nodes1, s)} :: Addr(disk, nodes1, s) == Addr(disk, nodes, s)
    ensures forall i: nat, bn: nat {:trigger FileBlock(disk, nodes1, i, bn)} ::
            FileBlock(disk, nodes1, i, bn) == FileBlock(disk, nodes, i, bn)
  {
    assert forall s: Slot {:trigger Addr(disk, nodes1, s)} :: Addr(disk, nodes1, s) == Addr(disk, nodes, s);
  }

  /** Every file is dense up to its size. */
  ghost predicate AllDense(disk: seq<Block>, nodes: seq<Inode>) {
    forall i: nat {:trigger nodes[i]} | i < |nodes| :: Dense(disk, nodes, i, nodes[i].size)
  }

  /** Nothing of an inode changes but its size and its addresses. */
  ghost predicate SameHead(n0: Inode, n: Inode) {
    n == n0.(size := n.size, addrs := n.addrs)
  }

  /** What a completed writei leaves behind: one file overwritten and extended, all others as they were. */
  ghost predicate Wrote(ninodes: nat, disk0: seq<Block>, nodes0: seq<Inode>, disk: seq<Block>, nodes: seq<Inode>,
                        ip: nat, off: nat, data: seq<Byte>)
  {
    && ip < |nodes| == |nodes0| == ninodes && off <= nodes0[ip].size
    && Bytes(disk, nodes, ip, nodes[ip].size) == Overwrite(Bytes(disk0, nodes0, ip, nodes0[ip].size), off, data)
    && SameHead(nodes0[ip], nodes[ip]) && nodes[ip].size == Reach(nodes0[ip].size, off + |data|)
    && forall i: nat {:trigger nodes[i]} | i < ninodes && i != ip ::
         nodes[i] == nodes0[i] && Bytes(disk, nodes, i, nodes[i].size) == Bytes(disk0, nodes0, i, nodes0[i].size)
  }

  lemma WritingDone(size: nat, ninodes: nat, disk0: seq<Block>, nodes0: seq<Inode>, disk: seq<Block>, nodes: seq<Inode>,
                    owner: map<nat, Slot>, ip: nat, off: nat, src: seq<Byte>, nodes1: seq<Inode>)
    requires |nodes0| == ninodes && ip < ninodes && AllDense(disk0, nodes0)
    requires off <= nodes0[ip].size && off + |src| <= MAXFILE * BSIZE
    requires Accounted(size, ninodes, disk, nodes, owner, {})
    requires Writing(ninodes, disk0, nodes0, disk, nodes, ip, off, src, |src|)
    requires nodes1 == nodes[ip := nodes[ip].(size := Reach(nodes0[ip].size, off + |src|))]
    ensures Accounted(size, ninodes, disk, nodes1, owner, {}) && AllDense(disk, nodes1)
    ensures Wrote(ninodes, disk0, nodes0, disk, nodes1, ip, off, src)
  {
    var len := Reach(nodes0[ip].size, off + |src|);
    Resized(size, ninodes, disk, nodes, owner, ip, len, nodes1);
    OverwrittenBytes(disk0, nodes0, disk, nodes, ip, nodes0[ip].size, off, src, |src|);
    assert src[..|src|] == src;
    SameBlocksSameBytes(disk, nodes, nodes1, ip, len);
    DenseResized(disk, nodes, nodes1, ip, len);
    forall i: nat | i < ninodes && i != ip
      ensures nodes1[i] == nodes0[i] && Dense(disk, nodes1, i, nodes1[i].size)
      ensures Bytes(disk, nodes1, i, nodes1[i].size) == Bytes(disk0, nodes0, i, nodes0[i].size)
    {
      assert Dense(disk0, nodes0, i, nodes0[i].size);
      DenseOther(disk0, nodes0, disk, nodes, i, nodes0[i].size, ip);
      DenseResized(disk, nodes, nodes1, i, nodes0[i].size);
      OtherBytes(ninodes, disk0, nodes0, disk, nodes, ip, i, nodes0[i].size);
      SameBlocksSameBytes(disk, nodes, nodes1, i, nodes0[i].size);
    }
  }

  lemma SameBlocksSameBytes(disk: seq<Block>, nodes: seq<Inode>, nodes1: seq<Inode>, i: nat, len: nat)
    requires forall bn: nat {:trigger FileBlock(disk, nodes1, i, bn)} ::
             FileBlock(disk, nodes1, i, bn) == FileBlock(disk, nodes, i, bn)
    ensures Bytes(disk, nodes1, i, len) == Bytes(disk, nodes, i, len)
  {
  }

  lemma DenseResized(disk: seq<Block>, nodes: seq<Inode>, nodes1: seq<Inode>, i: nat, len: nat)
    requires i < |nodes| == |nodes1| && Dense(disk, nodes, i, len)
    requires forall s: Slot {:trigger Addr(disk, nodes1, s)} :: Addr(disk, nodes1, s) == Addr(disk, nodes, s)
    ensures Dense(disk, nodes1, i, len)
  {
    assert IsSlot(|nodes|, Direct(i, NDIRECT)) && Addr(disk, nodes1, Direct(i, NDIRECT)) ==
        Addr(disk, nodes, Direct(i, NDIRECT));
  }

  // ----- Giving blocks back

  /** bfree: zero the block, then clear its bit. */
  function Released(ninodes: nat, disk: seq<Block>, b: nat): seq<Block>
    requires b < |disk| && BitmapBlock(ninodes, b) < |disk|
  {
    ClearBit(ninodes, disk[b := Zero()], b)
  }

  lemma ReleasedMeta(ninodes: nat, disk: seq<Block>, b: nat, meta: seq<Block>)
    requires StartsWith(disk, meta) && |meta| == ninodes / 8 + 3 <= b < |disk| && BitmapBlock(ninodes, b) < |disk|
    ensures StartsWith(Released(ninodes, disk, b), meta)
  {
  }

  lemma ReleasedFacts(size: nat, ninodes: nat, disk: seq<Block>, nodes: seq<Inode>, b: nat)
    requires Shape(size, ninodes, disk, nodes) && DataStart(size, ninodes) <= b < size
    ensures |Released(ninodes, disk, b)| == size && Released(ninodes, disk, b)[b] == Zero()
    ensures forall c: nat {:trigger Bit(ninodes, Released(ninodes, disk, b), c)} | c < size ::
              Bit(ninodes, Released(ninodes, disk, b), c) <==> c != b && Bit(ninodes, disk, c)
    ensures forall c: nat | DataStart(size, ninodes) <= c < size && c != b :: Released(ninodes, disk, b)[c] == disk[c]
  {
    ClearBitFacts(size, ninodes, disk[b := Zero()], nodes, b);
    forall c: nat | c < size
      ensures Bit(ninodes, Released(ninodes, disk, b), c) <==> c != b && Bit(ninodes, disk, c)
    {
      assert Bit(ninodes, disk[b := Zero()], c) == Bit(ninodes, disk, c);
    }
  }

  /** Accounting after block b has been released and its slot t emptied or declared dead. */
  lemma Unaccount(size: nat, ninodes: nat, disk: seq<Block>, nodes: seq<Inode>, owner: map<nat, Slot>, dead: set<Slot>,
                  b: nat, disk1: seq<Block>, nodes1: seq<Inode>, dead1: set<Slot>)
    requires Accounted(size, ninodes, disk, nodes, owner, dead) && b in owner
    requires Shape(size, ninodes, disk1, nodes1) && disk1 == Released(ninodes, disk, b)
    requires forall s: Slot {:trigger Addr(disk1, nodes1, s)} | IsSlot(ninodes, s) && s !in dead1 ::
               Addr(disk1, nodes1, s) == 0 || (s != owner[b] && s !in dead
                                               && Addr(disk1, nodes1, s) == Addr(disk, nodes, s))
    requires forall s: Slot {:trigger Addr(disk, nodes, s)} |
               IsSlot(ninodes, s) && s !in dead && s != owner[b] && Addr(disk, nodes, s) != 0 ::
               s !in dead1 && Addr(disk1, nodes1, s) == Addr(disk, nodes, s)
    ensures Accounted(size, ninodes, disk1, nodes1, owner - {b}, dead1)
  {
    ReleasedFacts(size, ninodes, disk, nodes, b);
    var owner1 := owner - {b};
    forall c: nat | c in owner1
      ensures IsSlot(ninodes, owner1[c]) && owner1[c] !in dead1 && Addr(disk1, nodes1, owner1[c]) == c
    {
      assert Addr(disk, nodes, owner[c]) == c;
    }
  }

  /** The words of ip's indirect block that itrunc has already released. */
  ghost function DeadWords(ip: nat, j: nat): (d: set<Slot>)
    ensures forall s: Slot :: s in d <==> s.Indirect? && s.i == ip && s.j < j
  {
    if j == 0 then {} else DeadWords(ip, j - 1) + {Indirect(ip, j - 1)}
  }

  lemma FreeDirect(size: nat, ninodes: nat, disk: seq<Block>, nodes: seq<Inode>, owner: map<nat, Slot>, ip: nat, k: nat,
                   nodes1: seq<Inode>)
    requires Accounted(size, ninodes, disk, nodes, owner, {}) && ip < ninodes && k < NDIRECT && nodes[ip].addrs[k] != 0
    requires nodes1 == nodes[ip := nodes[ip].(addrs := nodes[ip].addrs[k := 0])]
    ensures var b := nodes[ip].addrs[k];
            && b in owner && DataStart(size, ninodes) <= b < size && owner[b] == Direct(ip, k)
            && Bit(ninodes, disk, b)
            && Accounted(size, ninodes, Released(ninodes, disk, b), nodes1, owner - {b}, {})
            && SameSlotsBut(ninodes, disk, nodes, Released(ninodes, disk, b), nodes1, ip)
  {
    var b := nodes[ip].addrs[k];
    assert Addr(disk, nodes, Direct(ip, k)) == b;
    ReleasedFacts(size, ninodes, disk, nodes, b);
    var disk1 := Released(ninodes, disk, b);
    forall s: Slot | IsSlot(ninodes, s) && s != Direct(ip, k)
      ensures Addr(disk1, nodes1, s) == Addr(disk, nodes, s)
    {
      IndirectBlock(size, ninodes, disk, nodes, owner, {}, s.i);
    }
    Unaccount(size, ninodes, disk, nodes, owner, {}, b, disk1, nodes1, {});
  }

  lemma FreeWord(size: nat, ninodes: nat, disk: seq<Block>, nodes: seq<Inode>, owner: map<nat, Slot>, ip: nat, j: nat)
    requires Accounted(size, ninodes, disk, nodes, owner, DeadWords(ip, j)) && ip < ninodes && j < NINDIRECT
    requires nodes[ip].addrs[NDIRECT] != 0 && Addr(disk, nodes, Indirect(ip, j)) != 0
    ensures var b := Addr(disk, nodes, Indirect(ip, j));
            && b in owner && DataStart(size, ninodes) <= b < size && owner[b] == Indirect(ip, j)
               && b != nodes[ip].addrs[NDIRECT]
            && Bit(ninodes, disk, b)
            && Accounted(size, ninodes, Released(ninodes, disk, b), nodes, owner - {b}, DeadWords(ip, j + 1))
            && SameSlotsBut(ninodes, disk, nodes, Released(ninodes, disk, b), nodes, ip)
  {
    var b := Addr(disk, nodes, Indirect(ip, j));
    IndirectBlock(size, ninodes, disk, nodes, owner, DeadWords(ip, j), ip);
    ReleasedFacts(size, ninodes, disk, nodes, b);
    var disk1 := Released(ninodes, disk, b);
    forall s: Slot | IsSlot(ninodes, s)
      ensures Addr(disk1, nodes, s) == Addr(disk, nodes, s)
    {
      IndirectBlock(size, ninodes, disk, nodes, owner, DeadWords(ip, j), s.i);
    }
    Unaccount(size, ninodes, disk, nodes, owner, DeadWords(ip, j), b, disk1, nodes, DeadWords(ip, j + 1));
  }

  lemma SkipWord(size: nat, ninodes: nat, disk: seq<Block>, nodes: seq<Inode>, owner: map<nat, Slot>, ip: nat, j: nat)
    requires Accounted(size, ninodes, disk, nodes, owner, DeadWords(ip, j)) && ip < ninodes && j < NINDIRECT
    requires Addr(disk, nodes, Indirect(ip, j)) == 0
    ensures Accounted(size, ninodes, disk, nodes, owner, DeadWords(ip, j + 1))
  {
  }

  lemma FreeIndirectBlock(size: nat, ninodes: nat, disk: seq<Block>, nodes: seq<Inode>, owner: map<nat, Slot>, ip: nat,
                          nodes1: seq<Inode>)
    requires Accounted(size, ninodes, disk, nodes, owner, DeadWords(ip, NINDIRECT)) && ip < ninodes
    requires nodes[ip].addrs[NDIRECT] != 0
    requires nodes1 == nodes[ip := nodes[ip].(addrs := nodes[ip].addrs[NDIRECT := 0])]
    ensures var b := nodes[ip].addrs[NDIRECT];
            && b in owner && DataStart(size, ninodes) <= b < size && owner[b] == Direct(ip, NDIRECT)
            && Bit(ninodes, disk, b)
            && Accounted(size, ninodes, Released(ninodes, disk, b), nodes1, owner - {b}, {})
            && SameSlotsBut(ninodes, disk, nodes, Released(ninodes, disk, b), nodes1, ip)
  {
    var b, dead := nodes[ip].addrs[NDIRECT], DeadWords(ip, NINDIRECT);
    IndirectBlock(size, ninodes, disk, nodes, owner, dead, ip);
    ReleasedFacts(size, ninodes, disk, nodes, b);
    var disk1 := Released(ninodes, disk, b);
    forall s: Slot | IsSlot(ninodes, s) && s !in dead && s != Direct(ip, NDIRECT)
      ensures Addr(disk1, nodes1, s) == Addr(disk, nodes, s)
    {
      IndirectBlock(size, ninodes, disk, nodes, owner, dead, s.i);
    }
    Unaccount(size, ninodes, disk, nodes, owner, dead, b, disk1, nodes1, {});
  }

  /** itrunc under way: only blocks of ip have been released; everything else is untouched. */
  ghost predicate Truncating(ninodes: nat, disk0: seq<Block>, nodes0: seq<Inode>, owner0: map<nat, Slot>,
                             disk: seq<Block>, nodes: seq<Inode>, owner: map<nat, Slot>, ip: nat)
    requires ip < |nodes0|
  {
    && SameNodesBut(nodes0, nodes, ip)
    && SameSlotsBut(ninodes, disk0, nodes0, disk, nodes, ip)
    && |disk| == |disk0|
    && (forall b: nat {:trigger b in owner0} | b in owner0 && owner0[b].i != ip ::
          b in owner && b < |disk| && disk[b] == disk0[b])
    && (forall b: nat {:trigger b in owner} | b in owner :: b in owner0 && owner[b] == owner0[b])
  }

  lemma TruncatingStep(size: nat, ninodes: nat, disk0: seq<Block>, nodes0: seq<Inode>, owner0: map<nat, Slot>,
                       disk: seq<Block>, nodes: seq<Inode>, owner: map<nat, Slot>, ip: nat, b: nat,
                       disk1: seq<Block>, nodes1: seq<Inode>)
    requires ip < |nodes0| && Shape(size, ninodes, disk, nodes) && Shape(size, ninodes, disk1, nodes1)
    requires Truncating(ninodes, disk0, nodes0, owner0, disk, nodes, owner, ip) && SameNodesBut(nodes, nodes1, ip)
    requires b in owner && owner[b].i == ip && DataStart(size, ninodes) <= b < size
             && disk1 == Released(ninodes, disk, b)
    requires forall c: nat {:trigger c in owner} | c in owner :: DataStart(size, ninodes) <= c < size
    requires SameSlotsBut(ninodes, disk, nodes, disk1, nodes1, ip)
    ensures Truncating(ninodes, disk0, nodes0, owner0, disk1, nodes1, owner - {b}, ip)
  {
    ReleasedFacts(size, ninodes, disk, nodes, b);
    forall s: Slot | IsSlot(ninodes, s) && s.i != ip
      ensures Addr(disk1, nodes1, s) == Addr(disk0, nodes0, s)
    {
      assert Addr(disk1, nodes1, s) == Addr(disk, nodes, s);
    }
  }

  lemma TruncatingOn(ninodes: nat, disk0: seq<Block>, nodes0: seq<Inode>, owner0: map<nat, Slot>,
                     disk: seq<Block>, nodes: seq<Inode>, owner: map<nat, Slot>,
                     disk1: seq<Block>, nodes1: seq<Inode>, owner1: map<nat, Slot>, ip: nat)
    requires ip < |nodes0|
    requires Truncating(ninodes, disk0, nodes0, owner0, disk, nodes, owner, ip)
    requires Truncating(ninodes, disk, nodes, owner, disk1, nodes1, owner1, ip)
    ensures Truncating(ninodes, disk0, nodes0, owner0, disk1, nodes1, owner1, ip)
  {
    forall s: Slot | IsSlot(ninodes, s) && s.i != ip
      ensures Addr(disk1, nodes1, s) == Addr(disk0, nodes0, s)
    {
      assert Addr(disk1, nodes1, s) == Addr(disk, nodes, s);
    }
  }

  /** A file none of whose slots holds a block. */
  ghost predicate Emptied(disk: seq<Block>, nodes: seq<Inode>, ip: nat)
    requires ip < |nodes|
  {
    forall k: nat | k <= NDIRECT :: nodes[ip].addrs[k] == 0
  }

  lemma TruncatingDone(size: nat, ninodes: nat, disk0: seq<Block>, nodes0: seq<Inode>, owner0: map<nat, Slot>,
                       disk: seq<Block>, nodes: seq<Inode>, owner: map<nat, Slot>, ip: nat, nodes1: seq<Inode>)
    requires |nodes0| == ninodes && ip < ninodes && AllDense(disk0, nodes0)
    requires Accounted(size, ninodes, disk0, nodes0, owner0, {}) && Accounted(size, ninodes, disk, nodes, owner, {})
    requires Truncating(ninodes, disk0, nodes0, owner0, disk, nodes, owner, ip) && Emptied(disk, nodes, ip)
    requires nodes1 == nodes[ip := nodes[ip].(size := 0)]
    ensures Accounted(size, ninodes, disk, nodes1, owner, {}) && AllDense(disk, nodes1)
    ensures forall b: nat :: b in owner <==> b in owner0 && owner0[b].i != ip
    ensures Wiped(ninodes, disk0, nodes0, disk, nodes1, ip)
  {
    Resized(size, ninodes, disk, nodes, owner, ip, 0, nodes1);
    assert Dense(disk, nodes1, ip, 0) by {
      forall bn: nat | bn < MAXFILE ensures Addr(disk, nodes1, DataSlot(ip, bn)) == 0 { }
    }
    forall b: nat | b in owner
      ensures owner[b].i != ip
    {
      assert Addr(disk, nodes, owner[b]) == b;
    }
    forall i: nat | i < ninodes && i != ip
      ensures nodes1[i] == nodes0[i] && Dense(disk, nodes1, i, nodes1[i].size)
      ensures Bytes(disk, nodes1, i, nodes1[i].size) == Bytes(disk0, nodes0, i, nodes0[i].size)
    {
      assert Dense(disk0, nodes0, i, nodes0[i].size);
      DenseOther(disk0, nodes0, disk, nodes, i, nodes0[i].size, ip);
      DenseResized(disk, nodes, nodes1, i, nodes0[i].size);
      TruncatedOther(size, ninodes, disk0, nodes0, owner0, disk, nodes, owner, ip);
      OtherBytes(ninodes, disk0, nodes0, disk, nodes, ip, i, nodes0[i].size);
      SameBlocksSameBytes(disk, nodes, nodes1, i, nodes0[i].size);
    }
  }

  lemma TruncatedOther(size: nat, ninodes: nat, disk0: seq<Block>, nodes0: seq<Inode>, owner0: map<nat, Slot>,
                       disk: seq<Block>, nodes: seq<Inode>, owner: map<nat, Slot>, ip: nat)
    requires |nodes0| == ninodes && ip < ninodes && Accounted(size, ninodes, disk0, nodes0, owner0, {})
    requires Truncating(ninodes, disk0, nodes0, owner0, disk, nodes, owner, ip)
    ensures OthersKept(ninodes, disk0, nodes0, disk, nodes, ip)
  {
    forall i: nat, bn: nat | i < ninodes && i != ip && bn < MAXFILE
      ensures FileBlock(disk, nodes, i, bn) == FileBlock(disk0, nodes0, i, bn)
    {
      var s := DataSlot(i, bn);
      assert Addr(disk, nodes, s) == Addr(disk0, nodes0, s);
      assert Addr(disk0, nodes0, s) != 0 ==> Addr(disk0, nodes0, s) in owner0 && owner0[Addr(disk0, nodes0, s)] == s;
    }
  }

  /** One file has lost its contents; all others are as they were. */
  ghost predicate Wiped(ninodes: nat, disk0: seq<Block>, nodes0: seq<Inode>, disk: seq<Block>, nodes: seq<Inode>,
                        ip: nat) {
    && ip < |nodes| == |nodes0| == ninodes && nodes[ip].size == 0 && SameHead(nodes0[ip], nodes[ip])
    && forall i: nat {:trigger nodes[i]} | i < ninodes && i != ip ::
         nodes[i] == nodes0[i] && Bytes(disk, nodes, i, nodes[i].size) == Bytes(disk0, nodes0, i, nodes0[i].size)
  }

  // ----- Reading

  lemma Glue(s: seq<Byte>, i: nat, j: nat, k: nat)
    requires i <= j <= k <= |s|
    ensures s[i..j] + s[j..k] == s[i..k]
  {
  }

  lemma ReadWithin(disk: seq<Block>, nodes: seq<Inode>, ip: nat, len: nat, o: nat)
    requires ip < |nodes| && Dense(disk, nodes, ip, len) && o < len
    ensures o / BSIZE < MAXFILE && Missing(disk, nodes, ip, o / BSIZE) == 0
  {
    PositionOf(o);
    assert Addr(disk, nodes, DataSlot(ip, o / BSIZE)) != 0 <==> o / BSIZE * BSIZE < len;
  }

  /** What one round of the copying loop of readi copies out. */
  lemma PieceOfBytes(disk: seq<Block>, nodes: seq<Inode>, ip: nat, len: nat, o: nat, m: nat)
    requires o + m <= len && m <= BSIZE - o % BSIZE
    ensures Bytes(disk, nodes, ip, len)[o..o + m] == FileBlock(disk, nodes, ip, o / BSIZE)[o % BSIZE..o % BSIZE + m]
  {
    var got, want := Bytes(disk, nodes, ip, len)[o..o + m],
        FileBlock(disk, nodes, ip, o / BSIZE)[o % BSIZE..o % BSIZE + m];
    forall k: nat | k < m
      ensures got[k] == want[k]
    {
      StaysInBlock(o, k);
    }
  }

  lemma StaysInBlock(o: nat, k: nat)
    requires o % BSIZE + k < BSIZE
    ensures (o + k) / BSIZE == o / BSIZE && (o + k) % BSIZE == o % BSIZE + k
  {
  }

  // ----- The specification of whole runs: one byte sequence per file

  datatype Op = Write(ip: nat, off: nat, data: seq<Byte>) | Read(ip: nat, off: nat, n: nat) | Truncate(ip: nat)

  datatype Answer = Count(r: int) | Got(r: int, bytes: seq<Byte>) | Done

  predicate Legal(nodes: seq<Inode>, op: Op) {
    && op.ip < |nodes| && nodes[op.ip].kind != T_DEV
    && (op.Write? ==> op.off < UINT && |op.data| < UINT)
    && (op.Read? ==> op.off < UINT && op.n < UINT)
  }

  datatype Outcome = Outcome(files: seq<seq<Byte>>, answer: Answer)

  function FileStep(files: seq<seq<Byte>>, op: Op): (r: Outcome)
    ensures |r.files| == |files|
  {
    var f := if op.ip < |files| then files[op.ip] else [];
    if op.ip >= |files| then Outcome(files, Done) else
    match op
    case Write(ip, off, data) =>
      if off > |f| || off + |data| >= UINT then Outcome(files, Count(-1))
      else Outcome(files[ip := Overwrite(f, off, data[..Clamped(off, |data|)])], Count(Clamped(off, |data|)))
    case Read(ip, off, n) =>
      if off > |f| || off + n >= UINT then Outcome(files, Got(-1, []))
      else
        var r := if off + n <= |f| then n else |f| - off;
        Outcome(files, Got(r, f[off..off + r]))
    case Truncate(ip) => Outcome(files[ip := []], Done)
  }

  datatype History = History(files: seq<seq<Byte>>, answers: seq<Answer>)

  function FileRun(files: seq<seq<Byte>>, ops: seq<Op>): (r: History)
    ensures |r.files| == |files| && |r.answers| == |ops|
  {
    if ops == [] then History(files, [])
    else
      var before := FileRun(files, ops[..|ops| - 1]);
      var step := FileStep(before.files, ops[|ops| - 1]);
      History(step.files, before.answers + [step.answer])
  }

  function FilesOf(disk: seq<Block>, nodes: seq<Inode>): (f: seq<seq<Byte>>)
    ensures |f| == |nodes|
  {
    seq(|nodes|, (i: nat) requires i < |nodes| => Bytes(disk, nodes, i, nodes[i].size))
  }

  /** Every inode keeps its kind and its link count. */
  ghost predicate SameHeads(nodes0: seq<Inode>, nodes: seq<Inode>) {
    |nodes| == |nodes0| && forall i: nat {:trigger nodes[i]} | i < |nodes| :: SameHead(nodes0[i], nodes[i])
  }

  lemma FilesWritten(ninodes: nat, disk0: seq<Block>, nodes0: seq<Inode>, disk: seq<Block>, nodes: seq<Inode>,
                     ip: nat, off: nat, data: seq<Byte>)
    requires Wrote(ninodes, disk0, nodes0, disk, nodes, ip, off, data)
    ensures FilesOf(disk, nodes) == FilesOf(disk0, nodes0)[ip := Overwrite(FilesOf(disk0, nodes0)[ip], off, data)]
    ensures SameHeads(nodes0, nodes)
  {
    assert forall i: nat | i < ninodes && i != ip :: nodes[i] == nodes0[i];
  }

  lemma FilesWiped(ninodes: nat, disk0: seq<Block>, nodes0: seq<Inode>, disk: seq<Block>, nodes: seq<Inode>, ip: nat)
    requires Wiped(ninodes, disk0, nodes0, disk, nodes, ip)
    ensures FilesOf(disk, nodes) == FilesOf(disk0, nodes0)[ip := []]
    ensures SameHeads(nodes0, nodes)
  {
    assert forall i: nat | i < ninodes && i != ip :: nodes[i] == nodes0[i];
  }

  // ----- Blocks in use, from the lengths of the files

  /** What all files together hold, their indirect blocks included. */
  function BlocksInUse(files: seq<seq<Byte>>): nat {
    if files == [] then 0 else BlocksInUse(files[..|files| - 1]) + BlocksFor(|files[|files| - 1]|)
  }

  lemma {:induction false} OneFileChanges(files: seq<seq<Byte>>, i: nat, f: seq<Byte>)
    requires i < |files|
    ensures BlocksInUse(files[i := f]) + BlocksFor(|files[i]|) == BlocksInUse(files) + BlocksFor(|f|)
  {
    var last := |files| - 1;
    if i == last {
      assert files[i := f][..last] == files[..last];
    } else {
      OneFileChanges(files[..last], i, f);
      assert files[i := f][..last] == files[..last][i := f];
    }
  }

  /** The block of the file that a data slot is for. */
  function SlotNumber(s: Slot): nat {
    if s.Direct? then s.k else s.j + NDIRECT
  }

  ghost function BlocksOf(owner: map<nat, Slot>, i: nat): set<nat> {
    set b: nat | b in owner && owner[b].i == i
  }

  ghost function Elements(list: seq<nat>): set<nat> {
    set b: nat | b in list
  }

  lemma {:induction false} DistinctCount(list: seq<nat>, owner: map<nat, Slot>, i: nat)
    requires forall k: nat {:trigger list[k]} | k < |list| :: list[k] in owner && owner[list[k]] == DataSlot(i, k)
    ensures |Elements(list)| == |list|
  {
    if list != [] {
      var last := |list| - 1;
      DistinctCount(list[..last], owner, i);
      assert forall k: nat | k < last :: list[k] != list[last];
      assert Elements(list) == Elements(list[..last]) + {list[last]};
    }
  }

  /** File i holds the blocks listed, one for each data slot, and its indirect block p. */
  lemma ListedBlocks(owner: map<nat, Slot>, i: nat, list: seq<nat>, p: nat)
    requires forall k: nat {:trigger list[k]} | k < |list| :: list[k] in owner && owner[list[k]] == DataSlot(i, k)
    requires p != 0 ==> p in owner && owner[p] == Direct(i, NDIRECT)
    requires forall b: nat {:trigger b in owner} | b in owner && owner[b].i == i :: b in list || b == p != 0
    ensures |BlocksOf(owner, i)| == |list| + if p == 0 then 0 else 1
  {
    DistinctCount(list, owner, i);
    assert BlocksOf(owner, i) == Elements(list) + if p == 0 then {} else {p};
  }

  lemma CountsUpTo(len: nat, bn: nat)
    ensures bn * BSIZE < len <==> bn < (len + BSIZE - 1) / BSIZE
  {
  }

  /** A file without holes holds as many blocks as its length says. */
  lemma FileHolds(size: nat, ninodes: nat, disk: seq<Block>, nodes: seq<Inode>, owner: map<nat, Slot>, i: nat, len: nat)
    requires Accounted(size, ninodes, disk, nodes, owner, {}) && i < ninodes && Dense(disk, nodes, i, len)
    ensures |BlocksOf(owner, i)| == BlocksFor(len)
  {
    var n, p := (len + BSIZE - 1) / BSIZE, nodes[i].addrs[NDIRECT];
    var list := seq(n, (bn: nat) => Addr(disk, nodes, DataSlot(i, bn)));
    forall bn: nat | bn < MAXFILE ensures Addr(disk, nodes, DataSlot(i, bn)) != 0 <==> bn < n { CountsUpTo(len, bn); }
    assert Addr(disk, nodes, Direct(i, NDIRECT)) == p;
    forall b: nat | b in owner && owner[b].i == i ensures b in list || b == p != 0 {
      var s := owner[b];
      assert Addr(disk, nodes, s) == b && IsSlot(ninodes, s);
      if s != Direct(i, NDIRECT) {
        assert s == DataSlot(i, SlotNumber(s));
        assert list[SlotNumber(s)] == b;
      }
    }
    ListedBlocks(owner, i, list, p);
  }

  ghost function BlocksBelow(owner: map<nat, Slot>, n: nat): set<nat> {
    set b: nat | b in owner && owner[b].i < n
  }

  lemma {:induction false} BelowHolds(size: nat, ninodes: nat, disk: seq<Block>, nodes: seq<Inode>,
                                      owner: map<nat, Slot>, n: nat)
    requires Accounted(size, ninodes, disk, nodes, owner, {}) && AllDense(disk, nodes) && n <= ninodes
    ensures |BlocksBelow(owner, n)| == BlocksInUse(FilesOf(disk, nodes)[..n])
  {
    var files := FilesOf(disk, nodes)[..n];
    if n == 0 {
      assert BlocksBelow(owner, n) == {};
    } else {
      BelowHolds(size, ninodes, disk, nodes, owner, n - 1);
      assert files[..n - 1] == FilesOf(disk, nodes)[..n - 1];
      assert Dense(disk, nodes, n - 1, nodes[n - 1].size);
      FileHolds(size, ninodes, disk, nodes, owner, n - 1, nodes[n - 1].size);
      assert BlocksBelow(owner, n) == BlocksBelow(owner, n - 1) + BlocksOf(owner, n - 1);
      assert BlocksBelow(owner, n - 1) !! BlocksOf(owner, n - 1);
    }
  }

  /** Between calls as many blocks are allocated as the lengths of the files say. */
  lemma AllHeld(size: nat, ninodes: nat, disk: seq<Block>, nodes: seq<Inode>, owner: map<nat, Slot>)
    requires Accounted(size, ninodes, disk, nodes, owner, {}) && AllDense(disk, nodes)
    ensures |owner| == BlocksInUse(FilesOf(disk, nodes))
  {
    BelowHolds(size, ninodes, disk, nodes, owner, ninodes);
    assert FilesOf(disk, nodes)[..ninodes] == FilesOf(disk, nodes);
    assert BlocksBelow(owner, ninodes) == owner.Keys;
  }

  /** What a writei of a file adds. */
  lemma WriteNeeds(files: seq<seq<Byte>>, ip: nat, off: nat, data: seq<Byte>)
    requires ip < |files| && off <= |files[ip]| && off + |data| < UINT
    ensures BlocksInUse(FileStep(files, Write(ip, off, data)).files) ==
            BlocksInUse(files) + Extra(|files[ip]|, off + Clamped(off, |data|))
  {
    OneFileChanges(files, ip, Overwrite(files[ip], off, data[..Clamped(off, |data|)]));
  }

  /** Emptying a file frees as many blocks as its length says. */
  lemma TruncateFrees(size: nat, ninodes: nat, disk0: seq<Block>, nodes0: seq<Inode>, owner0: map<nat, Slot>,
                      disk: seq<Block>, nodes: seq<Inode>, owner: map<nat, Slot>, ip: nat)
    requires Accounted(size, ninodes, disk0, nodes0, owner0, {}) && AllDense(disk0, nodes0)
    requires Accounted(size, ninodes, disk, nodes, owner, {}) && AllDense(disk, nodes)
    requires Wiped(ninodes, disk0, nodes0, disk, nodes, ip)
    ensures |owner| == |owner0| - BlocksFor(nodes0[ip].size)
  {
    AllHeld(size, ninodes, disk0, nodes0, owner0);
    AllHeld(size, ninodes, disk, nodes, owner);
    FilesWiped(ninodes, disk0, nodes0, disk, nodes, ip);
    OneFileChanges(FilesOf(disk0, nodes0), ip, []);
  }

  lemma RunOn(files: seq<seq<Byte>>, ops: seq<Op>, i: nat)
    requires i < |ops|
    ensures var before := FileRun(files, ops[..i]);
      var step := FileStep(before.files, ops[i]);
      FileRun(files, ops[..i + 1]) == History(step.files, before.answers + [step.answer])
  {
    assert ops[..i + 1][..i] == ops[..i];
  }

  /** The blocks suffice after each of the first n operations of a run. */
  ghost predicate RoomUpTo(capacity: int, files: seq<seq<Byte>>, ops: seq<Op>, n: nat)
    requires n <= |ops|
  {
    forall k: nat {:trigger FileRun(files, ops[..k])} | k <= n ::
        BlocksInUse(FileRun(files, ops[..k]).files) <= capacity
  }

  lemma RoomOn(capacity: int, files: seq<seq<Byte>>, ops: seq<Op>, i: nat)
    requires i < |ops| && RoomUpTo(capacity, files, ops, i)
    ensures var after := FileStep(FileRun(files, ops[..i]).files, ops[i]).files;
      && (BlocksInUse(after) <= capacity ==> RoomUpTo(capacity, files, ops, i + 1))
      && (BlocksInUse(after) > capacity ==> !RoomUpTo(capacity, files, ops, |ops|))
  {
    RunOn(files, ops, i);
  }

  /** The blocks suffice after every operation of a run. */
  ghost predicate RoomFor(capacity: int, files: seq<seq<Byte>>, ops: seq<Op>) {
    RoomUpTo(capacity, files, ops, |ops|)
  }

  // ----- What bmap promises, relative to the state before

  ghost predicate Mapped(ninodes: nat, disk0: seq<Block>, nodes0: seq<Inode>, disk: seq<Block>, nodes: seq<Inode>,
                         ip: nat, bn: nat)
    requires ip < |nodes0|
  {
    && |nodes| == |nodes0| && nodes == nodes0[ip := nodes0[ip].(addrs := nodes[ip].addrs)]
    && (nodes[ip].addrs[NDIRECT] != 0 <==> nodes0[ip].addrs[NDIRECT] != 0 || bn >= NDIRECT)
    && (forall s: Slot {:trigger Addr(disk, nodes, s)} |
          IsSlot(ninodes, s) && s != DataSlot(ip, bn) && s != Direct(ip, NDIRECT) ::
          Addr(disk, nodes, s) == Addr(disk0, nodes0, s))
    && SameBlocks(ninodes, disk0, nodes0, disk, nodes)
  }

  /** A fresh indirect block holds no block numbers, so bmap goes on as if it had been there. */
  lemma MappedAfterFill(ninodes: nat, disk0: seq<Block>, nodes0: seq<Inode>, disk1: seq<Block>, nodes1: seq<Inode>,
                        disk: seq<Block>, nodes: seq<Inode>, ip: nat, bn: nat)
    requires |nodes0| == ninodes && ip < ninodes && NDIRECT <= bn < MAXFILE && nodes0[ip].addrs[NDIRECT] == 0
             && |nodes1| == ninodes
    requires nodes1 == nodes0[ip := nodes0[ip].(addrs := nodes0[ip].addrs[NDIRECT := nodes1[ip].addrs[NDIRECT]])]
    requires forall s: Slot {:trigger Addr(disk1, nodes1, s)} | IsSlot(ninodes, s) && s != Direct(ip, NDIRECT) ::
               Addr(disk1, nodes1, s) == Addr(disk0, nodes0, s)
    requires SameBlocks(ninodes, disk0, nodes0, disk1, nodes1)
    requires nodes1[ip].addrs[NDIRECT] != 0 && Mapped(ninodes, disk1, nodes1, disk, nodes, ip, bn)
    ensures Mapped(ninodes, disk0, nodes0, disk, nodes, ip, bn)
    ensures Missing(disk0, nodes0, ip, bn) == 2 && Missing(disk1, nodes1, ip, bn) == 1
  {
    var j := bn - NDIRECT;
    assert DataSlot(ip, bn) == Indirect(ip, j);
    assert Addr(disk1, nodes1, Indirect(ip, j)) == Addr(disk0, nodes0, Indirect(ip, j)) == 0;
    forall s: Slot | IsSlot(ninodes, s) && s != Indirect(ip, j) && s != Direct(ip, NDIRECT)
      ensures Addr(disk, nodes, s) == Addr(disk0, nodes0, s)
    {
      assert Addr(disk, nodes, s) == Addr(disk1, nodes1, s);
    }
    forall i: nat, c: nat | i < ninodes && c < MAXFILE
      ensures FileBlock(disk, nodes, i, c) == FileBlock(disk0, nodes0, i, c)
    {
      assert FileBlock(disk, nodes, i, c) == FileBlock(disk1, nodes1, i, c);
    }
  }

  class FileSys {
    const size: nat // superblock
    const ninodes: nat
    var disk: seq<Block>
    var nodes: seq<Inode> // in-core copies
    var dnodes: seq<Inode> // on disk
    ghost var owner: map<nat, Slot>
    ghost const meta: seq<Block> // the blocks before the bitmap, which no method may change

    ghost predicate Ok()
      reads this
    {
      Accounted(size, ninodes, disk, nodes, owner, {}) && MetaKept()
    }

    ghost predicate MetaKept()
      reads this
    {
      StartsWith(disk, meta) && |meta| == ninodes / 8 + 3
    }

    /** balloc: the lowest block whose bit is clear, looking at whole bitmap blocks;
        None is the panic "balloc: out of blocks". */
    method BAlloc() returns (r: Option<nat>)
      requires Shape(size, ninodes, disk, nodes)
      modifies this`disk
      ensures r.None? ==> disk == old(disk) && forall c: nat | c < size :: Bit(ninodes, disk, c)
      ensures r.Some? ==>
                && r.value / BPB * BPB < size && !Bit(ninodes, old(disk), r.value)
                && (forall c: nat | c < r.value :: Bit(ninodes, old(disk), c))
                && (r.value < size <==> exists c: nat :: c < size && !Bit(ninodes, old(disk), c))
                && disk == SetBit(ninodes, old(disk), r.value)
    {
      var b := 0;
      ghost var n := 0;
      while b < size
        invariant b == n * BPB && disk == old(disk) && Scanned(ninodes, disk, n, 0)
        decreases size - b
      {
        var bn := BitmapBlock(ninodes, b);
        BitmapPlace(ninodes, n, 0);
        var bi := 0;
        while bi < BPB
          invariant 0 <= bi <= BPB && disk == old(disk) && Scanned(ninodes, disk, n, bi)
        {
          if !BlockBit(disk[bn], bi) {
            BitmapPlace(ninodes, n, bi);
            forall c: nat | c < b + bi ensures Bit(ninodes, disk, c) { ScannedBits(ninodes, disk, n, bi, c); }
            disk := disk[bn := WithBit(disk[bn], bi)];
            return Some(b + bi);
          }
          bi := bi + 1;
        }
        b := b + BPB;
        n := n + 1;
      }
      forall c: nat | c < size ensures Bit(ninodes, disk, c) { ScannedBits(ninodes, disk, n, 0, c); }
      r := None;
    }

    /** balloc as bmap uses it.  With no free block left on the disk balloc panics or
        returns a block past its end; both end the run, here with None. */
    method BAllocOnDisk() returns (r: Option<nat>)
      requires Ok()
      modifies this`disk
      ensures r.Some? <==> |owner| < size - DataStart(size, ninodes)
      ensures r.Some? ==>
                && DataStart(size, ninodes) <= r.value < size && r.value !in owner
                && disk == SetBit(ninodes, old(disk), r.value)
    {
      OwnersInRange(size, ninodes, disk, nodes, owner);
      ghost var disk0 := disk;
      r := BAlloc();
      if r.Some? && r.value < size {
        assert !Bit(ninodes, disk0, r.value);
      } else {
        forall c: nat | DataStart(size, ninodes) <= c < size
          ensures c in owner
        {
          assert Bit(ninodes, disk0, c);
        }
        r := None;
      }
    }

    /** bmap's `addrs[k] = balloc(dev)`. */
    method FillDirect(ip: nat, k: nat) returns (ok: bool)
      requires Ok() && ip < ninodes && k <= NDIRECT && nodes[ip].addrs[k] == 0
      modifies this`disk, this`nodes, this`owner
      ensures ok <==> |old(owner)| < size - DataStart(size, ninodes)
      ensures ok ==>
                && Ok() && 0 < nodes[ip].addrs[k] < size && |owner| == |old(owner)| + 1
                && nodes == old(nodes)[ip := old(nodes)[ip].(addrs := old(nodes)[ip].addrs[k := nodes[ip].addrs[k]])]
                && (forall s: Slot {:trigger Addr(disk, nodes, s)} | IsSlot(ninodes, s) && s != Direct(ip, k) ::
                      Addr(disk, nodes, s) == Addr(old(disk), old(nodes), s))
                && SameBlocks(ninodes, old(disk), old(nodes), disk, nodes)
    {
      ghost var disk0, nodes0, owner0 := disk, nodes, owner;
      var b := BAllocOnDisk();
      if b.None? {
        return false;
      }
      nodes := nodes[ip := nodes[ip].(addrs := nodes[ip].addrs[k := b.value])];
      owner := owner[b.value := Direct(ip, k)];
      AllocDirect(size, ninodes, disk0, nodes0, owner0, ip, k, b.value, nodes);
      SetBitFacts(size, ninodes, disk0, nodes0, b.value);
      AllocKeepsBlocks(size, ninodes, disk0, nodes0, owner0, ip, b.value, Direct(ip, k), disk, nodes);
      ok := true;
    }

    /** bmap's `a[j] = balloc(dev)` in the indirect block. */
    method FillIndirect(ip: nat, j: nat) returns (ok: bool)
      requires Ok() && ip < ninodes && j < NINDIRECT
      requires nodes[ip].addrs[NDIRECT] != 0 && Addr(disk, nodes, Indirect(ip, j)) == 0
      modifies this`disk, this`owner
      ensures ok <==> |old(owner)| < size - DataStart(size, ninodes)
      ensures ok ==>
                && Ok() && 0 < Addr(disk, nodes, Indirect(ip, j)) < size && |owner| == |old(owner)| + 1
                && (forall s: Slot {:trigger Addr(disk, nodes, s)} | IsSlot(ninodes, s) && s != Indirect(ip, j) ::
                      Addr(disk, nodes, s) == Addr(old(disk), nodes, s))
                && SameBlocks(ninodes, old(disk), nodes, disk, nodes)
    {
      ghost var disk0, owner0 := disk, owner;
      var p := nodes[ip].addrs[NDIRECT];
      IndirectBlock(size, ninodes, disk, nodes, owner, {}, ip);
      var b := BAllocOnDisk();
      if b.None? {
        return false;
      }
      SetBitFacts(size, ninodes, disk0, nodes, b.value);
      WrittenMeta(disk0, BitmapBlock(ninodes, b.value), disk[BitmapBlock(ninodes, b.value)], meta);
      WrittenMeta(disk, p, PutWord(disk[p], j, b.value), meta);
      disk := disk[p := PutWord(disk[p], j, b.value)];
      owner := owner[b.value := Indirect(ip, j)];
      AllocIndirect(size, ninodes, disk0, nodes, owner0, ip, j, b.value, disk);
      AllocKeepsBlocks(size, ninodes, disk0, nodes, owner0, ip, b.value, Indirect(ip, j), disk, nodes);
      ok := true;
    }

    /** bmap, second part: file blocks found through the indirect block. */
    method BMapIndirect(ip: nat, bn: nat) returns (r: Option<nat>)
      requires Ok() && ip < ninodes && NDIRECT <= bn < MAXFILE && nodes[ip].addrs[NDIRECT] != 0
      modifies this`disk, this`owner
      ensures r.Some? <==> |old(owner)| + Missing(old(disk), nodes, ip, bn) <= size - DataStart(size, ninodes)
      ensures r.Some? ==>
                && Ok() && r.value == Addr(disk, nodes, DataSlot(ip, bn)) && 0 < r.value < size
                && |owner| == |old(owner)| + Missing(old(disk), nodes, ip, bn)
                && Mapped(ninodes, old(disk), nodes, disk, nodes, ip, bn)
      ensures Missing(old(disk), nodes, ip, bn) == 0 ==> disk == old(disk) && owner == old(owner)
    {
      OwnersInRange(size, ninodes, disk, nodes, owner);
      IndirectBlock(size, ninodes, disk, nodes, owner, {}, ip);
      var j := bn - NDIRECT;
      assert DataSlot(ip, bn) == Indirect(ip, j);
      var p := nodes[ip].addrs[NDIRECT];
      if Word(disk[p], j) == 0 {
        var ok := FillIndirect(ip, j);
        if !ok {
          return None;
        }
      }
      assert Addr(disk, nodes, Indirect(ip, j)) == Word(disk[p], j);
      return Some(Word(disk[p], j));
    }

    /** bmap, first part: the blocks listed in the inode. */
    method BMapDirect(ip: nat, bn: nat) returns (r: Option<nat>)
      requires Ok() && ip < ninodes && bn < NDIRECT
      modifies this`disk, this`nodes, this`owner
      ensures r.Some? <==> |old(owner)| + Missing(old(disk), old(nodes), ip, bn) <= size - DataStart(size, ninodes)
      ensures r.Some? ==>
                && Ok() && r.value == Addr(disk, nodes, DataSlot(ip, bn)) && 0 < r.value < size
                && |owner| == |old(owner)| + Missing(old(disk), old(nodes), ip, bn)
                && Mapped(ninodes, old(disk), old(nodes), disk, nodes, ip, bn)
      ensures Missing(old(disk), old(nodes), ip, bn) == 0
              ==> disk == old(disk) && nodes == old(nodes) && owner == old(owner)
    {
      OwnersInRange(size, ninodes, disk, nodes, owner);
      if nodes[ip].addrs[bn] == 0 {
        var ok := FillDirect(ip, bn);
        if !ok {
          return None;
        }
      }
      assert Addr(disk, nodes, Direct(ip, bn)) == nodes[ip].addrs[bn];
      return Some(nodes[ip].addrs[bn]);
    }

    /** bmap: the disk block of file block bn, allocated if there is none. */
    method BMap(ip: nat, bn: nat) returns (r: Option<nat>)
      requires Ok() && ip < ninodes && bn < MAXFILE
      modifies this`disk, this`nodes, this`owner
      ensures r.Some? <==> |old(owner)| + Missing(old(disk), old(nodes), ip, bn) <= size - DataStart(size, ninodes)
      ensures r.Some? ==>
                && Ok() && r.value == Addr(disk, nodes, DataSlot(ip, bn)) && 0 < r.value < size
                && |owner| == |old(owner)| + Missing(old(disk), old(nodes), ip, bn)
                && Mapped(ninodes, old(disk), old(nodes), disk, nodes, ip, bn)
      ensures Missing(old(disk), old(nodes), ip, bn) == 0
              ==> disk == old(disk) && nodes == old(nodes) && owner == old(owner)
    {
      if bn < NDIRECT {
        r := BMapDirect(ip, bn);
      } else if nodes[ip].addrs[NDIRECT] != 0 {
        r := BMapIndirect(ip, bn);
      } else {
        r := BMapFresh(ip, bn);
      }
    }

    /** bmap when the indirect block itself has to be allocated first. */
    method BMapFresh(ip: nat, bn: nat) returns (r: Option<nat>)
      requires Ok() && ip < ninodes && NDIRECT <= bn < MAXFILE && nodes[ip].addrs[NDIRECT] == 0
      modifies this`disk, this`nodes, this`owner
      ensures Missing(old(disk), old(nodes), ip, bn) == 2
      ensures r.Some? <==> |old(owner)| + 2 <= size - DataStart(size, ninodes)
      ensures r.Some? ==>
                && Ok() && r.value == Addr(disk, nodes, DataSlot(ip, bn)) && 0 < r.value < size
                && |owner| == |old(owner)| + 2
                && Mapped(ninodes, old(disk), old(nodes), disk, nodes, ip, bn)
    {
      OwnersInRange(size, ninodes, disk, nodes, owner);
      ghost var disk0, nodes0 := disk, nodes;
      assert Addr(disk, nodes, DataSlot(ip, bn)) == 0;
      var ok := FillDirect(ip, NDIRECT);
      if !ok {
        return None;
      }
      ghost var disk1, nodes1 := disk, nodes;
      assert Addr(disk, nodes, DataSlot(ip, bn)) == 0;
      r := BMapIndirect(ip, bn);
      if r.Some? {
        MappedAfterFill(ninodes, disk0, nodes0, disk1, nodes1, disk, nodes, ip, bn);
      }
    }

    // ----- Reading and writing

    /** Between calls: exact accounting, no holes, and the disk inodes up to date. */
    ghost predicate Valid()
      reads this
    {
      Ok() && dnodes == nodes && AllDense(disk, nodes)
    }

    ghost function Contents(i: nat): seq<Byte>
      requires i < |nodes|
      reads this
    {
      Bytes(disk, nodes, i, nodes[i].size)
    }

    ghost function Capacity(): int {
      size - DataStart(size, ninodes)
    }

    lemma WithinCapacity()
      requires Ok()
      ensures |owner| <= Capacity()
    {
      OwnersInRange(size, ninodes, disk, nodes, owner);
    }

    /** One round of the copying loop of writei: block off/BSIZE gets its piece. */
    method WritePiece(ip: nat, off: nat, piece: seq<Byte>, ghost len: nat, ghost newLen: nat) returns (ok: bool)
      requires Ok() && ip < ninodes && Dense(disk, nodes, ip, len) && StepTo(len, off, |piece|, newLen)
      modifies this`disk, this`nodes, this`owner
      ensures ok <==> |old(owner)| + BlocksFor(newLen) - BlocksFor(len) <= Capacity()
      ensures ok ==>
                && Ok() && SameNodesBut(old(nodes), nodes, ip)
                && |owner| == |old(owner)| + BlocksFor(newLen) - BlocksFor(len)
                && (newLen == len ==> nodes == old(nodes))
                && Dense(disk, nodes, ip, newLen)
                && SameSlotsBut(ninodes, old(disk), old(nodes), disk, nodes, ip)
                && PieceWritten(ninodes, old(disk), old(nodes), disk, nodes, ip, off / BSIZE, off % BSIZE, piece)
    {
      var bn := off / BSIZE;
      MissingStep(disk, nodes, ip, len, off, |piece|, newLen);
      var a := BMap(ip, bn);
      if a.None? {
        return false;
      }
      DenseStep(old(disk), old(nodes), disk, nodes, ip, len, off, |piece|, newLen);
      ghost var disk1 := disk;
      disk := disk[a.value := Splice(disk[a.value], off % BSIZE, piece)];
      PieceKeeps(size, ninodes, old(disk), old(nodes), disk1, nodes, owner, ip, bn, off % BSIZE, piece, disk);
      DenseSame(disk1, disk, nodes, ip, newLen);
      ok := true;
    }

    /** The copying loop of writei after tot bytes; n0 blocks were allocated before it. */
    ghost predicate Copied(ip: nat, src: seq<Byte>, off: nat, tot: nat, pos: nat, disk0: seq<Block>, nodes0: seq<Inode>,
                           n0: nat)
      requires ip < |nodes0| && tot <= |src|
      reads this
    {
      && Ok() && Writing(ninodes, disk0, nodes0, disk, nodes, ip, off, src, tot)
      && pos == off + tot && |owner| == n0 + Extra(nodes0[ip].size, pos)
    }

    /** One round of the loop. */
    method CopyRound(ip: nat, src: seq<Byte>, ghost off0: nat, tot: nat, off: nat,
                     ghost disk0: seq<Block>, ghost nodes0: seq<Inode>) returns (ok: bool, tot1: nat, off1: nat)
      requires ip < ninodes == |nodes0| && tot < |src| && off == off0 + tot
      requires off0 <= nodes0[ip].size && off0 + |src| <= MAXFILE * BSIZE
      requires Ok() && Writing(ninodes, disk0, nodes0, disk, nodes, ip, off0, src, tot)
      modifies this`disk, this`nodes, this`owner
      ensures tot < tot1 <= |src| && off1 == off0 + tot1
      ensures ok ==> Ok() && Writing(ninodes, disk0, nodes0, disk, nodes, ip, off0, src, tot1)
      ensures ok ==> |owner| == |old(owner)| + Extra(nodes0[ip].size, off1) - Extra(nodes0[ip].size, off)
      ensures !ok ==> |old(owner)| + Extra(nodes0[ip].size, off1) - Extra(nodes0[ip].size, off) > Capacity()
    {
      var m := PieceLen(off, |src| - tot);
      tot1, off1 := tot + m, off + m;
      ghost var size0, disk1, nodes1 := nodes0[ip].size, disk, nodes;
      var piece := src[tot..tot1];
      RoundStep(size0, off, off1, |piece|);
      ok := WritePiece(ip, off, piece, Reach(size0, off), Reach(size0, off1));
      if ok {
        WritingStep(ninodes, disk0, nodes0, disk1, nodes1, disk, nodes, ip, off0, src, tot, tot1, off, off1);
      }
    }

    /** The same round with the blocks counted from the start of the loop. */
    method CountedRound(ip: nat, src: seq<Byte>, ghost off0: nat, tot: nat, off: nat,
                        ghost disk0: seq<Block>, ghost nodes0: seq<Inode>, ghost n0: nat)
      returns (ok: bool, tot1: nat, off1: nat)
      requires ip < ninodes == |nodes0| && tot < |src| && off == off0 + tot
      requires off0 <= nodes0[ip].size && off0 + |src| <= MAXFILE * BSIZE
      requires Copied(ip, src, off0, tot, off, disk0, nodes0, n0)
      modifies this`disk, this`nodes, this`owner
      ensures tot < tot1 <= |src| && off1 == off0 + tot1
      ensures ok ==> Copied(ip, src, off0, tot1, off1, disk0, nodes0, n0)
      ensures !ok ==> n0 + Extra(nodes0[ip].size, off0 + |src|) > Capacity()
    {
      ok, tot1, off1 := CopyRound(ip, src, off0, tot, off, disk0, nodes0);
      ExtraGrows(nodes0[ip].size, off1, off0 + |src|);
    }

    /** The copying loop of writei. */
    method CopyIn(ip: nat, src: seq<Byte>, off0: nat) returns (ok: bool)
      requires Ok() && ip < ninodes && Dense(disk, nodes, ip, nodes[ip].size)
      requires off0 <= nodes[ip].size && off0 + |src| <= MAXFILE * BSIZE
      modifies this`disk, this`nodes, this`owner
      ensures ok ==> Copied(ip, src, off0, |src|, off0 + |src|, old(disk), old(nodes), |old(owner)|)
      ensures !ok ==> |old(owner)| + Extra(old(nodes)[ip].size, off0 + |src|) > Capacity()
    {
      ghost var disk0, nodes0, n0 := disk, nodes, |owner|;
      WritingStart(ninodes, disk, nodes, ip, off0, src);
      var tot, off := 0, off0;
      while tot < |src|
        invariant tot <= |src| && off == off0 + tot
        invariant Copied(ip, src, off0, tot, off, disk0, nodes0, n0)
      {
        ok, tot, off := CountedRound(ip, src, off0, tot, off, disk0, nodes0, n0);
        if !ok { return; }
      }
      ok := true;
    }

    /** writei once the request has been checked: copy, then record a new size on disk too. */
    method StoreData(ip: nat, data: seq<Byte>, off: nat) returns (ok: bool)
      requires Valid() && ip < ninodes && off <= nodes[ip].size && off + |data| <= MAXFILE * BSIZE
      modifies this`disk, this`nodes, this`dnodes, this`owner
      ensures ok <==> |old(owner)| + Extra(old(nodes)[ip].size, off + |data|) <= Capacity()
      ensures ok ==>
                && Valid() && |owner| == |old(owner)| + Extra(old(nodes)[ip].size, off + |data|)
                && Wrote(ninodes, old(disk), old(nodes), disk, nodes, ip, off, data)
    {
      assert Dense(disk, nodes, ip, nodes[ip].size);
      ghost var disk0, nodes0 := disk, nodes;
      ok := CopyIn(ip, data, off);
      if !ok {
        return false;
      }
      WithinCapacity();
      ghost var nodes1 := nodes[ip := nodes[ip].(size := Reach(nodes0[ip].size, off + |data|))];
      WritingDone(size, ninodes, disk0, nodes0, disk, nodes, owner, ip, off, data, nodes1);
      if |data| > 0 && off + |data| > nodes[ip].size {
        nodes := nodes[ip := nodes[ip].(size := off + |data|)];
        dnodes := dnodes[ip := nodes[ip]];
      }
      assert nodes == nodes1;
    }

    /** writei for anything but a device; ok is false when the disk is full, which is a panic. */
    method WriteI(ip: nat, src: seq<Byte>, off: nat) returns (ok: bool, r: int)
      requires Valid() && ip < ninodes && nodes[ip].kind != T_DEV && off < UINT && |src| < UINT
      modifies this`disk, this`nodes, this`dnodes, this`owner
      ensures off > old(nodes)[ip].size || off + |src| >= UINT ==>
                ok && r == -1 && disk == old(disk) && nodes == old(nodes) && dnodes == old(dnodes)
                    && owner == old(owner)
      ensures off <= old(nodes)[ip].size && off + |src| < UINT ==>
                var n := Clamped(off, |src|);
                && (ok <==> |old(owner)| + Extra(old(nodes)[ip].size, off + n) <= Capacity())
                && (ok ==>
                      && Valid() && r == n
                      && |owner| == |old(owner)| + Extra(old(nodes)[ip].size, off + n)
                      && Wrote(ninodes, old(disk), old(nodes), disk, nodes, ip, off, src[..n]))
    {
      assert Dense(disk, nodes, ip, nodes[ip].size);
      var n := |src|;
      if off > nodes[ip].size || Wraps(off, n) {
        return true, -1;
      }
      if off + n > MAXFILE * BSIZE {
        n := MAXFILE * BSIZE - off;
      }
      ok := StoreData(ip, src[..n], off);
      r := n;
    }

    // ----- Truncating

    /** bfree; its panic "freeing free block" is excluded by the bit being set. */
    method BFree(b: nat)
      requires Shape(size, ninodes, disk, nodes) && DataStart(size, ninodes) <= b < size && Bit(ninodes, disk, b)
      modifies this`disk
      ensures disk == Released(ninodes, old(disk), b)
    {
      disk := disk[b := Zero()];
      var bn := BitmapBlock(ninodes, b);
      disk := disk[bn := WithoutBit(disk[bn], b % BPB)];
    }

    /** itrunc, first loop: the blocks listed in the inode. */
    method TruncDirect(ip: nat)
      requires Ok() && ip < ninodes
      modifies this`disk, this`nodes, this`owner
      ensures Ok() && Truncating(ninodes, old(disk), old(nodes), old(owner), disk, nodes, owner, ip)
      ensures forall k: nat | k < NDIRECT :: nodes[ip].addrs[k] == 0
    {
      ghost var disk0, nodes0, owner0 := disk, nodes, owner;
      var i := 0;
      while i < NDIRECT
        invariant 0 <= i <= NDIRECT && Ok()
        invariant Truncating(ninodes, disk0, nodes0, owner0, disk, nodes, owner, ip)
        invariant forall k: nat | k < i :: nodes[ip].addrs[k] == 0
      {
        if nodes[ip].addrs[i] != 0 { TruncAddr(ip, i, disk0, nodes0, owner0); }
        i := i + 1;
      }
    }

    /** The body of that loop. */
    method TruncAddr(ip: nat, i: nat, ghost disk0: seq<Block>, ghost nodes0: seq<Inode>, ghost owner0: map<nat, Slot>)
      requires Ok() && ip < ninodes && i < NDIRECT && nodes[ip].addrs[i] != 0 && ip < |nodes0|
      requires Truncating(ninodes, disk0, nodes0, owner0, disk, nodes, owner, ip)
      modifies this`disk, this`nodes, this`owner
      ensures Ok() && Truncating(ninodes, disk0, nodes0, owner0, disk, nodes, owner, ip)
      ensures |nodes| == |old(nodes)| && nodes[ip].addrs == old(nodes)[ip].addrs[i := 0]
    {
      ghost var disk1, nodes1 := disk, nodes;
      var b := nodes[ip].addrs[i];
      ghost var nodes2 := nodes[ip := nodes[ip].(addrs := nodes[ip].addrs[i := 0])];
      FreeDirect(size, ninodes, disk, nodes, owner, ip, i, nodes2);
      BFree(b);
      ReleasedMeta(ninodes, disk1, b, meta);
      nodes := nodes[ip := nodes[ip].(addrs := nodes[ip].addrs[i := 0])];
      TruncatingStep(size, ninodes, disk0, nodes0, owner0, disk1, nodes1, owner, ip, b, disk, nodes);
      owner := owner - {b};
    }

    /** itrunc, second loop: the blocks listed in the indirect block. */
    method TruncWords(ip: nat)
      requires Ok() && ip < ninodes && nodes[ip].addrs[NDIRECT] != 0
      modifies this`disk, this`owner
      ensures Accounted(size, ninodes, disk, nodes, owner, DeadWords(ip, NINDIRECT)) && MetaKept()
      ensures Truncating(ninodes, old(disk), nodes, old(owner), disk, nodes, owner, ip)
    {
      ghost var disk0, owner0 := disk, owner;
      var j := 0;
      while j < NINDIRECT
        invariant 0 <= j <= NINDIRECT
        invariant Accounted(size, ninodes, disk, nodes, owner, DeadWords(ip, j)) && MetaKept()
        invariant Truncating(ninodes, disk0, nodes, owner0, disk, nodes, owner, ip)
      {
        TruncWord(ip, j, disk0, owner0);
        j := j + 1;
      }
    }

    /** The body of the loop over the indirect block. */
    method TruncWord(ip: nat, j: nat, ghost disk0: seq<Block>, ghost owner0: map<nat, Slot>)
      requires Shape(size, ninodes, disk, nodes) && ip < ninodes && nodes[ip].addrs[NDIRECT] != 0 && j < NINDIRECT
      requires Accounted(size, ninodes, disk, nodes, owner, DeadWords(ip, j)) && MetaKept()
      requires Truncating(ninodes, disk0, nodes, owner0, disk, nodes, owner, ip)
      modifies this`disk, this`owner
      ensures Accounted(size, ninodes, disk, nodes, owner, DeadWords(ip, j + 1)) && MetaKept()
      ensures Truncating(ninodes, disk0, nodes, owner0, disk, nodes, owner, ip)
    {
      IndirectBlock(size, ninodes, disk, nodes, owner, DeadWords(ip, j), ip);
      var a := Word(disk[nodes[ip].addrs[NDIRECT]], j);
      assert a == Addr(disk, nodes, Indirect(ip, j));
      if a != 0 {
        ghost var disk1 := disk;
        FreeWord(size, ninodes, disk, nodes, owner, ip, j);
        BFree(a);
        ReleasedMeta(ninodes, disk1, a, meta);
        TruncatingStep(size, ninodes, disk0, nodes, owner0, disk1, nodes, owner, ip, a, disk, nodes);
        owner := owner - {a};
      } else {
        SkipWord(size, ninodes, disk, nodes, owner, ip, j);
      }
    }

    /** itrunc, after the second loop: the indirect block itself. */
    method TruncIndirect(ip: nat)
      requires Ok() && ip < ninodes && nodes[ip].addrs[NDIRECT] != 0
      modifies this`disk, this`nodes, this`owner
      ensures Ok() && Truncating(ninodes, old(disk), old(nodes), old(owner), disk, nodes, owner, ip)
      ensures nodes[ip].addrs == old(nodes)[ip].addrs[NDIRECT := 0]
    {
      ghost var disk0, nodes0, owner0 := disk, nodes, owner;
      TruncWords(ip);
      ghost var disk1, owner1 := disk, owner;
      var b := nodes[ip].addrs[NDIRECT];
      ghost var nodes1 := nodes[ip := nodes[ip].(addrs := nodes[ip].addrs[NDIRECT := 0])];
      FreeIndirectBlock(size, ninodes, disk, nodes, owner, ip, nodes1);
      BFree(b);
      nodes := nodes[ip := nodes[ip].(addrs := nodes[ip].addrs[NDIRECT := 0])];
      TruncatingStep(size, ninodes, disk0, nodes0, owner0, disk1, nodes0, owner1, ip, b, disk, nodes);
      owner := owner - {b};
    }

    /** itrunc: exactly the blocks the inode held are free again, and zero. */
    method ITrunc(ip: nat)
      requires Valid() && ip < ninodes
      modifies this`disk, this`nodes, this`dnodes, this`owner
      ensures Valid() && Wiped(ninodes, old(disk), old(nodes), disk, nodes, ip)
      ensures forall b: nat :: b in owner <==> b in old(owner) && old(owner)[b].i != ip
      ensures |owner| == |old(owner)| - BlocksFor(old(nodes)[ip].size)
    {
      ghost var disk0, nodes0, owner0 := disk, nodes, owner;
      TruncDirect(ip);
      if nodes[ip].addrs[NDIRECT] != 0 {
        ghost var disk1, nodes1, owner1 := disk, nodes, owner;
        TruncIndirect(ip);
        TruncatingOn(ninodes, disk0, nodes0, owner0, disk1, nodes1, owner1, disk, nodes, owner, ip);
      }
      ghost var nodes2 := nodes;
      nodes := nodes[ip := nodes[ip].(size := 0)];
      dnodes := dnodes[ip := nodes[ip]];
      TruncatingDone(size, ninodes, disk0, nodes0, owner0, disk, nodes2, owner, ip, nodes);
      TruncateFrees(size, ninodes, disk0, nodes0, owner0, disk, nodes, owner, ip);
    }

    // ----- Reading

    /** One round of the copying loop of readi: bmap finds the block and allocates nothing. */
    method ReadPiece(ip: nat, o: nat, m: nat) returns (piece: seq<Byte>)
      requires Valid() && ip < ninodes && 0 < m <= BSIZE - o % BSIZE && o + m <= nodes[ip].size
      modifies this`disk, this`nodes, this`owner
      ensures disk == old(disk) && nodes == old(nodes) && owner == old(owner)
      ensures piece == Contents(ip)[o..o + m]
    {
      OwnersInRange(size, ninodes, disk, nodes, owner);
      ReadWithin(disk, nodes, ip, nodes[ip].size, o);
      PieceOfBytes(disk, nodes, ip, nodes[ip].size, o, m);
      var a := BMap(ip, o / BSIZE);
      piece := disk[a.value][o % BSIZE..o % BSIZE + m];
    }

    /** The copying loop of readi. */
    method CopyOut(ip: nat, off: nat, n: nat) returns (dst: seq<Byte>)
      requires Valid() && ip < ninodes && off + n <= nodes[ip].size
      modifies this`disk, this`nodes, this`owner
      ensures disk == old(disk) && nodes == old(nodes) && owner == old(owner)
      ensures dst == Contents(ip)[off..off + n]
    {
      dst := [];
      ghost var whole := Contents(ip);
      var tot := 0;
      while tot < n
        invariant tot <= n && disk == old(disk) && nodes == old(nodes) && owner == old(owner)
        invariant dst == whole[off..off + tot]
      {
        var m := PieceLen(off + tot, n - tot);
        var piece := ReadPiece(ip, off + tot, m);
        Glue(whole, off, off + tot, off + tot + m);
        dst := dst + piece;
        tot := tot + m;
      }
    }

    /** readi for anything but a device. */
    method ReadI(ip: nat, off: nat, n0: nat) returns (dst: seq<Byte>, r: int)
      requires Valid() && ip < ninodes && nodes[ip].kind != T_DEV && off < UINT && n0 < UINT
      modifies this`disk, this`nodes, this`owner
      ensures disk == old(disk) && nodes == old(nodes) && owner == old(owner)
      ensures off > nodes[ip].size || off + n0 >= UINT ==> r == -1 && dst == []
      ensures off <= nodes[ip].size && off + n0 < UINT ==>
                && r == (if off + n0 <= nodes[ip].size then n0 else nodes[ip].size - off)
                && dst == Contents(ip)[off..off + r]
    {
      var n := n0;
      if off > nodes[ip].size || Wraps(off, n) {
        return [], -1;
      }
      if off + n > nodes[ip].size {
        n := nodes[ip].size - off;
      }
      dst := CopyOut(ip, off, n);
      r := n;
    }

    // ----- Runs

    /** One operation; ok is false exactly when the files it would leave need more blocks than there are. */
    method Perform(op: Op) returns (ok: bool, answer: Answer)
      requires Valid() && Legal(nodes, op)
      modifies this`disk, this`nodes, this`dnodes, this`owner
      ensures ok <==> BlocksInUse(FileStep(old(FilesOf(disk, nodes)), op).files) <= Capacity()
      ensures ok ==> Valid() && SameHeads(old(nodes), nodes)
      ensures ok ==> Outcome(FilesOf(disk, nodes), answer) == FileStep(old(FilesOf(disk, nodes)), op)
    {
      match op
      case Write(ip, off, data) => ok, answer := PerformWrite(ip, off, data);
      case Read(ip, off, n) => answer := PerformRead(ip, off, n); ok := true;
      case Truncate(ip) => answer := PerformTruncate(ip); ok := true;
    }

    method PerformRead(ip: nat, off: nat, n: nat) returns (answer: Answer)
      requires Valid() && Legal(nodes, Read(ip, off, n))
      modifies this`disk, this`nodes, this`owner
      ensures Valid() && nodes == old(nodes) && disk == old(disk)
      ensures Outcome(FilesOf(disk, nodes), answer) == FileStep(FilesOf(disk, nodes), Read(ip, off, n))
      ensures BlocksInUse(FilesOf(disk, nodes)) <= Capacity()
    {
      var dst, r := ReadI(ip, off, n);
      answer := Got(r, dst);
      ReadDone(FilesOf(disk, nodes), ip, off, n, dst, r);
      AllHeld(size, ninodes, disk, nodes, owner);
      WithinCapacity();
    }

    lemma ReadDone(files: seq<seq<Byte>>, ip: nat, off: nat, n: nat, dst: seq<Byte>, r: int)
      requires ip < |files|
      requires off > |files[ip]| || off + n >= UINT ==> r == -1 && dst == []
      requires off <= |files[ip]| && off + n < UINT ==>
                 && r == (if off + n <= |files[ip]| then n else |files[ip]| - off)
                 && dst == files[ip][off..off + r]
      ensures Outcome(files, Got(r, dst)) == FileStep(files, Read(ip, off, n))
    {
    }

    method PerformTruncate(ip: nat) returns (answer: Answer)
      requires Valid() && Legal(nodes, Truncate(ip))
      modifies this`disk, this`nodes, this`dnodes, this`owner
      ensures Valid() && SameHeads(old(nodes), nodes)
      ensures Outcome(FilesOf(disk, nodes), answer) == FileStep(old(FilesOf(disk, nodes)), Truncate(ip))
      ensures BlocksInUse(FilesOf(disk, nodes)) <= Capacity()
    {
      ITrunc(ip);
      FilesWiped(ninodes, old(disk), old(nodes), disk, nodes, ip);
      AllHeld(size, ninodes, disk, nodes, owner);
      WithinCapacity();
      answer := Done;
    }

    method PerformWrite(ip: nat, off: nat, data: seq<Byte>) returns (ok: bool, answer: Answer)
      requires Valid() && Legal(nodes, Write(ip, off, data))
      modifies this`disk, this`nodes, this`dnodes, this`owner
      ensures ok <==> BlocksInUse(FileStep(old(FilesOf(disk, nodes)), Write(ip, off, data)).files) <= Capacity()
      ensures ok ==> Valid() && SameHeads(old(nodes), nodes)
      ensures ok ==> Outcome(FilesOf(disk, nodes), answer) == FileStep(old(FilesOf(disk, nodes)), Write(ip, off, data))
    {
      ghost var disk0, nodes0, files0 := disk, nodes, FilesOf(disk, nodes);
      AllHeld(size, ninodes, disk, nodes, owner);
      WithinCapacity();
      var r;
      ok, r := WriteI(ip, data, off);
      answer := Count(r);
      assert files0[ip] == Bytes(disk0, nodes0, ip, nodes0[ip].size);
      if off <= nodes0[ip].size && off + |data| < UINT {
        WriteNeeds(files0, ip, off, data);
        if ok {
          assert Dense(disk0, nodes0, ip, nodes0[ip].size);
          FilesWritten(ninodes, disk0, nodes0, disk, nodes, ip, off, data[..Clamped(off, |data|)]);
        }
      }
    }

    /** Any run of reads, writes and truncations acts on one byte sequence per file, and completes
        exactly when the blocks suffice all along. */
    method Run(ops: seq<Op>) returns (ok: bool, answers: seq<Answer>)
      requires Valid() && forall k: nat | k < |ops| :: Legal(nodes, ops[k])
      modifies this`disk, this`nodes, this`dnodes, this`owner
      ensures ok <==> RoomFor(Capacity(), old(FilesOf(disk, nodes)), ops)
      ensures ok ==> Valid() && SameHeads(old(nodes), nodes)
      ensures ok ==> History(FilesOf(disk, nodes), answers) == FileRun(old(FilesOf(disk, nodes)), ops)
    {
      answers := [];
      ghost var files0 := FilesOf(disk, nodes);
      AllHeld(size, ninodes, disk, nodes, owner);
      WithinCapacity();
      var i := 0;
      assert RoomUpTo(Capacity(), files0, ops, 0);
      while i < |ops|
        invariant 0 <= i <= |ops| && Valid() && SameHeads(old(nodes), nodes)
        invariant History(FilesOf(disk, nodes), answers) == FileRun(files0, ops[..i])
        invariant RoomUpTo(Capacity(), files0, ops, i)
      {
        RunOn(files0, ops, i);
        RoomOn(Capacity(), files0, ops, i);
        var answer;
        ok, answer := Perform(ops[i]);
        if !ok {
          return;
        }
        answers := answers + [answer];
        i := i + 1;
      }
      assert ops[..|ops|] == ops;
      ok := true;
    }
  }
}
