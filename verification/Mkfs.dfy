/** The image builder, p5/linux/mkfs.c: mkfs, ialloc, iappend and balloc over a raw image. */
module Mkfs {

  import opened Blocks
  import opened Image
  import Fscheck
  import opened Wrappers
  import FS = FileSystem

  // ----- Blocks handed out in order

  /** Every block from the first data block to `top` is held by exactly one slot, and all
      blocks from there on are untouched. */
  ghost predicate Held(size: nat, ninodes: nat, disk: seq<Block>, nodes: seq<FS.Inode>, owner: map<nat, FS.Slot>,
                       top: nat) {
    && FS.Shape(size, ninodes, disk, nodes) && FS.DataStart(size, ninodes) <= top <= size
    && (forall b: nat {:trigger b in owner} | b in owner ::
          FS.DataStart(size, ninodes) <= b < top && FS.IsSlot(ninodes, owner[b]) && FS.Addr(disk, nodes, owner[b]) == b)
    && (forall b: nat {:trigger b in owner} | FS.DataStart(size, ninodes) <= b < top :: b in owner)
    && (forall s: FS.Slot {:trigger FS.Addr(disk, nodes, s)} | FS.IsSlot(ninodes, s) ::
          FS.Addr(disk, nodes, s) == 0 || (FS.Addr(disk, nodes, s) in owner && owner[FS.Addr(disk, nodes, s)] == s))
    && (forall b: nat {:trigger disk[b]} | top <= b < size :: disk[b] == Zero())
  }

  lemma HeldIndirect(size: nat, ninodes: nat, disk: seq<Block>, nodes: seq<FS.Inode>, owner: map<nat, FS.Slot>,
                     top: nat, i: nat)
    requires Held(size, ninodes, disk, nodes, owner, top) && i < ninodes
    ensures var p := nodes[i].addrs[NDIRECT];
            p != 0 ==> FS.DataStart(size, ninodes) <= p < top && p in owner && owner[p] == FS.Direct(i, NDIRECT)
  {
    assert FS.Addr(disk, nodes, FS.Direct(i, NDIRECT)) == nodes[i].addrs[NDIRECT];
  }

  /** Block `top` has been stored in slot t, so far empty. */
  lemma GrowBlocks(size: nat, ninodes: nat, disk: seq<Block>, nodes: seq<FS.Inode>, owner: map<nat, FS.Slot>, top: nat,
                   t: FS.Slot, disk1: seq<Block>, nodes1: seq<FS.Inode>)
    requires Held(size, ninodes, disk, nodes, owner, top) && top < size && FS.IsSlot(ninodes, t)
    requires FS.Shape(size, ninodes, disk1, nodes1)
    requires forall c: nat | FS.DataStart(size, ninodes) <= c < size && c != nodes[t.i].addrs[NDIRECT] ::
             disk1[c] == disk[c]
    requires FS.Addr(disk, nodes, t) == 0 && FS.Addr(disk1, nodes1, t) == top
    requires forall s: FS.Slot {:trigger FS.Addr(disk1, nodes1, s)} | FS.IsSlot(ninodes, s) && s != t ::
               FS.Addr(disk1, nodes1, s) == FS.Addr(disk, nodes, s)
    ensures FS.SameBlocks(ninodes, disk, nodes, disk1, nodes1)
  {
    HeldIndirect(size, ninodes, disk, nodes, owner, top, t.i);
    forall i: nat, bn: nat | i < ninodes && bn < MAXFILE
      ensures FS.FileBlock(disk1, nodes1, i, bn) == FS.FileBlock(disk, nodes, i, bn)
    {
      var s := FS.DataSlot(i, bn);
      assert FS.Addr(disk1, nodes1, s) == if s == t then top else FS.Addr(disk, nodes, s);
    }
  }

  lemma Grow(size: nat, ninodes: nat, disk: seq<Block>, nodes: seq<FS.Inode>, owner: map<nat, FS.Slot>, top: nat,
             t: FS.Slot, disk1: seq<Block>, nodes1: seq<FS.Inode>)
    requires Held(size, ninodes, disk, nodes, owner, top) && top < size && FS.IsSlot(ninodes, t)
    requires FS.Shape(size, ninodes, disk1, nodes1)
    requires forall c: nat | FS.DataStart(size, ninodes) <= c < size && c != nodes[t.i].addrs[NDIRECT] ::
             disk1[c] == disk[c]
    requires FS.Addr(disk, nodes, t) == 0 && FS.Addr(disk1, nodes1, t) == top
    requires forall s: FS.Slot {:trigger FS.Addr(disk1, nodes1, s)} | FS.IsSlot(ninodes, s) && s != t ::
               FS.Addr(disk1, nodes1, s) == FS.Addr(disk, nodes, s)
    ensures Held(size, ninodes, disk1, nodes1, owner[top := t], top + 1)
    ensures FS.SameBlocks(ninodes, disk, nodes, disk1, nodes1)
  {
    HeldIndirect(size, ninodes, disk, nodes, owner, top, t.i);
    GrowBlocks(size, ninodes, disk, nodes, owner, top, t, disk1, nodes1);
  }

  ghost predicate OtherSlotsSame(ninodes: nat, disk: seq<Block>, nodes: seq<FS.Inode>, disk1: seq<Block>,
                                 nodes1: seq<FS.Inode>, t: FS.Slot) {
    forall s: FS.Slot {:trigger FS.Addr(disk1, nodes1, s)} | FS.IsSlot(ninodes, s) && s != t ::
        FS.Addr(disk1, nodes1, s) == FS.Addr(disk, nodes, s)
  }

  ghost predicate SameSlots(ninodes: nat, disk: seq<Block>, nodes: seq<FS.Inode>, disk1: seq<Block>,
                            nodes1: seq<FS.Inode>) {
    forall s: FS.Slot {:trigger FS.Addr(disk1, nodes1, s)} | FS.IsSlot(ninodes, s) ::
        FS.Addr(disk1, nodes1, s) == FS.Addr(disk, nodes, s)
  }

  lemma GrowDirect(size: nat, ninodes: nat, disk: seq<Block>, nodes: seq<FS.Inode>, owner: map<nat, FS.Slot>, top: nat,
                   i: nat, k: nat, nodes1: seq<FS.Inode>)
    requires Held(size, ninodes, disk, nodes, owner, top) && top < size
    requires i < ninodes && k <= NDIRECT && nodes[i].addrs[k] == 0
    requires nodes1 == nodes[i := nodes[i].(addrs := nodes[i].addrs[k := top])]
    ensures Held(size, ninodes, disk, nodes1, owner[top := FS.Direct(i, k)], top + 1)
    ensures FS.SameBlocks(ninodes, disk, nodes, disk, nodes1)
            && OtherSlotsSame(ninodes, disk, nodes, disk, nodes1, FS.Direct(i, k))
  {
    forall s: FS.Slot | FS.IsSlot(ninodes, s) && s != FS.Direct(i, k)
      ensures FS.Addr(disk, nodes1, s) == FS.Addr(disk, nodes, s)
    {
      if s.Indirect? {
        if s.i == i && k == NDIRECT {
          ZeroWords(s.j);
        } else {
          assert nodes1[s.i].addrs[NDIRECT] == nodes[s.i].addrs[NDIRECT];
        }
      }
    }
    Grow(size, ninodes, disk, nodes, owner, top, FS.Direct(i, k), disk, nodes1);
  }

  lemma GrowIndirect(size: nat, ninodes: nat, disk: seq<Block>, nodes: seq<FS.Inode>, owner: map<nat, FS.Slot>,
                     top: nat,
                     i: nat, j: nat, disk1: seq<Block>)
    requires Held(size, ninodes, disk, nodes, owner, top) && top < size
    requires i < ninodes && j < NINDIRECT && nodes[i].addrs[NDIRECT] != 0
             && FS.Addr(disk, nodes, FS.Indirect(i, j)) == 0
    requires var p := nodes[i].addrs[NDIRECT]; p < size && disk1 == disk[p := PutWord(disk[p], j, top)]
    ensures Held(size, ninodes, disk1, nodes, owner[top := FS.Indirect(i, j)], top + 1)
    ensures FS.SameBlocks(ninodes, disk, nodes, disk1, nodes)
            && OtherSlotsSame(ninodes, disk, nodes, disk1, nodes, FS.Indirect(i, j))
  {
    HeldIndirect(size, ninodes, disk, nodes, owner, top, i);
    forall s: FS.Slot | FS.IsSlot(ninodes, s) && s != FS.Indirect(i, j)
      ensures FS.Addr(disk1, nodes, s) == FS.Addr(disk, nodes, s)
    {
      HeldIndirect(size, ninodes, disk, nodes, owner, top, s.i);
    }
    Grow(size, ninodes, disk, nodes, owner, top, FS.Indirect(i, j), disk1, nodes);
  }

  /** Writing a data block changes that block of that file and nothing else. */
  lemma HeldWrite(size: nat, ninodes: nat, disk: seq<Block>, nodes: seq<FS.Inode>, owner: map<nat, FS.Slot>, top: nat,
                  i: nat, bn: nat, blk: Block, disk1: seq<Block>)
    requires Held(size, ninodes, disk, nodes, owner, top) && i < ninodes && bn < MAXFILE
    requires var a := FS.Addr(disk, nodes, FS.DataSlot(i, bn)); 0 < a < size && disk1 == disk[a := blk]
    ensures Held(size, ninodes, disk1, nodes, owner, top) && SameSlots(ninodes, disk, nodes, disk1, nodes)
    ensures forall i': nat, bn': nat {:trigger FS.FileBlock(disk1, nodes, i', bn')} | i' < ninodes && bn' < MAXFILE ::
              FS.FileBlock(disk1, nodes, i', bn') == if i' == i && bn' == bn then blk
                  else FS.FileBlock(disk, nodes, i', bn')
  {
    var t := FS.DataSlot(i, bn);
    var a := FS.Addr(disk, nodes, t);
    assert a in owner && owner[a] == t;
    forall s: FS.Slot | FS.IsSlot(ninodes, s)
      ensures FS.Addr(disk1, nodes, s) == FS.Addr(disk, nodes, s)
    {
      HeldIndirect(size, ninodes, disk, nodes, owner, top, s.i);
    }
    forall i': nat, bn': nat | i' < ninodes && bn' < MAXFILE
      ensures FS.FileBlock(disk1, nodes, i', bn') == if i' == i && bn' == bn then blk
              else FS.FileBlock(disk, nodes, i', bn')
    {
      var s := FS.DataSlot(i', bn');
      assert FS.Addr(disk1, nodes, s) == FS.Addr(disk, nodes, s);
      assert FS.Addr(disk, nodes, s) == 0 || owner[FS.Addr(disk, nodes, s)] == s;
    }
  }

  /** The indirect block is there, and then the word in it. */
  lemma BothMapped(ninodes: nat, disk: seq<Block>, nodes: seq<FS.Inode>, nodes1: seq<FS.Inode>, disk1: seq<Block>,
                   i: nat, bn: nat)
    requires i < ninodes == |nodes| == |nodes1| && NDIRECT <= bn < MAXFILE
             && nodes1 == nodes[i := nodes[i].(addrs := nodes1[i].addrs)]
    requires FS.SameBlocks(ninodes, disk, nodes, disk, nodes1)
             && OtherSlotsSame(ninodes, disk, nodes, disk, nodes1, FS.Direct(i, NDIRECT))
    requires nodes1[i].addrs[NDIRECT] != 0
    requires FS.SameBlocks(ninodes, disk, nodes1, disk1, nodes1)
             && OtherSlotsSame(ninodes, disk, nodes1, disk1, nodes1, FS.Indirect(i, bn - NDIRECT))
    ensures FS.Mapped(ninodes, disk, nodes, disk1, nodes1, i, bn)
  {
    SameBlocksOn(ninodes, disk, nodes, disk, nodes1, disk1, nodes1);
    forall s: FS.Slot | FS.IsSlot(ninodes, s) && s != FS.DataSlot(i, bn) && s != FS.Direct(i, NDIRECT)
      ensures FS.Addr(disk1, nodes1, s) == FS.Addr(disk, nodes, s)
    {
      assert FS.Addr(disk, nodes1, s) == FS.Addr(disk, nodes, s);
    }
  }

  lemma SameBlocksOn(ninodes: nat, disk0: seq<Block>, nodes0: seq<FS.Inode>, disk1: seq<Block>, nodes1: seq<FS.Inode>,
                     disk2: seq<Block>, nodes2: seq<FS.Inode>)
    requires FS.SameBlocks(ninodes, disk0, nodes0, disk1, nodes1)
             && FS.SameBlocks(ninodes, disk1, nodes1, disk2, nodes2)
    ensures FS.SameBlocks(ninodes, disk0, nodes0, disk2, nodes2)
  {
    forall i: nat, bn: nat | i < ninodes && bn < MAXFILE
      ensures FS.FileBlock(disk2, nodes2, i, bn) == FS.FileBlock(disk0, nodes0, i, bn)
    {
      assert FS.FileBlock(disk1, nodes1, i, bn) == FS.FileBlock(disk0, nodes0, i, bn);
    }
  }

  /** A block of the file has been found or added, and a piece written into it. */
  lemma PieceIn(size: nat, ninodes: nat, disk0: seq<Block>, nodes0: seq<FS.Inode>, disk: seq<Block>,
                nodes: seq<FS.Inode>,
                owner: map<nat, FS.Slot>, top: nat, ip: nat, bn: nat, o: nat, piece: seq<Byte>, disk1: seq<Block>)
    requires Held(size, ninodes, disk, nodes, owner, top) && ip < ninodes && bn < MAXFILE && o + |piece| <= BSIZE
    requires FS.SameBlocks(ninodes, disk0, nodes0, disk, nodes)
    requires var a := FS.Addr(disk, nodes, FS.DataSlot(ip, bn));
             && 0 < a < size
             && disk1 == disk[a := FS.Splice(disk[a], o, piece)]
    ensures Held(size, ninodes, disk1, nodes, owner, top) && SameSlots(ninodes, disk, nodes, disk1, nodes)
    ensures FS.PieceWritten(ninodes, disk0, nodes0, disk1, nodes, ip, bn, o, piece)
  {
    var a := FS.Addr(disk, nodes, FS.DataSlot(ip, bn));
    assert FS.FileBlock(disk, nodes, ip, bn) == disk[a];
    HeldWrite(size, ninodes, disk, nodes, owner, top, ip, bn, disk1[a], disk1);
  }

  // ----- Where files end, and what appending costs

  /** No slot beyond the end of the file is filled, and that of a block begun is. */
  ghost predicate Edge(disk: seq<Block>, nodes: seq<FS.Inode>, i: nat, len: nat) {
    && (forall bn: nat {:trigger FS.DataSlot(i, bn)} | bn < MAXFILE && len <= bn * BSIZE ::
        FS.Addr(disk, nodes, FS.DataSlot(i, bn)) == 0)
    && (len % BSIZE != 0 && len / BSIZE < MAXFILE ==> FS.Addr(disk, nodes, FS.DataSlot(i, len / BSIZE)) != 0)
  }

  ghost predicate Edges(disk: seq<Block>, nodes: seq<FS.Inode>) {
    forall i: nat {:trigger nodes[i]} | i < |nodes| :: Edge(disk, nodes, i, nodes[i].size)
  }

  function HasIndirect(n: FS.Inode): bool {
    n.addrs[NDIRECT] != 0
  }

  /** Blocks taken for a round of iappend at pos. */
  function RoundCost(pos: nat, indirect: bool): nat {
    (if pos % BSIZE == 0 then 1 else 0) + if pos / BSIZE >= NDIRECT && !indirect then 1 else 0
  }

  function BlocksUpTo(len: nat): nat {
    (len + BSIZE - 1) / BSIZE
  }

  /** Blocks taken for n bytes appended to a file of len bytes. */
  function Cost(len: nat, n: nat, indirect: bool): (c: int)
    ensures c >= 0
  {
    if n == 0 then 0
    else BlocksUpTo(len + n) - BlocksUpTo(len) + if !indirect && len + n > NDIRECT * BSIZE then 1 else 0
  }

  /** Whether the file has an indirect block after n bytes appended. */
  predicate IndirectAfter(len: nat, n: nat, indirect: bool) {
    indirect || (n > 0 && len + n > NDIRECT * BSIZE)
  }

  lemma CostStep(len: nat, tot: nat, tot1: nat, pos: nat, indirect: bool)
    requires pos == len + tot && 0 < tot1 - tot <= BSIZE - pos % BSIZE
    ensures Cost(len, tot1, indirect) == Cost(len, tot, indirect) + RoundCost(pos, IndirectAfter(len, tot, indirect))
    ensures IndirectAfter(len, tot1, indirect) <==> IndirectAfter(len, tot, indirect) || pos / BSIZE >= NDIRECT
  {
    assert len + tot1 > NDIRECT * BSIZE <==> pos / BSIZE >= NDIRECT;
    assert BlocksUpTo(pos + (tot1 - tot)) == BlocksUpTo(pos) + if pos % BSIZE == 0 then 1 else 0;
  }

  lemma CostGrows(len: nat, n1: nat, n: nat, indirect: bool)
    requires n1 <= n
    ensures Cost(len, n1, indirect) <= Cost(len, n, indirect)
  {
  }

  lemma EdgeCost(disk: seq<Block>, nodes: seq<FS.Inode>, i: nat, pos: nat)
    requires i < |nodes| && Edge(disk, nodes, i, pos) && pos / BSIZE < MAXFILE
    ensures FS.Missing(disk, nodes, i, pos / BSIZE) == RoundCost(pos, HasIndirect(nodes[i]))
  {
    assert pos % BSIZE == 0 ==> pos == pos / BSIZE * BSIZE;
  }

  lemma EdgeStep(disk: seq<Block>, nodes: seq<FS.Inode>, disk1: seq<Block>, nodes1: seq<FS.Inode>, i: nat, pos: nat,
                 pos1: nat)
    requires i < |nodes| == |nodes1| && Edge(disk, nodes, i, pos) && pos / BSIZE < MAXFILE
             && 0 < pos1 - pos <= BSIZE - pos % BSIZE
    requires FS.Addr(disk1, nodes1, FS.DataSlot(i, pos / BSIZE)) != 0
    requires forall s: FS.Slot {:trigger FS.Addr(disk1, nodes1, s)} |
               FS.IsSlot(|nodes|, s) && s != FS.DataSlot(i, pos / BSIZE) && s != FS.Direct(i, NDIRECT) ::
               FS.Addr(disk1, nodes1, s) == FS.Addr(disk, nodes, s)
    ensures Edge(disk1, nodes1, i, pos1)
  {
    forall bn: nat | bn < MAXFILE && pos1 <= bn * BSIZE ensures FS.Addr(disk1, nodes1, FS.DataSlot(i, bn)) == 0 {
      assert bn != pos / BSIZE && FS.Addr(disk, nodes, FS.DataSlot(i, bn)) == 0;
    }
    assert pos1 % BSIZE != 0 ==> pos1 / BSIZE == pos / BSIZE;
  }

  /** Slots of file i the same, and an end further on at the end of a block, or the same. */
  lemma EdgeSame(disk: seq<Block>, nodes: seq<FS.Inode>, disk1: seq<Block>, nodes1: seq<FS.Inode>, i: nat, len: nat,
                 len1: nat)
    requires i < |nodes| == |nodes1| && Edge(disk, nodes, i, len) && (len1 == len || (len1 >= len && len1 % BSIZE == 0))
    requires forall s: FS.Slot {:trigger FS.Addr(disk1, nodes1, s)} | FS.IsSlot(|nodes|, s) && s.i == i ::
               FS.Addr(disk1, nodes1, s) == FS.Addr(disk, nodes, s)
    ensures Edge(disk1, nodes1, i, len1)
  {
    forall bn: nat | bn < MAXFILE && len1 <= bn * BSIZE ensures FS.Addr(disk1, nodes1, FS.DataSlot(i, bn)) == 0 {
      assert FS.Addr(disk, nodes, FS.DataSlot(i, bn)) == 0;
    }
  }

  /** iappend has come to pos in file ip, and has left the slots of the others alone. */
  ghost predicate Progress(ninodes: nat, disk0: seq<Block>, nodes0: seq<FS.Inode>, disk: seq<Block>,
                           nodes: seq<FS.Inode>, ip: nat, pos: nat) {
    Edge(disk, nodes, ip, pos) && FS.SameSlotsBut(ninodes, disk0, nodes0, disk, nodes, ip)
  }

  lemma ProgressStep(ninodes: nat, disk0: seq<Block>, nodes0: seq<FS.Inode>, disk: seq<Block>, nodes: seq<FS.Inode>,
                     disk1: seq<Block>, nodes1: seq<FS.Inode>, disk2: seq<Block>, ip: nat, pos: nat, pos1: nat)
    requires ip < ninodes == |nodes0| == |nodes| && Progress(ninodes, disk0, nodes0, disk, nodes, ip, pos)
    requires pos / BSIZE < MAXFILE && 0 < pos1 - pos <= BSIZE - pos % BSIZE
    requires FS.Mapped(ninodes, disk, nodes, disk1, nodes1, ip, pos / BSIZE)
             && FS.Addr(disk1, nodes1, FS.DataSlot(ip, pos / BSIZE)) != 0
    requires SameSlots(ninodes, disk1, nodes1, disk2, nodes1)
    ensures Progress(ninodes, disk0, nodes0, disk2, nodes1, ip, pos1)
  {
    EdgeStep(disk, nodes, disk1, nodes1, ip, pos, pos1);
    EdgeSame(disk1, nodes1, disk2, nodes1, ip, pos1, pos1);
    forall s: FS.Slot | FS.IsSlot(ninodes, s) && s.i != ip
        ensures FS.Addr(disk2, nodes1, s) == FS.Addr(disk0, nodes0, s) {
      assert FS.Addr(disk1, nodes1, s) == FS.Addr(disk, nodes, s);
    }
  }

  // ----- Files

  /** The loop of iappend after tot bytes. */
  ghost predicate Appending(start: nat, ninodes: nat, disk0: seq<Block>, nodes0: seq<FS.Inode>, disk: seq<Block>,
                            nodes: seq<FS.Inode>,
                            ip: nat, off: nat, src: seq<Byte>, tot: nat)
    requires tot <= |src|
  {
    && SameMeta(start, disk0, disk)
    && FS.OthersKept(ninodes, disk0, nodes0, disk, nodes, ip)
    && FS.Overwritten(disk0, nodes0, disk, nodes, ip, off, src, tot)
  }

  ghost predicate SameMeta(start: nat, disk0: seq<Block>, disk: seq<Block>) {
    start <= |disk| == |disk0| && forall c: nat | c < start :: disk[c] == disk0[c]
  }

  lemma AppendingStep(start: nat, ninodes: nat, disk0: seq<Block>, nodes0: seq<FS.Inode>, disk: seq<Block>,
                      nodes: seq<FS.Inode>,
                      disk1: seq<Block>, nodes1: seq<FS.Inode>, ip: nat, off: nat, src: seq<Byte>, tot: nat, tot1: nat,
                          pos: nat)
    requires ip < ninodes && tot <= tot1 <= |src| && pos == off + tot && tot1 - tot <= BSIZE - pos % BSIZE
    requires Appending(start, ninodes, disk0, nodes0, disk, nodes, ip, off, src, tot) && SameMeta(start, disk, disk1)
    requires FS.PieceWritten(ninodes, disk, nodes, disk1, nodes1, ip, pos / BSIZE, pos % BSIZE, src[tot..tot1])
    ensures Appending(start, ninodes, disk0, nodes0, disk1, nodes1, ip, off, src, tot1)
  {
    assert tot + (tot1 - tot) == tot1;
    FS.OverwrittenStep(disk0, nodes0, disk, nodes, disk1, nodes1, ip, off, src, tot, tot1 - tot, pos / BSIZE,
                       pos % BSIZE);
    forall i: nat, bn: nat | i < ninodes && i != ip && bn < MAXFILE
      ensures FS.FileBlock(disk1, nodes1, i, bn) == FS.FileBlock(disk0, nodes0, i, bn)
    {
      assert FS.FileBlock(disk1, nodes1, i, bn) == FS.FileBlock(disk, nodes, i, bn);
    }
  }

  /** The bytes of a file's blocks after its end are zero. */
  ghost predicate ZeroTails(disk: seq<Block>, nodes: seq<FS.Inode>) {
    forall i: nat, bn: nat, k: nat {:trigger FS.FileBlock(disk, nodes, i, bn)[k]} |
      i < |nodes| && bn < MAXFILE && k < BSIZE && nodes[i].size <= bn * BSIZE + k ::
      FS.FileBlock(disk, nodes, i, bn)[k] == 0
  }

  lemma PastMax(disk: seq<Block>, nodes: seq<FS.Inode>, i: nat, bn: nat)
    requires bn >= MAXFILE
    ensures FS.FileBlock(disk, nodes, i, bn) == Zero()
  {
  }

  /** Neither the inode table on disk nor a size matters for where blocks are and what they contain. */
  lemma Redescribed(size: nat, ninodes: nat, disk: seq<Block>, nodes: seq<FS.Inode>, owner: map<nat, FS.Slot>, top: nat,
                    disk1: seq<Block>, nodes1: seq<FS.Inode>)
    requires Held(size, ninodes, disk, nodes, owner, top) && |disk1| == size && |nodes1| == ninodes
    requires forall c: nat | FS.DataStart(size, ninodes) <= c < size :: disk1[c] == disk[c]
    requires forall i: nat {:trigger nodes1[i]} | i < ninodes :: nodes1[i].addrs == nodes[i].addrs
    ensures Held(size, ninodes, disk1, nodes1, owner, top) && SameSlots(ninodes, disk, nodes, disk1, nodes1)
    ensures forall i: nat, bn: nat {:trigger FS.FileBlock(disk1, nodes1, i, bn)} | i < ninodes ::
              FS.FileBlock(disk1, nodes1, i, bn) == FS.FileBlock(disk, nodes, i, bn)
  {
    forall s: FS.Slot
      ensures FS.Addr(disk1, nodes1, s) == FS.Addr(disk, nodes, s)
    {
      if s.i < ninodes { HeldIndirect(size, ninodes, disk, nodes, owner, top, s.i); }
    }
    forall i: nat, bn: nat | i < ninodes
      ensures FS.FileBlock(disk1, nodes1, i, bn) == FS.FileBlock(disk, nodes, i, bn)
    {
      var s := FS.DataSlot(i, bn);
      assert FS.Addr(disk1, nodes1, s) == FS.Addr(disk, nodes, s);
    }
  }

  lemma AppendedBytes(disk0: seq<Block>, nodes0: seq<FS.Inode>, disk: seq<Block>, nodes: seq<FS.Inode>, ip: nat,
                      off: nat, src: seq<Byte>)
    requires FS.Overwritten(disk0, nodes0, disk, nodes, ip, off, src, |src|)
    requires off + |src| <= MAXFILE * BSIZE || src == []
    ensures FS.Bytes(disk, nodes, ip, off + |src|) == FS.Bytes(disk0, nodes0, ip, off) + src
  {
    forall o: nat | o < off + |src|
      ensures FS.Bytes(disk, nodes, ip, off + |src|)[o] == (FS.Bytes(disk0, nodes0, ip, off) + src)[o]
    {
      AppendedByte(disk0, nodes0, disk, nodes, ip, off, src, o, o / BSIZE, o % BSIZE);
    }
  }

  lemma AppendedByte(disk0: seq<Block>, nodes0: seq<FS.Inode>, disk: seq<Block>, nodes: seq<FS.Inode>, ip: nat,
                     off: nat, src: seq<Byte>,
                     o: nat, bn: nat, k: nat)
    requires FS.Overwritten(disk0, nodes0, disk, nodes, ip, off, src, |src|)
    requires (off + |src| <= MAXFILE * BSIZE || src == []) && o < off + |src| && o == bn * BSIZE + k && k < BSIZE
    ensures FS.FileBlock(disk, nodes, ip, bn)[k] == if off <= o then src[o - off]
            else FS.FileBlock(disk0, nodes0, ip, bn)[k]
  {
    if bn >= MAXFILE {
      PastMax(disk, nodes, ip, bn);
      PastMax(disk0, nodes0, ip, bn);
    }
  }

  lemma SameBytes(disk0: seq<Block>, nodes0: seq<FS.Inode>, disk: seq<Block>, nodes: seq<FS.Inode>, i: nat, len: nat)
    requires forall bn: nat {:trigger FS.FileBlock(disk, nodes, i, bn)} | bn < MAXFILE ::
               FS.FileBlock(disk, nodes, i, bn) == FS.FileBlock(disk0, nodes0, i, bn)
    ensures FS.Bytes(disk, nodes, i, len) == FS.Bytes(disk0, nodes0, i, len)
  {
    forall o: nat | o < len
      ensures FS.Bytes(disk, nodes, i, len)[o] == FS.Bytes(disk0, nodes0, i, len)[o]
    {
      if o / BSIZE >= MAXFILE {
        PastMax(disk, nodes, i, o / BSIZE);
        PastMax(disk0, nodes0, i, o / BSIZE);
      }
      assert FS.FileBlock(disk, nodes, i, o / BSIZE) == FS.FileBlock(disk0, nodes0, i, o / BSIZE);
    }
  }

  /** File ip is now its old bytes followed by src; all other files are as they were. */
  lemma AppendDone(ninodes: nat, disk0: seq<Block>, nodes0: seq<FS.Inode>, disk: seq<Block>, nodes: seq<FS.Inode>,
                   ip: nat, src: seq<Byte>)
    requires ip < ninodes == |nodes0| == |nodes| && ZeroTails(disk0, nodes0)
    requires FS.OthersKept(ninodes, disk0, nodes0, disk, nodes, ip)
    requires FS.Overwritten(disk0, nodes0, disk, nodes, ip, nodes0[ip].size, src, |src|)
    requires nodes0[ip].size + |src| <= MAXFILE * BSIZE || src == []
    requires nodes[ip].size == nodes0[ip].size + |src| && nodes == nodes0[ip := nodes[ip]]
    ensures ZeroTails(disk, nodes)
    ensures FS.FilesOf(disk, nodes) == FS.FilesOf(disk0, nodes0)[ip := FS.FilesOf(disk0, nodes0)[ip] + src]
  {
    AppendedBytes(disk0, nodes0, disk, nodes, ip, nodes0[ip].size, src);
    forall i: nat | i < ninodes && i != ip
      ensures FS.FilesOf(disk, nodes)[i] == FS.FilesOf(disk0, nodes0)[i]
    {
      assert nodes[i] == nodes0[i];
      SameBytes(disk0, nodes0, disk, nodes, i, nodes0[i].size);
    }
    forall i: nat, bn: nat, k: nat | i < ninodes && bn < MAXFILE && k < BSIZE && nodes[i].size <= bn * BSIZE + k
      ensures FS.FileBlock(disk, nodes, i, bn)[k] == 0
    {
      assert nodes[i].size >= nodes0[i].size;
      assert FS.FileBlock(disk, nodes, i, bn)[k] == FS.FileBlock(disk0, nodes0, i, bn)[k];
    }
  }

  function Zeros(n: nat): seq<Byte> {
    seq(n, _ => 0)
  }

  /** A larger size in the inode makes the file longer by zeros. */
  lemma Lengthened(disk0: seq<Block>, nodes0: seq<FS.Inode>, disk: seq<Block>, nodes: seq<FS.Inode>, ip: nat, more: nat)
    requires ip < |nodes0| == |nodes| && ZeroTails(disk0, nodes0)
    requires nodes[ip].size == nodes0[ip].size + more && nodes == nodes0[ip := nodes[ip]]
    requires forall i: nat, bn: nat {:trigger FS.FileBlock(disk, nodes, i, bn)} | i < |nodes| ::
               FS.FileBlock(disk, nodes, i, bn) == FS.FileBlock(disk0, nodes0, i, bn)
    ensures ZeroTails(disk, nodes)
    ensures FS.FilesOf(disk, nodes) == FS.FilesOf(disk0, nodes0)[ip := FS.FilesOf(disk0, nodes0)[ip] + Zeros(more)]
  {
    forall i: nat, bn: nat, k: nat | i < |nodes| && bn < MAXFILE && k < BSIZE && nodes[i].size <= bn * BSIZE + k
      ensures FS.FileBlock(disk, nodes, i, bn)[k] == 0
    {
      assert nodes[i].size >= nodes0[i].size;
      assert FS.FileBlock(disk0, nodes0, i, bn)[k] == 0;
    }
    var n := nodes0[ip].size;
    forall o: nat | o < n + more
      ensures FS.Bytes(disk, nodes, ip, n + more)[o] == (FS.Bytes(disk0, nodes0, ip, n) + Zeros(more))[o]
    {
      var bn, k := o / BSIZE, o % BSIZE;
      if bn < MAXFILE {
        assert o >= n ==> FS.FileBlock(disk0, nodes0, ip, bn)[k] == 0;
        assert FS.FileBlock(disk, nodes, ip, bn) == FS.FileBlock(disk0, nodes0, ip, bn);
      } else {
        PastMax(disk, nodes, ip, bn);
        PastMax(disk0, nodes0, ip, bn);
      }
    }
    assert FS.Bytes(disk, nodes, ip, n + more) == FS.Bytes(disk0, nodes0, ip, n) + Zeros(more);
    forall i: nat | i < |nodes| && i != ip
      ensures FS.FilesOf(disk, nodes)[i] == FS.FilesOf(disk0, nodes0)[i]
    {
      assert nodes[i] == nodes0[i];
      SameBytes(disk0, nodes0, disk, nodes, i, nodes0[i].size);
    }
  }

  /** The superblock, and bitmap blocks with no bit set. */
  ghost predicate Prepared(size: nat, ninodes: nat, nblocks: nat, disk: seq<Block>) {
    && |disk| == size == nblocks + FS.DataStart(size, ninodes)
    && Fscheck.SuperOf(disk) == Fscheck.Super(size, nblocks, ninodes) && disk[0] == Zero()
    && forall c: nat | ninodes / 8 + 3 <= c < FS.DataStart(size, ninodes) :: disk[c] == Zero()
  }

  /** The image between two operations. */
  ghost predicate Sane(size: nat, ninodes: nat, nblocks: nat, disk: seq<Block>, owner: map<nat, FS.Slot>, top: nat) {
    && ninodes > 0 && Prepared(size, ninodes, nblocks, disk)
    && Held(size, ninodes, disk, Nodes(disk, ninodes), owner, top) && ZeroTails(disk, Nodes(disk, ninodes))
    && Edges(disk, Nodes(disk, ninodes))
  }

  lemma StillPrepared(size: nat, ninodes: nat, nblocks: nat, disk: seq<Block>, ip: nat, r: Raw)
    requires Prepared(size, ninodes, nblocks, disk) && ip < ninodes
    ensures Prepared(size, ninodes, nblocks, WInode(disk, ip, r))
  {
  }

  /** Writing an inode that differs in its type, its link count and, upwards, its size only. */
  lemma Relabelled(size: nat, ninodes: nat, nblocks: nat, disk: seq<Block>, owner: map<nat, FS.Slot>, top: nat,
                   ip: nat, r: Raw, more: nat, disk1: seq<Block>)
    requires ip < ninodes && Sane(size, ninodes, nblocks, disk, owner, top)
    requires var n := Nodes(disk, ninodes)[ip];
             && Node(r).addrs == n.addrs && Node(r).size == n.size + more
             && (more == 0 || Node(r).size % BSIZE == 0)
    requires disk1 == WInode(disk, ip, r)
    ensures Sane(size, ninodes, nblocks, disk1, owner, top)
    ensures var nodes, nodes1 := Nodes(disk, ninodes), Nodes(disk1, ninodes);
            && nodes1 == nodes[ip := Node(r)]
            && FS.FilesOf(disk1, nodes1) == FS.FilesOf(disk, nodes)[ip := FS.FilesOf(disk, nodes)[ip] + Zeros(more)]
  {
    var nodes, nodes1 := Nodes(disk, ninodes), Nodes(disk1, ninodes);
    StillPrepared(size, ninodes, nblocks, disk, ip, r);
    NodesWritten(disk, ninodes, ip, r);
    Redescribed(size, ninodes, disk, nodes, owner, top, disk1, nodes1);
    Lengthened(disk, nodes, disk1, nodes1, ip, more);
    forall i: nat | i < ninodes ensures Edge(disk1, nodes1, i, nodes1[i].size) {
      assert Edge(disk, nodes, i, nodes[i].size);
      EdgeSame(disk, nodes, disk1, nodes1, i, nodes[i].size, nodes1[i].size);
    }
  }

  lemma EdgesKept(ninodes: nat, disk0: seq<Block>, nodes0: seq<FS.Inode>, disk: seq<Block>, nodes: seq<FS.Inode>,
                  disk1: seq<Block>, nodes1: seq<FS.Inode>, ip: nat)
    requires ip < ninodes == |nodes0| == |nodes| == |nodes1| && Edges(disk0, nodes0)
             && nodes1 == nodes0[ip := nodes1[ip]]
    requires FS.SameSlotsBut(ninodes, disk0, nodes0, disk, nodes, ip) && Edge(disk, nodes, ip, nodes1[ip].size)
    requires SameSlots(ninodes, disk, nodes, disk1, nodes1)
    ensures Edges(disk1, nodes1)
  {
    forall i: nat | i < ninodes ensures Edge(disk1, nodes1, i, nodes1[i].size) {
      if i == ip {
        EdgeSame(disk, nodes, disk1, nodes1, i, nodes1[i].size, nodes1[i].size);
      } else {
        assert Edge(disk0, nodes0, i, nodes0[i].size);
        forall t: FS.Slot | FS.IsSlot(ninodes, t) && t.i == i
            ensures FS.Addr(disk1, nodes1, t) == FS.Addr(disk0, nodes0, t) {
          assert FS.Addr(disk, nodes, t) == FS.Addr(disk0, nodes0, t);
        }
        EdgeSame(disk0, nodes0, disk1, nodes1, i, nodes0[i].size, nodes1[i].size);
      }
    }
  }

  /** Writing inode ip to disk carries out what the loop of iappend prepared. */
  lemma RecordedNodes(size: nat, ninodes: nat, nblocks: nat, disk0: seq<Block>, disk: seq<Block>, nodes0: seq<FS.Inode>,
                      ip: nat, din1: Raw, disk1: seq<Block>)
    requires Prepared(size, ninodes, nblocks, disk0) && ip < ninodes && nodes0 == Nodes(disk0, ninodes)
    requires SameMeta(FS.DataStart(size, ninodes), disk0, disk) && disk1 == WInode(disk, ip, din1)
    ensures Prepared(size, ninodes, nblocks, disk1) && Nodes(disk1, ninodes) == nodes0[ip := Node(din1)]
    ensures forall c: nat | FS.DataStart(size, ninodes) <= c < size :: disk1[c] == disk[c]
  {
    StillPrepared(size, ninodes, nblocks, disk, ip, din1);
    SameNodes(disk0, disk, ninodes);
    NodesWritten(disk, ninodes, ip, din1);
  }

  lemma RecordedFiles(size: nat, ninodes: nat, disk0: seq<Block>, nodes0: seq<FS.Inode>, disk: seq<Block>,
                      nodes: seq<FS.Inode>, owner: map<nat, FS.Slot>, top: nat, ip: nat, src: seq<Byte>,
                      disk1: seq<Block>, nodes1: seq<FS.Inode>)
    requires Held(size, ninodes, disk, nodes, owner, top) && ip < ninodes == |nodes0| == |nodes1| && |disk1| == size
    requires nodes == nodes0[ip := nodes[ip]] && nodes1 == nodes0[ip := nodes1[ip]]
    requires nodes1[ip].addrs == nodes[ip].addrs && nodes1[ip].size == nodes0[ip].size + |src|
    requires Appending(FS.DataStart(size, ninodes), ninodes, disk0, nodes0, disk, nodes, ip, nodes0[ip].size, src,
                       |src|)
    requires nodes0[ip].size + |src| <= MAXFILE * BSIZE || src == []
    requires Edge(disk, nodes, ip, nodes1[ip].size) && FS.SameSlotsBut(ninodes, disk0, nodes0, disk, nodes, ip)
    requires ZeroTails(disk0, nodes0) && Edges(disk0, nodes0)
    requires forall c: nat | FS.DataStart(size, ninodes) <= c < size :: disk1[c] == disk[c]
    ensures Held(size, ninodes, disk1, nodes1, owner, top) && ZeroTails(disk1, nodes1) && Edges(disk1, nodes1)
    ensures FS.FilesOf(disk1, nodes1) == FS.FilesOf(disk0, nodes0)[ip := FS.FilesOf(disk0, nodes0)[ip] + src]
  {
    Redescribed(size, ninodes, disk, nodes, owner, top, disk1, nodes1);
    forall i: nat, bn: nat | i < ninodes && i != ip && bn < MAXFILE
      ensures FS.FileBlock(disk1, nodes1, i, bn) == FS.FileBlock(disk0, nodes0, i, bn)
    {
      assert FS.FileBlock(disk, nodes, i, bn) == FS.FileBlock(disk0, nodes0, i, bn);
    }
    AppendDone(ninodes, disk0, nodes0, disk1, nodes1, ip, src);
    EdgesKept(ninodes, disk0, nodes0, disk, nodes, disk1, nodes1, ip);
  }

  lemma Recorded(size: nat, ninodes: nat, nblocks: nat, disk0: seq<Block>, owner0: map<nat, FS.Slot>, top0: nat,
                 disk: seq<Block>, nodes: seq<FS.Inode>, owner: map<nat, FS.Slot>, top: nat,
                 ip: nat, din: Raw, din1: Raw, src: seq<Byte>, disk1: seq<Block>)
    requires Sane(size, ninodes, nblocks, disk0, owner0, top0) && ip < ninodes
    requires Held(size, ninodes, disk, nodes, owner, top)
    requires var nodes0 := Nodes(disk0, ninodes);
             && nodes == nodes0[ip := Node(din)] && din1 == din[2 := din1[2]] && din1[2] == nodes0[ip].size + |src|
             && Appending(FS.DataStart(size, ninodes), ninodes, disk0, nodes0, disk, nodes, ip, nodes0[ip].size, src,
                          |src|)
             && (nodes0[ip].size + |src| <= MAXFILE * BSIZE || src == [])
             && Edge(disk, nodes, ip, din1[2]) && FS.SameSlotsBut(ninodes, disk0, nodes0, disk, nodes, ip)
    requires disk1 == WInode(disk, ip, din1)
    ensures Sane(size, ninodes, nblocks, disk1, owner, top)
    ensures var nodes0, nodes1 := Nodes(disk0, ninodes), Nodes(disk1, ninodes);
            && nodes1 == nodes0[ip := Node(din1)]
            && FS.FilesOf(disk1, nodes1) == FS.FilesOf(disk0, nodes0)[ip := FS.FilesOf(disk0, nodes0)[ip] + src]
  {
    var nodes0, nodes1 := Nodes(disk0, ninodes), Nodes(disk1, ninodes);
    RecordedNodes(size, ninodes, nblocks, disk0, disk, nodes0, ip, din1, disk1);
    assert Node(din1).addrs == Node(din).addrs;
    RecordedFiles(size, ninodes, disk0, nodes0, disk, nodes, owner, top, ip, src, disk1, nodes1);
  }

  // ----- The specification: files are byte sequences, and blocks are counted

  datatype Op = Alloc(kind: nat) | Append(inum: nat, data: seq<Byte>) | Round(inum: nat)

  /** The files by number (number 0 is not used), what kind they are, which of them have an
      indirect block, and how many blocks of the image are in use. */
  datatype Layout = Layout(files: seq<seq<Byte>>, kinds: seq<int>, indirect: seq<bool>, used: nat)

  function Appended(l: Layout, i: nat, data: seq<Byte>): Layout
    requires i < |l.files| == |l.indirect|
  {
    var f := l.files[i];
    Layout(l.files[i := f + data], l.kinds, l.indirect[i := IndirectAfter(|f|, |data|, l.indirect[i])],
           l.used + Cost(|f|, |data|, l.indirect[i]))
  }

  function After(l: Layout, op: Op): (r: Layout)
    ensures |l.files| == |l.indirect| ==> |r.files| == |r.indirect|
    ensures l.used <= r.used
  {
    match op
    case Alloc(kind) => Layout(l.files + [[]], l.kinds + [kind], l.indirect + [false], l.used)
    case Append(i, data) => if i < |l.files| == |l.indirect| then Appended(l, i, data) else l
    case Round(i) => if i < |l.files| then l.(files := l.files[i := l.files[i] + Zeros(BSIZE - |l.files[i]| % BSIZE)])
        else l
  }

  function AfterAll(l: Layout, ops: seq<Op>): (r: Layout)
    ensures |l.files| == |l.indirect| ==> |r.files| == |r.indirect|
  {
    if ops == [] then l else After(AfterAll(l, ops[..|ops| - 1]), ops[|ops| - 1])
  }

  /** What mkfs starts with. */
  function Start(size: nat, ninodes: nat): Layout {
    Layout([[]], [0], [false], FS.DataStart(size, ninodes))
  }

  /** The limits mkfs does not check. */
  predicate Legal(ninodes: nat, files: seq<seq<Byte>>, op: Op) {
    match op
    case Alloc(kind) => 0 < kind <= FS.T_DEV && |files| < ninodes
    case Append(i, data) => 0 < i < |files|
    case Round(i) => 0 < i < |files| && |files[i]| <= MAXFILE * BSIZE
  }

  ghost predicate AllLegal(ninodes: nat, l: Layout, ops: seq<Op>) {
    forall i: nat {:trigger ops[i]} | i < |ops| :: Legal(ninodes, AfterAll(l, ops[..i]).files, ops[i])
  }

  /** The write that stops mkfs at its assertion on MAXFILE. */
  predicate TooLong(files: seq<seq<Byte>>, op: Op) {
    op.Append? && op.data != [] && op.inum < |files| && |files[op.inum]| + |op.data| > MAXFILE * BSIZE
  }

  /** The first n operations keep every file within MAXFILE blocks and all of them inside the image. */
  ghost predicate FitsUpTo(size: nat, l: Layout, ops: seq<Op>, n: nat)
    requires n <= |ops|
  {
    && AfterAll(l, ops[..n]).used <= size
    && forall i: nat {:trigger ops[i]} | i < n :: !TooLong(AfterAll(l, ops[..i]).files, ops[i])
  }

  ghost predicate Fits(size: nat, l: Layout, ops: seq<Op>) {
    FitsUpTo(size, l, ops, |ops|)
  }

  lemma AfterOn(l: Layout, ops: seq<Op>, i: nat)
    requires i < |ops|
    ensures AfterAll(l, ops[..i + 1]) == After(AfterAll(l, ops[..i]), ops[i])
  {
    assert ops[..i + 1][..i] == ops[..i];
  }

  lemma {:induction false} UsedGrows(l: Layout, ops: seq<Op>, i: nat, n: nat)
    requires i <= n <= |ops|
    ensures AfterAll(l, ops[..i]).used <= AfterAll(l, ops[..n]).used
    decreases n - i
  {
    if i < n {
      AfterOn(l, ops, i);
      UsedGrows(l, ops, i + 1, n);
    }
  }

  lemma FitsOn(size: nat, l: Layout, ops: seq<Op>, i: nat)
    requires i < |ops| && FitsUpTo(size, l, ops, i)
    ensures var before := AfterAll(l, ops[..i]);
      if After(before, ops[i]).used <= size && !TooLong(before.files, ops[i]) then FitsUpTo(size, l, ops, i + 1)
      else !Fits(size, l, ops)
  {
    AfterOn(l, ops, i);
    UsedGrows(l, ops, i + 1, |ops|);
  }

  /** The inode of a file that has one name so far. */
  predicate OneLink(n: FS.Inode) {
    0 < n.kind <= FS.T_DEV && n.nlink == 1 && n.major == 0 && n.minor == 0
  }

  /** An inode nobody has written. */
  ghost predicate Untouched(n: FS.Inode) {
    n.kind == n.major == n.minor == n.nlink == n.size == 0 && forall k: nat | k <= NDIRECT :: n.addrs[k] == 0
  }

  /** Inodes below freeinode are in use, each with one link, the others blank. */
  ghost predicate InUse(nodes: seq<FS.Inode>, freeinode: nat) {
    forall i: nat {:trigger nodes[i]} | i < |nodes| ::
      if 0 < i < freeinode then OneLink(nodes[i]) else Untouched(nodes[i])
  }

  /** What ialloc writes: a type, one link, and nothing else. */
  function Blank(kind: nat): (din: Raw)
    requires kind <= FS.T_DEV
    ensures din[2] == 0 && Node(din).kind == kind && (kind > 0 ==> OneLink(Node(din)))
    ensures forall k: nat | k <= NDIRECT :: Node(din).addrs[k] == 0
  {
    var s := seq(WORDS, (k: nat) => if k == 0 then kind else if k == 1 then 0x1_0000 else 0);
    assert forall k: nat | k < WORDS :: s[k] < UINT;
    s
  }

  lemma OneMore(nodes: seq<FS.Inode>, i: nat, n: FS.Inode)
    requires 0 < i < |nodes| && InUse(nodes, i) && OneLink(n)
    ensures InUse(nodes[i := n], i + 1)
  {
  }

  lemma EmptyFile(files: seq<seq<Byte>>, i: nat)
    requires i < |files| && files[i] == []
    ensures files[i := files[i] + Zeros(0)][..i + 1] == files[..i] + [[]]
  {
    assert files[i] + Zeros(0) == [];
  }

  lemma BlankInode(disk: seq<Block>, i: nat)
    requires InodeBlock(i) < |disk| && disk[InodeBlock(i)] == Zero()
    ensures forall k: nat {:trigger RInode(disk, i)[k]} | k < WORDS :: RInode(disk, i)[k] == 0
  {
    forall j: nat | j < NINDIRECT ensures Word(Zero(), j) == 0 { ZeroWords(j); }
  }

  lemma BlankTable(size: nat, ninodes: nat, disk: seq<Block>)
    requires 0 < ninodes && FS.DataStart(size, ninodes) <= |disk|
    requires forall c: nat | 1 < c < |disk| :: disk[c] == Zero()
    ensures InUse(Nodes(disk, ninodes), 1)
    ensures forall i: nat, k: nat | i < ninodes && k <= NDIRECT :: Nodes(disk, ninodes)[i].addrs[k] == 0
  {
    var nodes := Nodes(disk, ninodes);
    forall i: nat, k: nat | i < ninodes && k <= NDIRECT
      ensures nodes[i].kind == nodes[i].major == nodes[i].minor == nodes[i].nlink == nodes[i].size == 0
      ensures nodes[i].addrs[k] == 0
    {
      BlankInode(disk, i);
      assert nodes[i].addrs[k] == RInode(disk, i)[3 + k];
    }
  }

  /** What mkfs starts from. */
  lemma NewImage(size: nat, ninodes: nat, nblocks: nat, disk: seq<Block>)
    requires Prepared(size, ninodes, nblocks, disk) && 0 < ninodes && size < UINT
    requires forall c: nat | 1 < c < size :: disk[c] == Zero()
    ensures Sane(size, ninodes, nblocks, disk, map[], FS.DataStart(size, ninodes))
    ensures InUse(Nodes(disk, ninodes), 1)
    ensures FS.FilesOf(disk, Nodes(disk, ninodes))[..1] == [[]]
  {
    var nodes := Nodes(disk, ninodes);
    BlankTable(size, ninodes, disk);
    forall s: FS.Slot | FS.IsSlot(ninodes, s)
      ensures FS.Addr(disk, nodes, s) == 0
    {
      assert nodes[s.i].addrs[NDIRECT] == 0;
    }
    forall i: nat, bn: nat | i < ninodes && bn < MAXFILE
      ensures FS.FileBlock(disk, nodes, i, bn) == Zero()
    {
      assert FS.Addr(disk, nodes, FS.DataSlot(i, bn)) == 0;
    }
    assert nodes[0].size == 0;
    forall i: nat | i < ninodes ensures Edge(disk, nodes, i, nodes[i].size) { assert nodes[i].size == 0; }
  }

  /** The appended bytes go to one of the files in use. */
  lemma AppendUse(nodes: seq<FS.Inode>, freeinode: nat, i: nat, n: FS.Inode)
    requires 0 < i < freeinode <= |nodes| && InUse(nodes, freeinode) && FS.SameHead(nodes[i], n)
    ensures InUse(nodes[i := n], freeinode)
  {
  }

  // ----- The bitmap, and fscheck

  lemma {:induction false} NoBits(k: nat)
    ensures !HasBit(0, k)
  {
    if k > 0 { NoBits(k - 1); }
  }

  ghost predicate BitsBelow(b: Block, n: nat) {
    forall j: nat {:trigger BlockBit(b, j)} | j < BPB :: BlockBit(b, j) <==> j < n
  }

  /** The bitmap block written at the end makes the image what the kernel expects. */
  lemma Stamped(size: nat, ninodes: nat, nblocks: nat, disk: seq<Block>, owner: map<nat, FS.Slot>, top: nat, buf: Block,
                disk1: seq<Block>)
    requires Sane(size, ninodes, nblocks, disk, owner, top) && top < BPB && BitsBelow(buf, top)
    requires disk1 == disk[ninodes / 8 + 3 := buf]
    ensures var nodes := Nodes(disk, ninodes);
            && Nodes(disk1, ninodes) == nodes && FS.Accounted(size, ninodes, disk1, nodes, owner, {})
            && FS.FilesOf(disk1, nodes) == FS.FilesOf(disk, nodes)
  {
    var nodes := Nodes(disk, ninodes);
    SameNodes(disk, disk1, ninodes);
    Redescribed(size, ninodes, disk, nodes, owner, top, disk1, nodes);
    forall b: nat | b < size
      ensures FS.Bit(ninodes, disk1, b) <==> b < top
    {
      if b >= BPB {
        assert disk1[FS.BitmapBlock(ninodes, b)] == Zero();
        NoBits(b % BPB % 8);
      }
    }
    forall i: nat | i < ninodes
      ensures FS.FilesOf(disk1, nodes)[i] == FS.FilesOf(disk, nodes)[i]
    {
      SameBytes(disk, nodes, disk1, nodes, i, nodes[i].size);
    }
  }

  /** fscheck computes the start of the data region from nblocks, mkfs from size; they agree
      exactly when both fit the same number of bitmap blocks. */
  lemma StartsAgree(sb: Fscheck.Super)
    requires sb.size == sb.nblocks + FS.DataStart(sb.size, sb.ninodes)
    ensures Fscheck.BStart(sb) == FS.DataStart(sb.size, sb.ninodes) <==> sb.nblocks / BPB == sb.size / BPB
  {
  }

  /** Every image with the kernel's exact block accounting, in which inodes not in use hold
      nothing, passes fscheck. */
  lemma AccountedIsSound(disk: seq<Block>, owner: map<nat, FS.Slot>)
    requires Fscheck.Sized(disk)
    requires var sb := Fscheck.SuperOf(disk);
             && sb.nblocks / BPB == sb.size / BPB && sb.ninodes > 0
             && var nodes := Nodes(disk, sb.ninodes);
                && FS.Accounted(sb.size, sb.ninodes, disk, nodes, owner, {}) && Fscheck.KindsKnown(nodes)
                && forall i: nat {:trigger nodes[i]} | i < |nodes| && nodes[i].kind == 0 ::
                   forall k: nat | k <= NDIRECT :: nodes[i].addrs[k] == 0
    ensures Fscheck.Sound(disk)
  {
    var sb := Fscheck.SuperOf(disk);
    var nodes := Nodes(disk, sb.ninodes);
    forall l: nat | Fscheck.InData(sb, l) && FS.Bit(sb.ninodes, disk, l)
      ensures Fscheck.HeldBySome(disk, nodes, l)
    {
      var s := owner[l];
      assert FS.Addr(disk, nodes, s) == l;
      assert Fscheck.Holds(disk, nodes, s);
    }
  }

  /** A slot in use that holds block b. */
  ghost function Holder(disk: seq<Block>, nodes: seq<FS.Inode>, b: nat): (s: FS.Slot)
    requires Fscheck.HeldBySome(disk, nodes, b)
    ensures Fscheck.Holds(disk, nodes, s) && FS.Addr(disk, nodes, s) == b
  {
    var s: FS.Slot :| Fscheck.Holds(disk, nodes, s) && FS.Addr(disk, nodes, s) == b;
    s
  }

  /** The part of the kernel's accounting that fscheck does not look at: inodes not in use hold
      nothing, the blocks below the data are marked, and free blocks are zero. */
  ghost predicate Unchecked(sb: Fscheck.Super, disk: seq<Block>, nodes: seq<FS.Inode>) {
    && FS.Shape(sb.size, sb.ninodes, disk, nodes)
    && (forall i: nat {:trigger nodes[i]} | i < |nodes| && nodes[i].kind == 0 ::
          forall k: nat | k <= NDIRECT :: nodes[i].addrs[k] == 0)
    && (forall b: nat {:trigger FS.Bit(sb.ninodes, disk, b)} | b < Fscheck.BStart(sb) :: FS.Bit(sb.ninodes, disk, b))
    && forall b: nat {:trigger disk[b]} | Fscheck.InData(sb, b) && !FS.Bit(sb.ninodes, disk, b) :: disk[b] == Zero()
  }

  /** Conversely, an image that passes fscheck has the kernel's accounting, as far as fscheck looks. */
  lemma SoundIsAccounted(disk: seq<Block>) returns (owner: map<nat, FS.Slot>)
    requires Fscheck.Sized(disk) && Fscheck.Sound(disk)
    requires var sb := Fscheck.SuperOf(disk);
             sb.nblocks / BPB == sb.size / BPB && sb.ninodes > 0 && Unchecked(sb, disk, Nodes(disk, sb.ninodes))
    ensures var sb := Fscheck.SuperOf(disk);
            FS.Accounted(sb.size, sb.ninodes, disk, Nodes(disk, sb.ninodes), owner, {})
  {
    var sb := Fscheck.SuperOf(disk);
    var nodes := Nodes(disk, sb.ninodes);
    owner := map b: nat | b < sb.size && Fscheck.InData(sb, b) && Fscheck.HeldBySome(disk, nodes, b) ::
      Holder(disk, nodes, b);
    forall s: FS.Slot | FS.IsSlot(sb.ninodes, s) && FS.Addr(disk, nodes, s) != 0
      ensures FS.Addr(disk, nodes, s) in owner && owner[FS.Addr(disk, nodes, s)] == s
    {
      assert Fscheck.Holds(disk, nodes, s);
    }
    forall b: nat | b < sb.size
      ensures FS.Bit(sb.ninodes, disk, b) <==> b < FS.DataStart(sb.size, sb.ninodes) || b in owner
    {
      if b in owner { assert Fscheck.Holds(disk, nodes, owner[b]) && FS.Addr(disk, nodes, owner[b]) == b; }
    }
  }

  // ----- The program

  lemma NodeWithAddr(din: Raw, k: nat, b: nat)
    requires k <= NDIRECT && b < UINT
    ensures Node(din[3 + k := b]) == Node(din).(addrs := Node(din).addrs[k := b])
  {
  }

  function Indirects(nodes: seq<FS.Inode>): (r: seq<bool>)
    ensures |r| == |nodes|
  {
    seq(|nodes|, (i: nat) requires i < |nodes| => HasIndirect(nodes[i]))
  }

  function Kinds(nodes: seq<FS.Inode>): (r: seq<int>)
    ensures |r| == |nodes|
  {
    seq(|nodes|, (i: nat) requires i < |nodes| => nodes[i].kind)
  }

  /** All but the addresses. */
  predicate SameHead(din: Raw, din1: Raw) {
    din1[0] == din[0] && din1[1] == din[1] && din1[2] == din[2]
  }

  ghost function LayoutOf(disk: seq<Block>, nodes: seq<FS.Inode>, freeinode: nat, used: nat): Layout
    requires freeinode <= |nodes|
  {
    Layout(FS.FilesOf(disk, nodes)[..freeinode], Kinds(nodes)[..freeinode], Indirects(nodes)[..freeinode], used)
  }

  lemma OneFile(disk: seq<Block>, nodes: seq<FS.Inode>, disk1: seq<Block>, nodes1: seq<FS.Inode>, freeinode: nat,
                used: nat, used1: nat,
                i: nat, n: FS.Inode, f: seq<Byte>)
    requires i < freeinode <= |nodes| && nodes1 == nodes[i := n]
             && FS.FilesOf(disk1, nodes1) == FS.FilesOf(disk, nodes)[i := f] && n.kind == nodes[i].kind
    ensures var l := LayoutOf(disk, nodes, freeinode, used);
      LayoutOf(disk1, nodes1, freeinode, used1) ==
      Layout(l.files[i := f], l.kinds, l.indirect[i := HasIndirect(n)], used1)
  {
    assert Indirects(nodes1) == Indirects(nodes)[i := HasIndirect(n)];
    assert Kinds(nodes1) == Kinds(nodes);
  }

  lemma OneFileMore(disk: seq<Block>, nodes: seq<FS.Inode>, disk1: seq<Block>, nodes1: seq<FS.Inode>, i: nat, used: nat,
                    n: FS.Inode)
    requires i < |nodes| && nodes1 == nodes[i := n] && !HasIndirect(n) && nodes[i].size == 0
    requires FS.FilesOf(disk1, nodes1) == FS.FilesOf(disk, nodes)[i := FS.FilesOf(disk, nodes)[i] + Zeros(0)]
    ensures var l := LayoutOf(disk, nodes, i, used);
      LayoutOf(disk1, nodes1, i + 1, used) == Layout(l.files + [[]], l.kinds + [n.kind], l.indirect + [false], used)
  {
    EmptyFile(FS.FilesOf(disk, nodes), i);
    assert Indirects(nodes1)[..i + 1] == Indirects(nodes)[..i] + [false];
    assert Kinds(nodes1)[..i + 1] == Kinds(nodes)[..i] + [n.kind];
  }

  lemma RoundUp(n: nat)
    ensures (n / BSIZE + 1) * BSIZE == n + (BSIZE - n % BSIZE) && (n / BSIZE + 1) * BSIZE % BSIZE == 0
  {
  }

  lemma RoundedLayout(l: Layout, i: nat, more: nat, l1: Layout)
    requires i < |l.files| == |l.indirect| && more == BSIZE - |l.files[i]| % BSIZE
    requires l1 == Layout(l.files[i := l.files[i] + Zeros(more)], l.kinds, l.indirect[i := l.indirect[i]], l.used)
    ensures l1 == After(l, Op.Round(i))
  {
    assert l.indirect[i := l.indirect[i]] == l.indirect;
  }

  /** The inode with the rounded size has been written. */
  lemma Rounded(size: nat, ninodes: nat, nblocks: nat, disk: seq<Block>, owner: map<nat, FS.Slot>, top: nat,
                freeinode: nat,
                i: nat, din: Raw, more: nat, disk1: seq<Block>)
    requires Sane(size, ninodes, nblocks, disk, owner, top) && InUse(Nodes(disk, ninodes), freeinode)
             && 0 < i < freeinode <= ninodes
    requires var n := Nodes(disk, ninodes)[i];
      && more == BSIZE - n.size % BSIZE && Node(din).size == n.size + more && Node(din).size % BSIZE == 0
      && Node(din).addrs == n.addrs && FS.SameHead(n, Node(din))
    requires disk1 == WInode(disk, i, din)
    ensures Sane(size, ninodes, nblocks, disk1, owner, top) && InUse(Nodes(disk1, ninodes), freeinode)
    ensures LayoutOf(disk1, Nodes(disk1, ninodes), freeinode, top) ==
            After(LayoutOf(disk, Nodes(disk, ninodes), freeinode, top), Op.Round(i))
  {
    var nodes := Nodes(disk, ninodes);
    var f := FS.FilesOf(disk, nodes)[i] + Zeros(more);
    Relabelled(size, ninodes, nblocks, disk, owner, top, i, din, more, disk1);
    AppendUse(nodes, freeinode, i, Node(din));
    OneFile(disk, nodes, disk1, Nodes(disk1, ninodes), freeinode, top, top, i, Node(din), f);
    RoundedLayout(LayoutOf(disk, nodes, freeinode, top), i, more,
                  LayoutOf(disk1, Nodes(disk1, ninodes), freeinode, top));
  }

  /** What the loop of iappend leaves for the inode to be written. */
  ghost predicate Looped(size: nat, ninodes: nat, disk0: seq<Block>, nodes0: seq<FS.Inode>, top0: nat,
                         disk: seq<Block>, owner: map<nat, FS.Slot>, top: nat, ip: nat, din: Raw, src: seq<Byte>)
    requires ip < |nodes0|
  {
    var n, nodes := nodes0[ip], nodes0[ip := Node(din)];
    && Held(size, ninodes, disk, nodes, owner, top)
    && FS.SameHead(n, Node(din)) && (n.size + |src| <= MAXFILE * BSIZE || src == [])
    && Appending(FS.DataStart(size, ninodes), ninodes, disk0, nodes0, disk, nodes, ip, n.size, src, |src|)
    && Progress(ninodes, disk0, nodes0, disk, nodes, ip, n.size + |src|)
    && (HasIndirect(Node(din)) <==> IndirectAfter(n.size, |src|, HasIndirect(n)))
       && top == top0 + Cost(n.size, |src|, HasIndirect(n))
  }

  /** Writing inode ip to disk finishes iappend. */
  lemma Extended(size: nat, ninodes: nat, nblocks: nat, disk0: seq<Block>, owner0: map<nat, FS.Slot>, top0: nat,
                 freeinode: nat,
                 disk: seq<Block>, owner: map<nat, FS.Slot>, top: nat, ip: nat, din: Raw, din1: Raw, src: seq<Byte>,
                     disk1: seq<Block>)
    requires Sane(size, ninodes, nblocks, disk0, owner0, top0) && InUse(Nodes(disk0, ninodes), freeinode)
             && 0 < ip < freeinode <= ninodes
    requires Looped(size, ninodes, disk0, Nodes(disk0, ninodes), top0, disk, owner, top, ip, din, src)
    requires din1 == din[2 := din1[2]] && din1[2] == Nodes(disk0, ninodes)[ip].size + |src|
    requires disk1 == WInode(disk, ip, din1)
    ensures Sane(size, ninodes, nblocks, disk1, owner, top) && InUse(Nodes(disk1, ninodes), freeinode)
    ensures LayoutOf(disk1, Nodes(disk1, ninodes), freeinode, top) ==
            Appended(LayoutOf(disk0, Nodes(disk0, ninodes), freeinode, top0), ip, src)
  {
    var nodes0 := Nodes(disk0, ninodes);
    Recorded(size, ninodes, nblocks, disk0, owner0, top0, disk, nodes0[ip := Node(din)], owner, top, ip, din, din1, src,
             disk1);
    OneFile(disk0, nodes0, disk1, Nodes(disk1, ninodes), freeinode, top0, top, ip, Node(din1),
            FS.FilesOf(disk0, nodes0)[ip] + src);
    AppendUse(nodes0, freeinode, ip, Node(din1));
  }

  class Maker {
    const size: nat
    const ninodes: nat
    const nblocks: nat
    var disk: seq<Block>
    var freeblock: nat
    var usedblocks: nat
    var freeinode: nat
    ghost var owner: map<nat, FS.Slot>

    /** mkfs writes zeros everywhere and the superblock. */
    constructor (nblocks: nat, ninodes: nat, size: nat)
      requires 0 < ninodes < UINT && size < UINT && nblocks + FS.DataStart(size, ninodes) == size
      ensures Valid() && Built() == Start(size, ninodes)
      ensures this.nblocks == nblocks && this.ninodes == ninodes && this.size == size
    {
      this.nblocks, this.ninodes, this.size := nblocks, ninodes, size;
      var image := seq(size, _ => Zero());
      image := image[1 := PutWord(PutWord(PutWord(Zero(), 0, size), 1, nblocks), 2, ninodes)];
      disk, freeblock, usedblocks, freeinode, owner := image, FS.DataStart(size, ninodes), FS.DataStart(size, ninodes),
          1, map[];
      NewImage(size, ninodes, nblocks, image);
    }

    ghost predicate Counted(nodes: seq<FS.Inode>)
      reads this
    {
      Held(size, ninodes, disk, nodes, owner, freeblock) && usedblocks == freeblock
    }

    /** freeblock++.  When the image has no such block the next rsect of it fails and mkfs exits. */
    method Take() returns (b: Option<nat>)
      requires freeblock <= size && usedblocks == freeblock
      modifies this`freeblock, this`usedblocks
      ensures freeblock == old(freeblock) + 1 && usedblocks == freeblock
      ensures b == if old(freeblock) < size then Some(old(freeblock)) else None
    {
      b := if freeblock < size then Some(freeblock) else None;
      freeblock := freeblock + 1;
      usedblocks := usedblocks + 1;
    }

    /** addrs[k] of the inode din, given a block if it has none. */
    method MapDirect(inum: nat, din: Raw, k: nat, ghost nodes: seq<FS.Inode>) returns (ok: bool, din1: Raw)
      requires Counted(nodes) && inum < ninodes && k <= NDIRECT && nodes[inum] == Node(din)
      modifies this`freeblock, this`usedblocks, this`owner
      ensures usedblocks == freeblock
      ensures ok <==> din[3 + k] != 0 || old(freeblock) < size
      ensures ok ==>
                && freeblock == old(freeblock) + (if din[3 + k] == 0 then 1 else 0)
                && OtherSlotsSame(ninodes, disk, nodes, disk, nodes[inum := Node(din1)], FS.Direct(inum, k))
                && din1[3 + k] != 0 && din1 == din[3 + k := din1[3 + k]] && Node(din1).addrs[k] == din1[3 + k]
                && Counted(nodes[inum := Node(din1)])
                && FS.SameBlocks(ninodes, disk, nodes, disk, nodes[inum := Node(din1)])
    {
      din1 := din;
      if din[3 + k] == 0 {
        var b := Take();
        if b.None? { return false, din; }
        NodeWithAddr(din, k, b.value);
        din1 := din[3 + k := b.value];
        GrowDirect(size, ninodes, disk, nodes, owner, old(freeblock), inum, k, nodes[inum := Node(din1)]);
        owner := owner[b.value := FS.Direct(inum, k)];
      } else {
        assert nodes[inum := Node(din1)] == nodes;
      }
      ok := true;
    }

    /** Word j of the inode's indirect block p, given a block if it is 0. */
    method MapWord(inum: nat, p: nat, j: nat, ghost nodes: seq<FS.Inode>) returns (ok: bool, x: nat)
      requires Counted(nodes) && inum < ninodes && j < NINDIRECT && p == nodes[inum].addrs[NDIRECT] != 0
      modifies this`disk, this`freeblock, this`usedblocks, this`owner
      ensures usedblocks == freeblock
      ensures ok <==> FS.Addr(old(disk), nodes, FS.Indirect(inum, j)) != 0 || old(freeblock) < size
      ensures ok ==>
                && freeblock == old(freeblock) + (if FS.Addr(old(disk), nodes, FS.Indirect(inum, j)) == 0 then 1 else 0)
                && OtherSlotsSame(ninodes, old(disk), nodes, disk, nodes, FS.Indirect(inum, j))
                && Counted(nodes) && x == FS.Addr(disk, nodes, FS.Indirect(inum, j)) != 0
                && FS.SameBlocks(ninodes, old(disk), nodes, disk, nodes)
                && forall c: nat | c < FS.DataStart(size, ninodes) :: disk[c] == old(disk)[c]
    {
      HeldIndirect(size, ninodes, disk, nodes, owner, freeblock, inum);
      x := Word(disk[p], j);
      assert x == FS.Addr(disk, nodes, FS.Indirect(inum, j));
      if x == 0 {
        var b := Take();
        if b.None? { return false, 0; }
        x := b.value;
        GrowIndirect(size, ninodes, disk, nodes, owner, x, inum, j, disk[p := PutWord(disk[p], j, x)]);
        disk := disk[p := PutWord(disk[p], j, x)];
        owner := owner[x := FS.Indirect(inum, j)];
      }
      ok := true;
    }

    /** The block mapping of iappend. */
    method MapBlock(inum: nat, din: Raw, fbn: nat, ghost nodes: seq<FS.Inode>) returns (ok: bool, din1: Raw, x: nat)
      requires Counted(nodes) && inum < ninodes && fbn < MAXFILE && nodes[inum] == Node(din)
      modifies this`disk, this`freeblock, this`usedblocks, this`owner
      ensures usedblocks == freeblock
      ensures ok <==> old(freeblock) + FS.Missing(old(disk), nodes, inum, fbn) <= size
      ensures ok ==>
                && freeblock == old(freeblock) + FS.Missing(old(disk), nodes, inum, fbn)
                && SameHead(din, din1) && Counted(nodes[inum := Node(din1)])
                && FS.Mapped(ninodes, old(disk), nodes, disk, nodes[inum := Node(din1)], inum, fbn)
                && x == FS.Addr(disk, nodes[inum := Node(din1)], FS.DataSlot(inum, fbn)) != 0
                && forall c: nat | c < FS.DataStart(size, ninodes) :: disk[c] == old(disk)[c]
    {
      if fbn < NDIRECT {
        ok, din1 := MapDirect(inum, din, fbn, nodes);
        x := din1[3 + fbn];
      } else {
        ok, din1, x := MapFar(inum, din, fbn, nodes);
      }
    }

    /** The same beyond the direct blocks. */
    method MapFar(inum: nat, din: Raw, fbn: nat, ghost nodes: seq<FS.Inode>) returns (ok: bool, din1: Raw, x: nat)
      requires Counted(nodes) && inum < ninodes && NDIRECT <= fbn < MAXFILE && nodes[inum] == Node(din)
      modifies this`disk, this`freeblock, this`usedblocks, this`owner
      ensures usedblocks == freeblock
      ensures ok <==> old(freeblock) + FS.Missing(old(disk), nodes, inum, fbn) <= size
      ensures ok ==>
                && freeblock == old(freeblock) + FS.Missing(old(disk), nodes, inum, fbn)
                && SameHead(din, din1) && Counted(nodes[inum := Node(din1)])
                && FS.Mapped(ninodes, old(disk), nodes, disk, nodes[inum := Node(din1)], inum, fbn)
                && x == FS.Addr(disk, nodes[inum := Node(din1)], FS.DataSlot(inum, fbn)) != 0
                && forall c: nat | c < FS.DataStart(size, ninodes) :: disk[c] == old(disk)[c]
    {
      ok, din1 := MapDirect(inum, din, NDIRECT, nodes);
      x := 0;
      if ok {
        ghost var nodes1 := nodes[inum := Node(din1)];
        ok, x := MapWord(inum, din1[3 + NDIRECT], fbn - NDIRECT, nodes1);
        if ok {
          BothMapped(ninodes, old(disk), nodes, nodes1, disk, inum, fbn);
        }
      }
    }

    /** One round of iappend. */
    method AppendRound(inum: nat, din: Raw, ghost off0: nat, src: seq<Byte>, tot: nat, off: nat,
                       ghost disk0: seq<Block>, ghost nodes0: seq<FS.Inode>)
      returns (ok: bool, din1: Raw, tot1: nat, off1: nat)
      requires inum < ninodes == |nodes0| && tot < |src| && off == off0 + tot && off / BSIZE < MAXFILE
      requires Counted(nodes0[inum := Node(din)])
      requires Appending(FS.DataStart(size, ninodes), ninodes, disk0, nodes0, disk, nodes0[inum := Node(din)], inum,
                         off0, src, tot)
      requires Progress(ninodes, disk0, nodes0, disk, nodes0[inum := Node(din)], inum, off)
      modifies this`disk, this`freeblock, this`usedblocks, this`owner
      ensures tot < tot1 <= |src| && tot1 - tot <= BSIZE - off % BSIZE && off1 == off0 + tot1
      ensures usedblocks == freeblock
      ensures ok <==> old(freeblock) + RoundCost(off, HasIndirect(Node(din))) <= size
      ensures ok ==>
                && freeblock == old(freeblock) + RoundCost(off, HasIndirect(Node(din)))
                && (HasIndirect(Node(din1)) <==> HasIndirect(Node(din)) || off / BSIZE >= NDIRECT)
                && SameHead(din, din1) && off1 <= MAXFILE * BSIZE && Counted(nodes0[inum := Node(din1)])
                && Appending(FS.DataStart(size, ninodes), ninodes, disk0, nodes0, disk, nodes0[inum := Node(din1)],
                             inum, off0, src, tot1)
                && Progress(ninodes, disk0, nodes0, disk, nodes0[inum := Node(din1)], inum, off1)
    {
      ghost var nodes := nodes0[inum := Node(din)];
      EdgeCost(disk, nodes, inum, off);
      var n1 := FS.PieceLen(off, |src| - tot);
      tot1, off1 := tot + n1, off + n1;
      var x;
      ok, din1, x := MapBlock(inum, din, off / BSIZE, nodes);
      if ok {
        ghost var nodes1, disk1 := nodes[inum := Node(din1)], disk;
        assert nodes1 == nodes0[inum := Node(din1)];
        assert x in owner;
        disk := disk[x := FS.Splice(disk[x], off % BSIZE, src[tot..tot1])];
        PieceIn(size, ninodes, old(disk), nodes, disk1, nodes1, owner, freeblock, inum, off / BSIZE, off % BSIZE,
                src[tot..tot1], disk);
        AppendingStep(FS.DataStart(size, ninodes), ninodes, disk0, nodes0, old(disk), nodes, disk, nodes1, inum, off0,
                      src, tot, tot1, off);
        ProgressStep(ninodes, disk0, nodes0, old(disk), nodes, disk1, nodes1, disk, inum, off, off1);
      }
    }

    // ----- Between the operations

    ghost predicate Valid()
      reads this
    {
      && 0 < freeinode <= ninodes && usedblocks == freeblock
      && Sane(size, ninodes, nblocks, disk, owner, freeblock) && InUse(Nodes(disk, ninodes), freeinode)
    }

    /** The files by inode number. */
    ghost function Files(): seq<seq<Byte>>
      reads this
      requires Valid()
    {
      FS.FilesOf(disk, Nodes(disk, ninodes))[..freeinode]
    }

    ghost function Built(): Layout
      reads this
      requires Valid()
    {
      LayoutOf(disk, Nodes(disk, ninodes), freeinode, freeblock)
    }

    /** ialloc */
    method IAlloc(kind: nat) returns (inum: nat)
      requires Valid() && 0 < kind <= FS.T_DEV && freeinode < ninodes
      modifies this`disk, this`freeinode
      ensures Valid() && inum == old(freeinode) == freeinode - 1
      ensures Nodes(disk, ninodes)[inum].kind == kind && OneLink(Nodes(disk, ninodes)[inum])
      ensures Built() == After(old(Built()), Alloc(kind))
    {
      inum := freeinode;
      freeinode := freeinode + 1;
      var din := Blank(kind);
      ghost var nodes := Nodes(disk, ninodes);
      assert Node(din).addrs == nodes[inum].addrs;
      Relabelled(size, ninodes, nblocks, disk, owner, freeblock, inum, din, 0, WInode(disk, inum, din));
      OneMore(nodes, inum, Node(din));
      OneFileMore(disk, nodes, WInode(disk, inum, din), nodes[inum := Node(din)], inum, freeblock, Node(din));
      disk := WInode(disk, inum, din);
    }

    /** The end of add_dir: the size of a directory becomes the next multiple of the block size. */
    method Round(inum: nat)
      requires Valid() && 0 < inum < freeinode && |Files()[inum]| <= MAXFILE * BSIZE
      modifies this`disk
      ensures Valid()
      ensures Built() == After(old(Built()), Op.Round(inum))
    {
      var din := RInode(disk, inum);
      var off := (din[2] / BSIZE + 1) * BSIZE;
      din := din[2 := off];
      var disk1 := WInode(disk, inum, din);
      ghost var len := Nodes(disk, ninodes)[inum].size;
      RoundUp(len);
      Rounded(size, ninodes, nblocks, disk, owner, freeblock, freeinode, inum, din, BSIZE - len % BSIZE, disk1);
      disk := disk1;
    }

    /** The loop of iappend. */
    method AppendLoop(inum: nat, din0: Raw, p: seq<Byte>, ghost nodes0: seq<FS.Inode>) returns (ok: bool, din: Raw)
      requires inum < ninodes == |nodes0| && nodes0[inum] == Node(din0) && Counted(nodes0)
               && Edge(disk, nodes0, inum, din0[2])
      modifies this`disk, this`freeblock, this`usedblocks, this`owner
      ensures usedblocks == freeblock
      ensures ok <==> p == [] || (din0[2] + |p| <= MAXFILE * BSIZE
                                  && old(freeblock) + Cost(din0[2], |p|, HasIndirect(Node(din0))) <= size)
      ensures ok ==> Looped(size, ninodes, old(disk), nodes0, old(freeblock), disk, owner, freeblock, inum, din, p)
    {
      din := din0;
      ghost var disk0, len, indirect := disk, din0[2], HasIndirect(Node(din0));
      var tot, off := 0, din[2];
      assert nodes0[inum := Node(din)] == nodes0;
      while tot < |p|
        invariant tot <= |p| && off == len + tot && SameHead(din0, din)
        invariant off <= MAXFILE * BSIZE || tot == 0
        invariant Counted(nodes0[inum := Node(din)])
        invariant Appending(FS.DataStart(size, ninodes), ninodes, disk0, nodes0, disk, nodes0[inum := Node(din)], inum,
                            len, p, tot)
        invariant Progress(ninodes, disk0, nodes0, disk, nodes0[inum := Node(din)], inum, off)
        invariant freeblock == old(freeblock) + Cost(len, tot, indirect)
        invariant HasIndirect(Node(din)) <==> IndirectAfter(len, tot, indirect)
      {
        if off / BSIZE >= MAXFILE { return false, din; }
        ghost var was, pos := tot, off;
        ok, din, tot, off := AppendRound(inum, din, len, p, tot, off, disk0, nodes0);
        CostStep(len, was, tot, pos, indirect);
        CostGrows(len, tot, |p|, indirect);
        if !ok { return; }
      }
      ok := true;
    }

    /** iappend; mkfs exits when the file gets too long or the image is full. */
    method IAppend(inum: nat, p: seq<Byte>) returns (ok: bool)
      requires Valid() && 0 < inum < freeinode
      modifies this`disk, this`freeblock, this`usedblocks, this`owner
      ensures usedblocks == freeblock
      ensures var after := Appended(old(Built()), inum, p);
        && (ok <==> p == [] || (|after.files[inum]| <= MAXFILE * BSIZE && after.used <= size))
        && (ok ==> Valid() && Built() == after)
    {
      var din := RInode(disk, inum);
      var off := din[2] + |p|;
      ghost var nodes0 := Nodes(disk, ninodes);
      assert Edge(disk, nodes0, inum, nodes0[inum].size);
      ok, din := AppendLoop(inum, din, p, nodes0);
      if ok {
        var disk1 := WInode(disk, inum, din[2 := off]);
        Extended(size, ninodes, nblocks, old(disk), old(owner), old(freeblock), freeinode, disk, owner, freeblock, inum,
                 din, din[2 := off], p, disk1);
        disk := disk1;
      }
    }

    /** balloc: the bitmap block with a bit for each of the first `used` blocks. */
    method BAlloc(used: nat) returns (ok: bool)
      requires Valid() && used == usedblocks
      modifies this`disk
      ensures ok <==> used < BPB
      ensures ok ==> var nodes := Nodes(old(disk), ninodes);
                && |disk| == size && disk[0] == old(disk)[0] && disk[1] == old(disk)[1] && Nodes(disk, ninodes) == nodes
                && FS.Accounted(size, ninodes, disk, nodes, owner, {})
                   && FS.FilesOf(disk, nodes)[..freeinode] == old(Files())
    {
      if used >= BPB { return false; }
      var buf := Zero();
      forall j: nat | j < BPB ensures !BlockBit(buf, j) { NoBits(j % 8); }
      for i := 0 to used
        invariant BitsBelow(buf, i)
      {
        buf := WithBit(buf, i);
      }
      Stamped(size, ninodes, nblocks, disk, owner, freeblock, buf, disk[ninodes / 8 + 3 := buf]);
      disk := disk[ninodes / 8 + 3 := buf];
      ok := true;
    }

    method Perform(op: Op) returns (ok: bool)
      requires Valid() && Legal(ninodes, Files(), op)
      modifies this
      ensures ok <==> After(old(Built()), op).used <= size && !TooLong(old(Files()), op)
      ensures usedblocks == freeblock && (ok ==> Valid() && Built() == After(old(Built()), op))
    {
      ok := true;
      match op
      case Alloc(kind) => var _ := IAlloc(kind);
      case Append(i, data) => ok := IAppend(i, data);
      case Round(i) => Round(i);
    }

    /** Any sequence of operations builds the files it says; it goes through exactly when every
        file stays within MAXFILE blocks and all of them fit the image. */
    method Run(ops: seq<Op>) returns (ok: bool)
      requires Valid() && AllLegal(ninodes, Built(), ops)
      modifies this
      ensures ok <==> Fits(size, old(Built()), ops)
      ensures usedblocks == freeblock && (ok ==> Valid() && Built() == AfterAll(old(Built()), ops))
    {
      ghost var l := Built();
      assert ops[..0] == [];
      for i := 0 to |ops|
        invariant Valid() && Built() == AfterAll(l, ops[..i]) && FitsUpTo(size, l, ops, i)
      {
        assert Legal(ninodes, AfterAll(l, ops[..i]).files, ops[i]);
        FitsOn(size, l, ops, i);
        AfterOn(l, ops, i);
        ok := Perform(ops[i]);
        if !ok { return; }
      }
      assert ops[..|ops|] == ops;
      ok := true;
    }
  }

  /** The kinds that ialloc is called for, in order. */
  function Allocated(ops: seq<Op>): seq<int> {
    if ops == [] then []
    else
      var last := ops[|ops| - 1];
      Allocated(ops[..|ops| - 1]) + if last.Alloc? then [last.kind] else []
  }

  lemma {:induction false} KindsAllocated(l: Layout, ops: seq<Op>)
    ensures AfterAll(l, ops).kinds == l.kinds + Allocated(ops)
  {
    if ops != [] { KindsAllocated(l, ops[..|ops| - 1]); }
  }

  /** Inode i has the kind of the i-th call of ialloc and one link; the others have never been written. */
  ghost predicate HeadsAre(nodes: seq<FS.Inode>, kinds: seq<int>) {
    && |kinds| <= |nodes|
    && forall i: nat {:trigger nodes[i]} | i < |nodes| ::
         if 0 < i < |kinds| then nodes[i].kind == kinds[i] && OneLink(nodes[i]) else Untouched(nodes[i])
  }

  lemma HeadsDone(disk: seq<Block>, nodes: seq<FS.Inode>, freeinode: nat, used: nat, size: nat, ninodes: nat,
                  ops: seq<Op>)
    requires 0 < freeinode <= |nodes| && InUse(nodes, freeinode)
    requires LayoutOf(disk, nodes, freeinode, used) == AfterAll(Start(size, ninodes), ops)
    ensures HeadsAre(nodes, [0] + Allocated(ops))
  {
    KindsAllocated(Start(size, ninodes), ops);
    var kinds := Kinds(nodes)[..freeinode];
    assert kinds == [0] + Allocated(ops);
    forall i: nat | i < freeinode ensures nodes[i].kind == kinds[i] { }
  }

  /** A run of mkfs completes exactly when its files fit the image and one bitmap block; it then
      leaves the files it was told to write, in an image that has the kernel's block accounting
      and passes the checks of fscheck. */
  method Build(nblocks: nat, ninodes: nat, size: nat, ops: seq<Op>)
    returns (ok: bool, disk: seq<Block>, verdict: Fscheck.Verdict, used: nat, ghost owner: map<nat, FS.Slot>)
    requires 0 < ninodes < UINT && size < UINT && AllLegal(ninodes, Start(size, ninodes), ops)
    requires nblocks / BPB == size / BPB
    ensures
      var end := AfterAll(Start(size, ninodes), ops);
      && (ok <==>
          && nblocks + FS.DataStart(size, ninodes) == size && Fits(size, Start(size, ninodes), ops)
          && end.used < BPB)
      && (ok ==>
            && |disk| == size && used == end.used && verdict.Good? && disk[0] == Zero()
            && Fscheck.SuperOf(disk) == Fscheck.Super(size, nblocks, ninodes)
            && var nodes := Nodes(disk, ninodes);
               && FS.Accounted(size, ninodes, disk, nodes, owner, {})
               && |end.files| <= ninodes && FS.FilesOf(disk, nodes)[..|end.files|] == end.files
               && HeadsAre(nodes, [0] + Allocated(ops)))
  {
    disk, verdict, owner, used := [], Fscheck.Good, map[], FS.DataStart(size, ninodes);
    if nblocks + used != size { return false, disk, verdict, used, owner; }
    var maker := new Maker(nblocks, ninodes, size);
    ok := maker.Run(ops);
    if !ok { return; }
    used := maker.usedblocks;
    HeadsDone(maker.disk, Nodes(maker.disk, ninodes), maker.freeinode, maker.freeblock, size, ninodes, ops);
    ok := maker.BAlloc(used);
    if !ok { return; }
    disk, owner := maker.disk, maker.owner;
    AccountedIsSound(disk, owner);
    verdict := Fscheck.CheckBlocks(disk);
  }
}
