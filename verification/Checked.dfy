/** Checksummed files, p5/xv6/kernel/fs.c: the top byte of each block pointer of a
    T_CHECKED file is the exclusive or of the bytes of that block.

    One in-core inode and the disk under it.  What FileSystem.dfy proves about the
    block allocator is taken over: `free` are the free blocks, all of them zero.
    The ghost sequence `blk` lists the file's data blocks in order. */
module Checked {

  import opened Blocks
  import opened Sets
  import opened Xor
  import opened Wrappers
  import FS = FileSystem

  const LOW := 0x100_0000 // 1 << 24

  /** The word that holds the pointer to file block k: an inode entry or an indirect entry. */
  function Ptr(disk: seq<Block>, addrs: seq<nat>, k: nat): nat
    requires |addrs| == NDIRECT + 1
  {
    if k < NDIRECT then addrs[k]
    else if k >= MAXFILE || addrs[NDIRECT] == 0 || addrs[NDIRECT] >= |disk| then 0
    else Word(disk[addrs[NDIRECT]], k - NDIRECT)
  }

  /** w & 0x00ffffff, then | sum << 24 */
  function WithSum(w: nat, sum: Byte): (r: nat)
    ensures r < UINT && r % LOW == w % LOW && r / LOW == sum
  {
    w % LOW + sum * LOW
  }

  // ----- The structure of the file

  /** Every pointer names a block of its own; free blocks are zero. */
  ghost predicate Laid(disk: seq<Block>, addrs: seq<nat>, blk: seq<nat>, free: set<nat>) {
    && |addrs| == NDIRECT + 1 && |blk| <= MAXFILE && |disk| > 0
    && (forall k: nat | k < |blk| :: 0 < blk[k] < |disk| && blk[k] < LOW && blk[k] !in free && blk[k] != addrs[NDIRECT])
    && (forall j: nat, k: nat | j < k < |blk| :: blk[j] != blk[k])
    && (forall k: nat {:trigger Ptr(disk, addrs, k)} | k < MAXFILE ::
          if k < |blk| then Ptr(disk, addrs, k) % LOW == blk[k] else Ptr(disk, addrs, k) == 0)
    && (addrs[NDIRECT] != 0 <==> |blk| > NDIRECT) && addrs[NDIRECT] < |disk| && addrs[NDIRECT] !in free
    && (forall b: nat {:trigger b in free} | b in free :: 0 < b < |disk| && b < LOW && disk[b] == Zero())
    && disk[0] == Zero()
  }

  /** The top byte of each pointer is the checksum of its block. */
  ghost predicate Summed(disk: seq<Block>, addrs: seq<nat>, blk: seq<nat>)
    requires |addrs| == NDIRECT + 1
  {
    forall k: nat {:trigger Ptr(disk, addrs, k)} | k < |blk| ::
      blk[k] < |disk| && Ptr(disk, addrs, k) / LOW == Sum(disk[blk[k]])
  }

  /** The file's blocks in order. */
  function Data(disk: seq<Block>, blk: seq<nat>): (d: seq<Block>)
    ensures |d| == |blk|
  {
    seq(|blk|, (k: nat) requires k < |blk| => if blk[k] < |disk| then disk[blk[k]] else Zero())
  }

  // ----- bmap appends a fresh block

  /** Block b has become the last block; p, if not 0, is the indirect block. */
  lemma AppendedLaid(disk: seq<Block>, addrs: seq<nat>, blk: seq<nat>, free: set<nat>, b: nat,
                 disk1: seq<Block>, addrs1: seq<nat>, free1: set<nat>)
    requires Laid(disk, addrs, blk, free) && Summed(disk, addrs, blk) && b in free && |blk| < MAXFILE
    requires |addrs1| == NDIRECT + 1 && |disk1| == |disk| && free1 <= free - {b} && addrs1[NDIRECT] !in free1
    requires addrs1[NDIRECT] != b && addrs1[NDIRECT] < |disk| && (addrs1[NDIRECT] != 0 <==> |blk| + 1 > NDIRECT)
    requires addrs1[NDIRECT] == addrs[NDIRECT] || addrs1[NDIRECT] in free
    requires forall c: nat | c < |disk| && (c != addrs1[NDIRECT] || c == 0) :: disk1[c] == disk[c]
    requires forall k: nat {:trigger Ptr(disk1, addrs1, k)} | k < MAXFILE ::
               Ptr(disk1, addrs1, k) == if k == |blk| then b else Ptr(disk, addrs, k)
    ensures Laid(disk1, addrs1, blk + [b], free1)
  {
  }

  lemma Appended(disk: seq<Block>, addrs: seq<nat>, blk: seq<nat>, free: set<nat>, b: nat,
                 disk1: seq<Block>, addrs1: seq<nat>, free1: set<nat>)
    requires Laid(disk, addrs, blk, free) && Summed(disk, addrs, blk) && b in free && |blk| < MAXFILE
    requires |addrs1| == NDIRECT + 1 && |disk1| == |disk| && free1 <= free - {b} && addrs1[NDIRECT] !in free1
    requires addrs1[NDIRECT] != b && addrs1[NDIRECT] < |disk| && (addrs1[NDIRECT] != 0 <==> |blk| + 1 > NDIRECT)
    requires addrs1[NDIRECT] == addrs[NDIRECT] || addrs1[NDIRECT] in free
    requires forall c: nat | c < |disk| && (c != addrs1[NDIRECT] || c == 0) :: disk1[c] == disk[c]
    requires forall k: nat {:trigger Ptr(disk1, addrs1, k)} | k < MAXFILE ::
               Ptr(disk1, addrs1, k) == if k == |blk| then b else Ptr(disk, addrs, k)
    ensures Laid(disk1, addrs1, blk + [b], free1) && Summed(disk1, addrs1, blk + [b])
    ensures Data(disk1, blk + [b]) == Data(disk, blk) + [Zero()]
  {
    AppendedLaid(disk, addrs, blk, free, b, disk1, addrs1, free1);
    SumZeros(disk[b]);
  }

  lemma AppendDirect(disk: seq<Block>, addrs: seq<nat>, blk: seq<nat>, free: set<nat>, b: nat)
    requires Laid(disk, addrs, blk, free) && Summed(disk, addrs, blk) && b in free && |blk| < NDIRECT
    ensures Laid(disk, addrs[|blk| := b], blk + [b], free - {b})
    ensures Summed(disk, addrs[|blk| := b], blk + [b])
    ensures Data(disk, blk + [b]) == Data(disk, blk) + [Zero()]
  {
    Appended(disk, addrs, blk, free, b, disk, addrs[|blk| := b], free - {b});
  }

  lemma FreshIndirectPtr(disk: seq<Block>, addrs: seq<nat>, p: nat, q: Block, b: nat, k: nat)
    requires |addrs| == NDIRECT + 1 && addrs[NDIRECT] == 0 && 0 < p < |disk| && k < MAXFILE
    requires forall j: nat | j < NINDIRECT :: Word(q, j) == if j == 0 then b else 0
    ensures Ptr(disk[p := q], addrs[NDIRECT := p], k) == if k == NDIRECT then b else Ptr(disk, addrs, k)
  {
  }

  /** When the direct entries are used up, the indirect block p comes first. */
  lemma AppendFirstIndirect(disk: seq<Block>, addrs: seq<nat>, blk: seq<nat>, free: set<nat>, p: nat, b: nat,
                            disk1: seq<Block>)
    requires Laid(disk, addrs, blk, free) && Summed(disk, addrs, blk) && p in free && b in free && b != p
    requires |blk| == NDIRECT && disk1 == disk[p := PutWord(disk[p], 0, b)]
    ensures Laid(disk1, addrs[NDIRECT := p], blk + [b], free - {p} - {b})
    ensures Summed(disk1, addrs[NDIRECT := p], blk + [b])
    ensures Data(disk1, blk + [b]) == Data(disk, blk) + [Zero()]
  {
    var addrs1 := addrs[NDIRECT := p];
    forall j: nat | j < NINDIRECT ensures Word(Zero(), j) == 0 { ZeroWords(j); }
    forall k: nat | k < MAXFILE
      ensures Ptr(disk1, addrs1, k) == if k == |blk| then b else Ptr(disk, addrs, k)
    {
      FreshIndirectPtr(disk, addrs, p, disk1[p], b, k);
    }
    Appended(disk, addrs, blk, free, b, disk1, addrs1, free - {p} - {b});
  }

  lemma AppendIndirect(disk: seq<Block>, addrs: seq<nat>, blk: seq<nat>, free: set<nat>, b: nat, disk1: seq<Block>)
    requires Laid(disk, addrs, blk, free) && Summed(disk, addrs, blk) && b in free
    requires NDIRECT < |blk| < MAXFILE
    requires disk1 == disk[addrs[NDIRECT] := PutWord(disk[addrs[NDIRECT]], |blk| - NDIRECT, b)]
    ensures Laid(disk1, addrs, blk + [b], free - {b}) && Summed(disk1, addrs, blk + [b])
    ensures Data(disk1, blk + [b]) == Data(disk, blk) + [Zero()]
  {
    forall k: nat | k < MAXFILE
      ensures Ptr(disk1, addrs, k) == if k == |blk| then b else Ptr(disk, addrs, k)
    {
    }
    Appended(disk, addrs, blk, free, b, disk1, addrs, free - {b});
  }

  lemma DirectOf(disk: seq<Block>, addrs: seq<nat>, blk: seq<nat>, free: set<nat>, bn: nat)
    requires Laid(disk, addrs, blk, free) && bn <= |blk| && bn < NDIRECT
    ensures if bn < |blk| then addrs[bn] != 0 && addrs[bn] % LOW == blk[bn] else addrs[bn] == 0
  {
    assert Ptr(disk, addrs, bn) == addrs[bn];
  }

  /** What the words say about block bn of the file, or about the first one after its end. */
  lemma EntryOf(disk: seq<Block>, addrs: seq<nat>, blk: seq<nat>, free: set<nat>, bn: nat, p: nat) returns (w: nat)
    requires Laid(disk, addrs, blk, free) && bn <= |blk| && NDIRECT <= bn < MAXFILE
    requires if addrs[NDIRECT] == 0 then p in free else p == addrs[NDIRECT]
    ensures p < |disk| && w == Word(disk[p], bn - NDIRECT)
    ensures bn < |blk| ==> addrs[NDIRECT] != 0 && w != 0 && w % LOW == blk[bn]
    ensures bn == |blk| ==> w == 0 && (addrs[NDIRECT] == 0 <==> bn == NDIRECT)
    ensures addrs[NDIRECT] != 0 ==> free - {p} == free
    ensures forall b: nat | b in free :: b < LOW
  {
    w := Word(disk[p], bn - NDIRECT);
    if addrs[NDIRECT] == 0 {
      ZeroWords(bn - NDIRECT);
    } else if bn < |blk| {
      assert Ptr(disk, addrs, bn) % LOW == blk[bn];
    } else {
      assert Ptr(disk, addrs, bn) == 0;
    }
  }

  /** bmap has stored b behind the last block, in the indirect block p. */
  /** The file after its entry has been found or allocated. */
  lemma EntryDone(disk: seq<Block>, addrs: seq<nat>, blk: seq<nat>, free: set<nat>, bn: nat, p: nat, w: nat,
                  r: Option<nat>,
                  disk1: seq<Block>, addrs1: seq<nat>, free1: set<nat>)
    requires Laid(disk, addrs, blk, free) && NDIRECT <= bn <= |blk| && bn < MAXFILE
             && (bn == |blk| ==> Summed(disk, addrs, blk))
    requires if addrs[NDIRECT] == 0 then p in free && addrs1 == addrs[NDIRECT := p]
             else p == addrs[NDIRECT] && addrs1 == addrs
    requires p < |disk| && (bn < |blk| ==> w != 0 && w % LOW == blk[bn] && addrs[NDIRECT] != 0)
             && (bn == |blk| ==> w == 0)
    requires w != 0 ==> r == Some(w) && disk1 == disk && free1 == free - {p}
    requires w == 0 ==> (r.None? <==> |free - {p}| == 0)
    requires w == 0 && r.Some? ==>
               && r.value in free - {p} && free1 == free - {p} - {r.value} && r.value < LOW
               && disk1 == disk[p := PutWord(disk[p], bn - NDIRECT, r.value)]
    ensures r.Some? <==> Need(|blk|, bn) <= |free|
    ensures bn < |blk| ==> r.Some? && r.value % LOW == blk[bn] && Laid(disk1, addrs1, blk, free1) && |free1| == |free|
    ensures bn == |blk| && r.Some? ==>
              && r.value % LOW == r.value && Laid(disk1, addrs1, blk + [r.value], free1)
                 && Summed(disk1, addrs1, blk + [r.value])
              && Data(disk1, blk + [r.value]) == Data(disk, blk) + [Zero()] && |free1| == |free| - Need(|blk|, bn)
  {
    assert addrs[NDIRECT] != 0 ==> free - {p} == free;
    if bn == |blk| && r.Some? { Grown(disk, addrs, blk, free, p, r.value, disk1, addrs1, free1); }
  }

  lemma Grown(disk: seq<Block>, addrs: seq<nat>, blk: seq<nat>, free: set<nat>, p: nat, b: nat,
              disk1: seq<Block>, addrs1: seq<nat>, free1: set<nat>)
    requires Laid(disk, addrs, blk, free) && Summed(disk, addrs, blk) && NDIRECT <= |blk| < MAXFILE
    requires if addrs[NDIRECT] == 0 then p in free && addrs1 == addrs[NDIRECT := p]
             else p == addrs[NDIRECT] && addrs1 == addrs
    requires b in free - {p} && free1 == free - {p} - {b}
    requires p < |disk| && b < UINT && disk1 == disk[p := PutWord(disk[p], |blk| - NDIRECT, b)]
    ensures Laid(disk1, addrs1, blk + [b], free1) && Summed(disk1, addrs1, blk + [b])
    ensures Data(disk1, blk + [b]) == Data(disk, blk) + [Zero()]
    ensures |free1| == |free| - Need(|blk|, |blk|)
  {
    if addrs[NDIRECT] == 0 {
      AppendFirstIndirect(disk, addrs, blk, free, p, b, disk1);
    } else {
      AppendIndirect(disk, addrs, blk, free, b, disk1);
      assert free - {p} == free;
    }
  }

  /** Blocks bmap has to allocate for file block bn. */
  function Need(have: nat, bn: nat): nat {
    if bn < have then 0 else if bn == NDIRECT then 2 else 1
  }

  // ----- writei stores a block and its checksum

  lemma StoreDirect(disk: seq<Block>, addrs: seq<nat>, blk: seq<nat>, free: set<nat>, k: nat, nb: Block)
    requires Laid(disk, addrs, blk, free) && Summed(disk, addrs, blk) && k < |blk| && k < NDIRECT
    ensures var disk1, addrs1 := disk[blk[k] := nb], addrs[k := WithSum(addrs[k], Sum(nb))];
            && Laid(disk1, addrs1, blk, free) && Summed(disk1, addrs1, blk)
            && Data(disk1, blk) == Data(disk, blk)[k := nb]
  {
    var disk1, addrs1 := disk[blk[k] := nb], addrs[k := WithSum(addrs[k], Sum(nb))];
    forall j: nat | j < MAXFILE
      ensures Ptr(disk1, addrs1, j) == if j == k then addrs1[k] else Ptr(disk, addrs, j)
    {
    }
  }

  lemma StoreIndirect(disk: seq<Block>, addrs: seq<nat>, blk: seq<nat>, free: set<nat>, k: nat, nb: Block,
                      disk1: seq<Block>)
    requires Laid(disk, addrs, blk, free) && Summed(disk, addrs, blk) && NDIRECT <= k < |blk|
    requires var p := addrs[NDIRECT];
             disk1 == disk[p := PutWord(disk[p], k - NDIRECT, WithSum(Word(disk[p], k - NDIRECT), Sum(nb)))][blk[k] :=
                       nb]
    ensures Laid(disk1, addrs, blk, free) && Summed(disk1, addrs, blk)
    ensures Data(disk1, blk) == Data(disk, blk)[k := nb]
  {
    var w := WithSum(Ptr(disk, addrs, k), Sum(nb));
    forall j: nat | j < MAXFILE
      ensures Ptr(disk1, addrs, j) == if j == k then w else Ptr(disk, addrs, j)
    {
    }
  }

  // ----- The file's bytes

  /** Byte o of the blocks d; zero past their end. */
  function ByteOf(d: seq<Block>, o: nat): Byte {
    if o / BSIZE < |d| then d[o / BSIZE][o % BSIZE] else 0
  }

  function Bytes(d: seq<Block>, len: nat): (s: seq<Byte>)
    ensures |s| == len
  {
    seq(len, (o: nat) => ByteOf(d, o))
  }

  /** Just enough blocks for len bytes, and nothing but zeros after them. */
  ghost predicate Fits(d: seq<Block>, len: nat) {
    && len <= MAXFILE * BSIZE
    && len <= |d| * BSIZE < len + BSIZE
    && forall o: nat {:trigger ByteOf(d, o)} | len <= o :: ByteOf(d, o) == 0
  }

  /** Bytes off .. off + n come from src, all others are those of d0. */
  ghost predicate Overlaid(d0: seq<Block>, d: seq<Block>, off: nat, src: seq<Byte>, n: nat)
    requires n <= |src|
  {
    forall o: nat {:trigger ByteOf(d, o)} :: ByteOf(d, o) == if off <= o < off + n then src[o - off] else ByteOf(d0, o)
  }

  lemma AppendZero(d: seq<Block>, o: nat)
    ensures ByteOf(d + [Zero()], o) == ByteOf(d, o)
  {
  }

  lemma SpliceByte(d: seq<Block>, pos: nat, piece: seq<Byte>, o: nat)
    requires pos / BSIZE < |d| && pos % BSIZE + |piece| <= BSIZE
    ensures ByteOf(d[pos / BSIZE := FS.Splice(d[pos / BSIZE], pos % BSIZE, piece)], o)
         == if pos <= o < pos + |piece| then piece[o - pos] else ByteOf(d, o)
  {
    if o / BSIZE == pos / BSIZE {
      assert o - pos == o % BSIZE - pos % BSIZE;
      FS.SpliceAt(d[pos / BSIZE], pos % BSIZE, piece, o % BSIZE);
    }
  }

  lemma OverlaidBytes(d0: seq<Block>, d: seq<Block>, len: nat, off: nat, src: seq<Byte>)
    requires off <= len && Overlaid(d0, d, off, src, |src|)
    ensures Bytes(d, FS.Reach(len, off + |src|)) == FS.Overwrite(Bytes(d0, len), off, src)
  {
    forall o: nat | o < FS.Reach(len, off + |src|)
      ensures Bytes(d, FS.Reach(len, off + |src|))[o] == FS.Overwrite(Bytes(d0, len), off, src)[o]
    {
      FS.OverwriteAt(Bytes(d0, len), off, src, o);
      assert ByteOf(d, o) == if off <= o < off + |src| then src[o - off] else ByteOf(d0, o);
    }
  }

  // ----- Corruption

  /** readi compares the checksum of every block it touches. */
  ghost predicate Mismatch(disk: seq<Block>, addrs: seq<nat>, blk: seq<nat>, k: nat)
    requires |addrs| == NDIRECT + 1
  {
    k < |blk| && blk[k] < |disk| && Ptr(disk, addrs, k) / LOW != Sum(disk[blk[k]])
  }

  lemma SummedNoMismatch(disk: seq<Block>, addrs: seq<nat>, blk: seq<nat>, k: nat)
    requires |addrs| == NDIRECT + 1 && Summed(disk, addrs, blk)
    ensures !Mismatch(disk, addrs, blk, k)
  {
  }

  /** One changed byte of a data block is noticed, and the pointers are not affected by it. */
  lemma CorruptionNoticed(disk: seq<Block>, addrs: seq<nat>, blk: seq<nat>, free: set<nat>, k: nat, j: nat, v: Byte)
    requires Laid(disk, addrs, blk, free) && Summed(disk, addrs, blk)
    requires k < |blk| && j < BSIZE && v != disk[blk[k]][j]
    ensures var disk1 := disk[blk[k] := disk[blk[k]][j := v]];
            && Laid(disk1, addrs, blk, free)
            && forall i: nat :: Mismatch(disk1, addrs, blk, i) <==> i == k
  {
    var disk1 := disk[blk[k] := disk[blk[k]][j := v]];
    OneByteDetected(disk[blk[k]], j, v);
    assert forall i: nat | i < MAXFILE :: Ptr(disk1, addrs, i) == Ptr(disk, addrs, i);
  }

  // ----- stati: the checksum of the whole file

  /** The exclusive or of the top bytes of the first n pointers. */
  function Tops(disk: seq<Block>, addrs: seq<nat>, n: nat): nat
    requires |addrs| == NDIRECT + 1
  {
    if n == 0 then 0 else XorOf(Tops(disk, addrs, n - 1), Ptr(disk, addrs, n - 1) / LOW)
  }

  function Flat(d: seq<Block>): (s: seq<Byte>)
    ensures |s| == |d| * BSIZE
  {
    if d == [] then [] else Flat(d[..|d| - 1]) + d[|d| - 1]
  }

  lemma {:induction false} FlatByte(d: seq<Block>, o: nat)
    requires o < |d| * BSIZE
    ensures Flat(d)[o] == ByteOf(d, o)
  {
    var n := |d| - 1;
    if o < n * BSIZE {
      FlatByte(d[..n], o);
    } else {
      assert o / BSIZE == n && o % BSIZE == o - n * BSIZE;
    }
  }

  lemma {:induction false} TopsAreSums(disk: seq<Block>, addrs: seq<nat>, blk: seq<nat>, free: set<nat>, n: nat)
    requires Laid(disk, addrs, blk, free) && Summed(disk, addrs, blk) && n <= |blk|
    ensures Tops(disk, addrs, n) == Sum(Flat(Data(disk, blk)[..n]))
  {
    if n > 0 {
      TopsAreSums(disk, addrs, blk, free, n - 1);
      var d := Data(disk, blk);
      assert d[..n][..n - 1] == d[..n - 1];
      SumAppend(Flat(d[..n - 1]), d[n - 1]);
      assert Ptr(disk, addrs, n - 1) / LOW == Sum(disk[blk[n - 1]]);
    }
  }

  lemma {:induction false} TopsPastEnd(disk: seq<Block>, addrs: seq<nat>, blk: seq<nat>, free: set<nat>, n: nat)
    requires Laid(disk, addrs, blk, free) && |blk| <= n <= MAXFILE
    ensures Tops(disk, addrs, n) == Tops(disk, addrs, |blk|)
  {
    if n > |blk| {
      TopsPastEnd(disk, addrs, blk, free, n - 1);
      assert Ptr(disk, addrs, n - 1) == 0;
      XorZero(Tops(disk, addrs, n - 1));
    }
  }

  /** The bytes after the end of the file are zero, so they do not matter. */
  lemma FlatSum(d: seq<Block>, size: nat)
    requires Fits(d, size)
    ensures Sum(Flat(d)) == Sum(Bytes(d, size))
  {
    var bytes, rest := Flat(d)[..size], Flat(d)[size..];
    forall o: nat | o < |d| * BSIZE ensures Flat(d)[o] == ByteOf(d, o) { FlatByte(d, o); }
    assert bytes == Bytes(d, size);
    SumZeros(rest);
    SumAppend(bytes, rest);
    assert Flat(d) == bytes + rest;
    XorZero(Sum(bytes));
  }

  /** All pointers' top bytes together are the checksum of the bytes of the file. */
  lemma TopsAreFileSum(disk: seq<Block>, addrs: seq<nat>, blk: seq<nat>, free: set<nat>, size: nat)
    requires Laid(disk, addrs, blk, free) && Summed(disk, addrs, blk) && Fits(Data(disk, blk), size)
    ensures Tops(disk, addrs, MAXFILE) == Sum(Bytes(Data(disk, blk), size))
  {
    var d := Data(disk, blk);
    TopsPastEnd(disk, addrs, blk, free, MAXFILE);
    TopsAreSums(disk, addrs, blk, free, |blk|);
    assert d[..|blk|] == d;
    FlatSum(d, size);
  }

  // ----- The copying loops

  lemma NeedForPiece(have: nat, size: nat, pos: nat, m: nat)
    requires size <= MAXFILE * BSIZE && pos + m <= MAXFILE * BSIZE && 0 < m <= BSIZE - pos % BSIZE
    requires FS.Reach(size, pos) <= have * BSIZE < FS.Reach(size, pos) + BSIZE
    ensures pos / BSIZE <= have && pos / BSIZE < MAXFILE
    ensures FS.Extra(size, pos + m) == FS.Extra(size, pos) + Need(have, pos / BSIZE)
    ensures var more := if pos / BSIZE < have then have else have + 1;
            FS.Reach(size, pos + m) <= more * BSIZE < FS.Reach(size, pos + m) + BSIZE
  {
  }

  /** A piece of src has gone into block pos / BSIZE of the file, which may be a new one. */
  ghost predicate PieceStored(d: seq<Block>, d1: seq<Block>, pos: nat, piece: seq<Byte>) {
    && pos % BSIZE + |piece| <= BSIZE && pos / BSIZE <= |d|
    && var more := if pos / BSIZE < |d| then d else d + [Zero()];
       d1 == more[pos / BSIZE := FS.Splice(more[pos / BSIZE], pos % BSIZE, piece)]
  }

  lemma PieceStoredByte(d: seq<Block>, d1: seq<Block>, pos: nat, piece: seq<Byte>, o: nat)
    requires PieceStored(d, d1, pos, piece)
    ensures ByteOf(d1, o) == if pos <= o < pos + |piece| then piece[o - pos] else ByteOf(d, o)
  {
    AppendZero(d, o);
    SpliceByte(if pos / BSIZE < |d| then d else d + [Zero()], pos, piece, o);
  }

  lemma OverlaidStep(d0: seq<Block>, d: seq<Block>, d1: seq<Block>, off: nat, src: seq<Byte>, n: nat, n1: nat, pos: nat)
    requires n <= n1 <= |src| && pos == off + n && Overlaid(d0, d, off, src, n) && PieceStored(d, d1, pos, src[n..n1])
    ensures Overlaid(d0, d1, off, src, n1)
  {
    forall o: nat
      ensures ByteOf(d1, o) == if off <= o < off + n1 then src[o - off] else ByteOf(d0, o)
    {
      PieceStoredByte(d, d1, pos, src[n..n1], o);
      assert ByteOf(d, o) == if off <= o < off + n then src[o - off] else ByteOf(d0, o);
    }
  }

  lemma FitsStep(d: seq<Block>, d1: seq<Block>, size: nat, pos: nat, pos1: nat, piece: seq<Byte>)
    requires size <= MAXFILE * BSIZE && Fits(d, FS.Reach(size, pos)) && PieceStored(d, d1, pos, piece)
    requires |piece| > 0 && pos1 == pos + |piece| <= MAXFILE * BSIZE
    ensures Fits(d1, FS.Reach(size, pos1))
  {
    NeedForPiece(|d|, size, pos, |piece|);
    forall o: nat | FS.Reach(size, pos1) <= o
      ensures ByteOf(d1, o) == 0
    {
      PieceStoredByte(d, d1, pos, piece, o);
      assert ByteOf(d, o) == 0;
    }
  }

  /** readi or writei of n bytes from off on goes through block k. */
  predicate Touched(off: nat, n: nat, k: nat) {
    n > 0 && off / BSIZE <= k <= (off + n - 1) / BSIZE
  }

  lemma TouchedStep(off: nat, tot: nat, m: nat, pos: nat, k: nat)
    requires pos == off + tot && 0 < m <= BSIZE - pos % BSIZE
    ensures Touched(off, tot + m, k) <==> Touched(off, tot, k) || k == pos / BSIZE
  {
  }

  /** No block of that part of the file disagrees with its checksum. */
  ghost predicate Clean(disk: seq<Block>, addrs: seq<nat>, blk: seq<nat>, off: nat, n: nat)
    requires |addrs| == NDIRECT + 1
  {
    forall k: nat {:trigger Touched(off, n, k)} | Touched(off, n, k) :: !Mismatch(disk, addrs, blk, k)
  }

  lemma CleanStep(disk: seq<Block>, addrs: seq<nat>, blk: seq<nat>, off: nat, tot: nat, tot1: nat, pos: nat, n: nat)
    requires |addrs| == NDIRECT + 1 && pos == off + tot && 0 < tot1 - tot <= BSIZE - pos % BSIZE && tot1 <= n
    requires Clean(disk, addrs, blk, off, tot)
    ensures if Mismatch(disk, addrs, blk, pos / BSIZE) then !Clean(disk, addrs, blk, off, n)
            else Clean(disk, addrs, blk, off, tot1)
  {
    assert Touched(off, n, pos / BSIZE);
    forall k: nat | Touched(off, tot1, k)
      ensures Touched(off, tot, k) || k == pos / BSIZE
    {
      TouchedStep(off, tot, tot1 - tot, pos, k);
    }
  }

  lemma PieceRead(d: seq<Block>, size: nat, pos: nat, m: nat)
    requires pos + m <= size <= |d| * BSIZE && 0 < m <= BSIZE - pos % BSIZE
    ensures pos / BSIZE < |d|
    ensures d[pos / BSIZE][pos % BSIZE..pos % BSIZE + m] == Bytes(d, size)[pos..pos + m]
  {
    forall j: nat {:trigger Bytes(d, size)[pos + j]} | j < m
        ensures Bytes(d, size)[pos + j] == d[pos / BSIZE][pos % BSIZE + j] {
      FS.StaysInBlock(pos, j);
    }
  }

  /** A read that keeps away from block k does not see a change of it. */
  lemma ElsewhereSame(d: seq<Block>, d1: seq<Block>, k: nat, size: nat, off: nat, n: nat)
    requires |d1| == |d| && (forall i: nat | i < |d| && i != k :: d1[i] == d[i])
    requires off + n <= size && !Touched(off, n, k)
    ensures Bytes(d1, size)[off..off + n] == Bytes(d, size)[off..off + n]
  {
  }

  /** stati's second loop; without indirect block it reads block 0, which is zero. */
  lemma IndirectTop(disk: seq<Block>, addrs: seq<nat>, blk: seq<nat>, free: set<nat>, direct: nat, part: nat, j: nat)
    requires Laid(disk, addrs, blk, free) && j < NINDIRECT
    requires XorOf(direct, part) == Tops(disk, addrs, NDIRECT + j)
    ensures XorOf(direct, XorOf(part, Word(disk[addrs[NDIRECT]], j) / LOW)) == Tops(disk, addrs, NDIRECT + (j + 1))
  {
    ZeroWords(j);
    var k := NDIRECT + j;
    assert Ptr(disk, addrs, k) == Word(disk[addrs[NDIRECT]], j);
    XorAssoc(direct, part, Ptr(disk, addrs, k) / LOW);
  }

  /** An in-core T_CHECKED inode, the disk it lives on, and the free blocks. */
  class CheckedFile {
    var disk: seq<Block>
    var addrs: seq<nat>
    var size: nat
    var free: set<nat>
    ghost var blk: seq<nat>

    /** A file as create leaves it. */
    constructor (disk0: seq<Block>, free0: set<nat>)
      requires |disk0| > 0 && disk0[0] == Zero()
      requires forall b: nat | b in free0 :: 0 < b < |disk0| && b < LOW && disk0[b] == Zero()
      ensures Valid() && Contents() == [] && disk == disk0 && free == free0
    {
      disk, addrs, size, free, blk := disk0, seq(NDIRECT + 1, _ => 0), 0, free0, [];
    }

    /** Every byte of the file has its block. */
    ghost predicate Mapped()
      reads this
    {
      Laid(disk, addrs, blk, free) && size <= |blk| * BSIZE
    }

    /** ... and every pointer carries the checksum of its block. */
    ghost predicate Valid()
      reads this
      ensures Valid() ==> Mapped()
    {
      Laid(disk, addrs, blk, free) && Summed(disk, addrs, blk) && Fits(Data(disk, blk), size)
    }

    ghost function Contents(): seq<Byte>
      reads this
    {
      Bytes(Data(disk, blk), size)
    }

    method BAlloc() returns (b: Option<nat>)
      modifies this`free
      ensures b.None? <==> |old(free)| == 0
      ensures b.None? ==> free == old(free)
      ensures b.Some? ==> b.value in old(free) && free == old(free) - {b.value} && |free| == |old(free)| - 1
    {
      if free == {} { return None; }
      var a := Choose(free);
      free := free - {a};
      b := Some(a);
    }

    /** bmap; only the first block after the last is ever allocated. */
    method BMap(bn: nat) returns (r: Option<nat>)
      requires Laid(disk, addrs, blk, free) && bn <= |blk| && bn < MAXFILE
      requires bn == |blk| ==> Summed(disk, addrs, blk)
      modifies this`disk, this`addrs, this`free, this`blk
      ensures r.Some? <==> Need(|old(blk)|, bn) <= |old(free)|
      ensures bn < |old(blk)| ==> disk == old(disk) && addrs == old(addrs) && free == old(free) && blk == old(blk)
      ensures r.Some? ==>
                && Laid(disk, addrs, blk, free) && bn < |blk| && r.value == blk[bn]
                && |free| == |old(free)| - Need(|old(blk)|, bn)
      ensures r.Some? && bn == |old(blk)| ==>
                && Summed(disk, addrs, blk) && blk == old(blk) + [r.value]
                && Data(disk, blk) == Data(old(disk), old(blk)) + [Zero()]
    {
      if bn < NDIRECT {
        r := BMapDirect(bn);
      } else {
        r := BMapIndirect(bn);
      }
    }

    method BMapDirect(bn: nat) returns (r: Option<nat>)
      requires Laid(disk, addrs, blk, free) && bn <= |blk| && bn < NDIRECT
      requires bn == |blk| ==> Summed(disk, addrs, blk)
      modifies this`addrs, this`free, this`blk
      ensures r.Some? <==> Need(|old(blk)|, bn) <= |old(free)|
      ensures bn < |old(blk)| ==> addrs == old(addrs) && free == old(free) && blk == old(blk)
      ensures r.Some? ==>
                && Laid(disk, addrs, blk, free) && bn < |blk| && r.value == blk[bn]
                && |free| == |old(free)| - Need(|old(blk)|, bn)
      ensures r.Some? && bn == |old(blk)| ==>
                && Summed(disk, addrs, blk) && blk == old(blk) + [r.value]
                && Data(disk, blk) == Data(old(disk), old(blk)) + [Zero()]
    {
      DirectOf(disk, addrs, blk, free, bn);
      var addr := addrs[bn];
      if addr == 0 {
        var b := BAlloc();
        if b.None? { return None; }
        AppendDirect(disk, addrs, blk, old(free), b.value);
        addr := b.value;
        addrs := addrs[bn := addr];
        blk := blk + [addr];
      }
      r := Some(addr % LOW);
    }

    /** Word j of the indirect block p, allocated if it is 0. */
    method Entry(p: nat, j: nat, ghost w: nat) returns (r: Option<nat>)
      requires p < |disk| && j < NINDIRECT && w == Word(disk[p], j) && forall b: nat | b in free :: b < LOW
      modifies this`disk, this`free
      ensures w != 0 ==> r == Some(w) && disk == old(disk) && free == old(free)
      ensures w == 0 ==> (r.None? <==> |old(free)| == 0)
      ensures w == 0 && r.Some? ==>
                && r.value in old(free) && free == old(free) - {r.value}
                && disk == old(disk)[p := PutWord(old(disk)[p], j, r.value)]
    {
      var addr := Word(disk[p], j);
      if addr != 0 { return Some(addr); }
      r := BAlloc();
      if r.Some? { disk := disk[p := PutWord(disk[p], j, r.value)]; }
    }

    /** The indirect block, allocated if there is none. */
    method IndirectPart() returns (r: Option<nat>)
      requires |addrs| == NDIRECT + 1
      modifies this`addrs, this`free
      ensures old(addrs)[NDIRECT] != 0 ==> r == Some(old(addrs)[NDIRECT]) && addrs == old(addrs) && free == old(free)
      ensures old(addrs)[NDIRECT] == 0 ==> (r.None? <==> |old(free)| == 0)
      ensures old(addrs)[NDIRECT] == 0 && r.Some? ==>
                && r.value in old(free) && free == old(free) - {r.value} && |free| == |old(free)| - 1
                && addrs == old(addrs)[NDIRECT := r.value]
    {
      if addrs[NDIRECT] != 0 { return Some(addrs[NDIRECT]); }
      r := BAlloc();
      if r.Some? { addrs := addrs[NDIRECT := r.value]; }
    }

    method BMapIndirect(bn: nat) returns (r: Option<nat>)
      requires Laid(disk, addrs, blk, free) && NDIRECT <= bn <= |blk| && bn < MAXFILE
      requires bn == |blk| ==> Summed(disk, addrs, blk)
      modifies this`disk, this`addrs, this`free, this`blk
      ensures r.Some? <==> Need(|old(blk)|, bn) <= |old(free)|
      ensures bn < |old(blk)| ==> disk == old(disk) && addrs == old(addrs) && free == old(free) && blk == old(blk)
      ensures r.Some? ==>
                && Laid(disk, addrs, blk, free) && bn < |blk| && r.value == blk[bn]
                && |free| == |old(free)| - Need(|old(blk)|, bn)
      ensures r.Some? && bn == |old(blk)| ==>
                && Summed(disk, addrs, blk) && blk == old(blk) + [r.value]
                && Data(disk, blk) == Data(old(disk), old(blk)) + [Zero()]
    {
      assert addrs[NDIRECT] == 0 ==> bn == |blk| == NDIRECT;
      var p := IndirectPart();
      if p.None? { return None; }
      r := BMapEntry(bn, p.value, old(addrs), old(free));
    }

    /** bmap once the indirect block p is there. */
    method BMapEntry(bn: nat, p: nat, ghost addrs0: seq<nat>, ghost free0: set<nat>) returns (r: Option<nat>)
      requires Laid(disk, addrs0, blk, free0) && NDIRECT <= bn <= |blk| && bn < MAXFILE
      requires bn == |blk| ==> Summed(disk, addrs0, blk)
      requires if addrs0[NDIRECT] == 0
               then p in free0 && addrs == addrs0[NDIRECT := p] && free == free0 - {p} && |free| == |free0| - 1
               else p == addrs0[NDIRECT] && addrs == addrs0 && free == free0
      modifies this`disk, this`free, this`blk
      ensures r.Some? <==> Need(|old(blk)|, bn) <= |free0|
      ensures bn < |old(blk)| ==> disk == old(disk) && free == free0 && blk == old(blk) && addrs == addrs0
      ensures r.Some? ==>
                && Laid(disk, addrs, blk, free) && bn < |blk| && r.value == blk[bn]
                && |free| == |free0| - Need(|old(blk)|, bn)
      ensures r.Some? && bn == |old(blk)| ==>
                && Summed(disk, addrs, blk) && blk == old(blk) + [r.value]
                && Data(disk, blk) == Data(old(disk), old(blk)) + [Zero()]
    {
      ghost var w := EntryOf(disk, addrs0, blk, free0, bn, p);
      r := Entry(p, bn - NDIRECT, w);
      EntryDone(old(disk), addrs0, blk, free0, bn, p, w, r, disk, addrs, free);
      if r.None? { return; }
      if bn == |blk| { blk := blk + [r.value]; }
      r := Some(r.value % LOW);
    }

    /** cache_sum */
    method Checksum(b: Block) returns (s: Byte)
      ensures s == Sum(b)
    {
      s := 0;
      for i := 0 to BSIZE
        invariant s == Sum(b[..i])
      {
        assert b[..i + 1][..i] == b[..i];
        SumInRange(s, b[i]);
        s := XorOf(s, b[i]);
      }
      assert b[..BSIZE] == b;
    }

    /** The pointer to block k gets a new checksum and the block its new contents. */
    method Store(k: nat, b: nat, nb: Block)
      requires Laid(disk, addrs, blk, free) && Summed(disk, addrs, blk) && k < |blk| && b == blk[k]
      modifies this`disk, this`addrs
      ensures Laid(disk, addrs, blk, free) && Summed(disk, addrs, blk)
      ensures Data(disk, blk) == Data(old(disk), blk)[k := nb]
    {
      var sum := Checksum(nb);
      if k < NDIRECT {
        StoreDirect(disk, addrs, blk, free, k, nb);
        addrs := addrs[k := WithSum(addrs[k], sum)];
        disk := disk[b := nb];
      } else {
        var p := addrs[NDIRECT];
        var temp := PutWord(disk[p], k - NDIRECT, WithSum(Word(disk[p], k - NDIRECT), sum));
        StoreIndirect(disk, addrs, blk, free, k, nb, disk[p := temp][blk[k] := nb]);
        disk := disk[p := temp];
        disk := disk[b := nb];
      }
    }

    /** One round of the copying loop of writei. */
    method WritePiece(pos: nat, piece: seq<Byte>) returns (ok: bool)
      requires Laid(disk, addrs, blk, free) && Summed(disk, addrs, blk)
      requires pos / BSIZE <= |blk| && pos / BSIZE < MAXFILE && pos % BSIZE + |piece| <= BSIZE
      modifies this`disk, this`addrs, this`free, this`blk
      ensures ok <==> Need(|old(blk)|, pos / BSIZE) <= |old(free)|
      ensures ok ==>
                && Laid(disk, addrs, blk, free) && Summed(disk, addrs, blk)
                && PieceStored(Data(old(disk), old(blk)), Data(disk, blk), pos, piece)
                && |free| == |old(free)| - Need(|old(blk)|, pos / BSIZE)
    {
      var r := BMap(pos / BSIZE);
      if r.None? { return false; }
      Store(pos / BSIZE, r.value, FS.Splice(disk[r.value], pos % BSIZE, piece));
      ok := true;
    }

    /** The copying loop of writei after tot bytes. */
    ghost predicate Copied(d0: seq<Block>, free0: nat, off: nat, src: seq<Byte>, tot: nat, pos: nat)
      requires tot <= |src|
      reads this
    {
      && Laid(disk, addrs, blk, free) && Summed(disk, addrs, blk)
      && Fits(Data(disk, blk), FS.Reach(size, pos)) && Overlaid(d0, Data(disk, blk), off, src, tot)
      && pos == off + tot && |free| == free0 - FS.Extra(size, pos)
    }

    method CopyRound(ghost d0: seq<Block>, ghost free0: nat, ghost off: nat, src: seq<Byte>, tot: nat, pos: nat)
      returns (ok: bool, tot1: nat, pos1: nat)
      requires tot < |src| && off + |src| <= MAXFILE * BSIZE && off <= size <= MAXFILE * BSIZE
               && Copied(d0, free0, off, src, tot, pos)
      modifies this`disk, this`addrs, this`free, this`blk
      ensures tot < tot1 <= |src| && pos1 == off + tot1
      ensures ok <==> FS.Extra(size, pos1) <= free0
      ensures ok ==> Copied(d0, free0, off, src, tot1, pos1)
    {
      var m := FS.PieceLen(pos, |src| - tot);
      tot1, pos1 := tot + m, pos + m;
      NeedForPiece(|blk|, size, pos, m);
      ok := WritePiece(pos, src[tot..tot1]);
      if ok {
        OverlaidStep(d0, Data(old(disk), old(blk)), Data(disk, blk), off, src, tot, tot1, pos);
        FitsStep(Data(old(disk), old(blk)), Data(disk, blk), size, pos, pos1, src[tot..tot1]);
      }
    }

    method CopyIn(src: seq<Byte>, off: nat) returns (ok: bool)
      requires Valid() && off <= size && off + |src| <= MAXFILE * BSIZE
      modifies this`disk, this`addrs, this`free, this`blk
      ensures ok <==> FS.Extra(size, off + |src|) <= |old(free)|
      ensures ok ==> Copied(Data(old(disk), old(blk)), |old(free)|, off, src, |src|, off + |src|)
    {
      ghost var d0 := Data(disk, blk);
      var tot, pos := 0, off;
      while tot < |src|
        invariant tot <= |src| && pos == off + tot && Copied(d0, |old(free)|, off, src, tot, pos)
      {
        ok, tot, pos := CopyRound(d0, |old(free)|, off, src, tot, pos);
        FS.ExtraGrows(size, pos, off + |src|);
        if !ok { return; }
      }
      ok := true;
    }

    /** writei; ok is false when there is no free block, which is a panic. */
    method WriteI(src: seq<Byte>, off: nat) returns (ok: bool, r: int)
      requires Valid() && off < UINT && |src| < UINT
      modifies this`disk, this`addrs, this`size, this`free, this`blk
      ensures off > old(size) || off + |src| >= UINT ==>
                && ok && r == -1 && Valid() && disk == old(disk) && addrs == old(addrs) && size == old(size)
                && free == old(free) && blk == old(blk)
      ensures off <= old(size) && off + |src| < UINT ==>
                var n := FS.Clamped(off, |src|);
                && (ok <==> FS.Extra(old(size), off + n) <= |old(free)|)
                && (ok ==>
                      && Valid() && r == n && Contents() == FS.Overwrite(old(Contents()), off, src[..n])
                      && |free| == |old(free)| - FS.Extra(old(size), off + n))
    {
      if off > size || FS.Wraps(off, |src|) { return true, -1; }
      var n := |src|;
      if off + n > MAXFILE * BSIZE { n := MAXFILE * BSIZE - off; }
      ok := CopyIn(src[..n], off);
      if !ok { return false, 0; }
      OverlaidBytes(Data(old(disk), old(blk)), Data(disk, blk), size, off, src[..n]);
      if n > 0 && off + n > size { size := off + n; }
      r := n;
    }

    /** The checksum that goes with block k, read from where writei keeps it. */
    method Expected(k: nat) returns (s: nat)
      requires Laid(disk, addrs, blk, free) && k < |blk|
      ensures s == Ptr(disk, addrs, k) / LOW
    {
      assert blk[k] != 0;
      if k < NDIRECT {
        s := addrs[k] / LOW;
      } else {
        s := Word(disk[addrs[NDIRECT]], k - NDIRECT) / LOW;
      }
    }

    /** One round of readi: the bytes, or nothing when the checksum is wrong. */
    method ReadPiece(pos: nat, m: nat) returns (piece: Option<seq<Byte>>)
      requires Mapped() && pos + m <= size && 0 < m <= BSIZE - pos % BSIZE
      modifies this`disk, this`addrs, this`free, this`blk
      ensures disk == old(disk) && addrs == old(addrs) && free == old(free) && blk == old(blk)
      ensures piece.None? <==> Mismatch(disk, addrs, blk, pos / BSIZE)
      ensures piece.Some? ==> piece.value == Contents()[pos..pos + m]
    {
      PieceRead(Data(disk, blk), size, pos, m);
      var a := BMap(pos / BSIZE);
      var want := Expected(pos / BSIZE);
      var got := Checksum(disk[a.value]);
      if got != want { return None; }
      piece := Some(disk[a.value][pos % BSIZE..pos % BSIZE + m]);
    }

    /** The copying loop of readi; it stops at the first block that disagrees with its checksum. */
    method CopyOut(off: nat, n: nat) returns (dst: seq<Byte>, ok: bool)
      requires Mapped() && off + n <= size
      modifies this`disk, this`addrs, this`free, this`blk
      ensures disk == old(disk) && addrs == old(addrs) && free == old(free) && blk == old(blk)
      ensures ok <==> Clean(disk, addrs, blk, off, n)
      ensures ok ==> dst == Contents()[off..off + n]
    {
      dst := [];
      ghost var whole := Contents();
      var tot, pos := 0, off;
      while tot < n
        invariant tot <= n && pos == off + tot
        invariant disk == old(disk) && addrs == old(addrs) && free == old(free) && blk == old(blk)
        invariant dst == whole[off..pos]
        invariant Clean(disk, addrs, blk, off, tot)
      {
        var m := FS.PieceLen(pos, n - tot);
        ghost var tot1, pos1 := tot + m, pos + m;
        CleanStep(disk, addrs, blk, off, tot, tot1, pos, n);
        var piece := ReadPiece(pos, m);
        if piece.None? { return dst, false; }
        FS.Glue(whole, off, pos, pos1);
        dst := dst + piece.value;
        tot, pos := tot + m, pos + m;
      }
      ok := true;
    }

    /** readi: it fails exactly when one of the blocks it goes through disagrees with its checksum. */
    method ReadI(off: nat, n0: nat) returns (dst: seq<Byte>, r: int)
      requires Mapped() && off < UINT && n0 < UINT
      modifies this`disk, this`addrs, this`free, this`blk
      ensures disk == old(disk) && addrs == old(addrs) && free == old(free) && blk == old(blk)
      ensures off > size || off + n0 >= UINT ==> r == -1
      ensures off <= size && off + n0 < UINT ==>
                var n := if off + n0 <= size then n0 else size - off;
                && (r == -1 <==> !Clean(disk, addrs, blk, off, n))
                && (r != -1 ==> r == n && dst == Contents()[off..off + n])
    {
      var n := n0;
      if off > size || FS.Wraps(off, n) { return [], -1; }
      if off + n > size { n := size - off; }
      var ok: bool;
      dst, ok := CopyOut(off, n);
      r := if ok then n else -1;
    }

    /** What was written can be read. */
    method ReadValid(off: nat, n0: nat) returns (dst: seq<Byte>, r: int)
      requires Valid() && off <= size && off + n0 < UINT
      modifies this`disk, this`addrs, this`free, this`blk
      ensures Valid() && Contents() == old(Contents())
      ensures r == (if off + n0 <= size then n0 else size - off) && dst == Contents()[off..off + r]
    {
      forall k: nat | Touched(off, if off + n0 <= size then n0 else size - off, k)
          ensures !Mismatch(disk, addrs, blk, k) {
        SummedNoMismatch(disk, addrs, blk, k);
      }
      dst, r := ReadI(off, n0);
    }

    /** When byte j of block k changes behind the kernel's back, exactly the reads that
        go through block k fail. */
    method ReadCorrupted(k: nat, a: nat, j: nat, v: Byte, off: nat, n0: nat) returns (dst: seq<Byte>, r: int)
      requires Valid() && k < |blk| && a == blk[k] && j < BSIZE && v != disk[a][j]
      requires off <= size && off + n0 < UINT
      modifies this`disk, this`addrs, this`free, this`blk
      ensures var n := if off + n0 <= size then n0 else size - off;
              && (r == -1 <==> Touched(off, n, k))
              && (r != -1 ==> r == n && dst == old(Contents())[off..off + n])
    {
      ghost var n := if off + n0 <= size then n0 else size - off;
      CorruptionNoticed(disk, addrs, blk, free, k, j, v);
      disk := disk[a := disk[a][j := v]];
      if !Touched(off, n, k) { ElsewhereSame(Data(old(disk), blk), Data(disk, blk), k, size, off, n); }
      dst, r := ReadI(off, n0);
      assert Mismatch(disk, addrs, blk, k);
    }

    /** The checksum stati reports is that of all bytes of the file. */
    method Stati() returns (checksum: nat)
      requires Valid()
      ensures checksum == Sum(Contents())
    {
      TopsAreFileSum(disk, addrs, blk, free, size);
      checksum := 0;
      for i := 0 to NDIRECT
        invariant checksum == Tops(disk, addrs, i)
      {
        checksum := XorOf(checksum, addrs[i] / LOW);
      }
      var part := 0;
      XorZero(checksum);
      for j := 0 to NINDIRECT
        invariant XorOf(checksum, part) == Tops(disk, addrs, NDIRECT + j)
      {
        IndirectTop(disk, addrs, blk, free, checksum, part, j);
        part := XorOf(part, Word(disk[addrs[NDIRECT]], j) / LOW);
      }
      checksum := XorOf(checksum, part);
    }
  }
}
