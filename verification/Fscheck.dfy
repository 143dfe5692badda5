/** The block phases of the image checker, p5/linux/fscheck.c: types of inodes, addresses of
    their blocks, and the bitmap, which it reads as 32-bit words. */
module Fscheck {

  import opened Blocks
  import opened Image
  import FS = FileSystem

  datatype Super = Super(size: nat, nblocks: nat, ninodes: nat)

  datatype Verdict = Good | BadInode | BadAddress | MarkedFree | UsedTwice | MarkedInUse

  function SuperOf(disk: seq<Block>): Super
    requires |disk| > 1
  {
    Super(Word(disk[1], 0), Word(disk[1], 1), Word(disk[1], 2))
  }

  /** b_start: where fscheck expects the data blocks. */
  function BStart(sb: Super): nat {
    2 + (sb.ninodes / IPB + 1) + (sb.nblocks / BPB + 1)
  }

  /** The superblock fscheck can work with: the data region ends where the image does. */
  ghost predicate Sized(disk: seq<Block>) {
    && |disk| > 1
    && var sb := SuperOf(disk);
       sb.size == BStart(sb) + sb.nblocks && sb.size <= |disk| && FS.BitmapBlock(sb.ninodes, sb.size) < |disk|
  }

  // ----- What a sound image is

  /** Slot s of an inode in use holds a block. */
  predicate Holds(disk: seq<Block>, nodes: seq<FS.Inode>, s: FS.Slot) {
    FS.IsSlot(|nodes|, s) && nodes[s.i].kind != 0 && FS.Addr(disk, nodes, s) != 0
  }

  predicate InData(sb: Super, a: nat) {
    BStart(sb) <= a < sb.size
  }

  ghost predicate KindsKnown(nodes: seq<FS.Inode>) {
    forall i: nat {:trigger nodes[i]} | i < |nodes| :: 0 <= nodes[i].kind <= FS.T_DEV
  }

  ghost predicate AddressesInData(sb: Super, disk: seq<Block>, nodes: seq<FS.Inode>) {
    forall s: FS.Slot {:trigger FS.Addr(disk, nodes, s)} | Holds(disk, nodes, s) :: InData(sb, FS.Addr(disk, nodes, s))
  }

  ghost predicate AddressesMarked(sb: Super, disk: seq<Block>, nodes: seq<FS.Inode>) {
    forall s: FS.Slot {:trigger FS.Addr(disk, nodes, s)} | Holds(disk, nodes, s)
        && InData(sb, FS.Addr(disk, nodes, s)) ::
      FS.Bit(sb.ninodes, disk, FS.Addr(disk, nodes, s))
  }

  ghost predicate AddressesDistinct(disk: seq<Block>, nodes: seq<FS.Inode>) {
    forall s: FS.Slot, t: FS.Slot {:trigger FS.Addr(disk, nodes, s), FS.Addr(disk, nodes, t)} |
      Holds(disk, nodes, s) && Holds(disk, nodes, t) && FS.Addr(disk, nodes, s) == FS.Addr(disk, nodes, t) :: s == t
  }

  ghost predicate HeldBySome(disk: seq<Block>, nodes: seq<FS.Inode>, l: nat) {
    exists s: FS.Slot :: Holds(disk, nodes, s) && FS.Addr(disk, nodes, s) == l
  }

  ghost predicate MarksHeld(sb: Super, disk: seq<Block>, nodes: seq<FS.Inode>) {
    forall l: nat {:trigger FS.Bit(sb.ninodes, disk, l)} | InData(sb, l) && FS.Bit(sb.ninodes, disk, l) ::
        HeldBySome(disk, nodes, l)
  }

  ghost predicate Sound(disk: seq<Block>)
    requires Sized(disk)
  {
    var sb := SuperOf(disk);
    var nodes := Nodes(disk, sb.ninodes);
    && KindsKnown(nodes) && AddressesInData(sb, disk, nodes) && AddressesMarked(sb, disk, nodes)
    && AddressesDistinct(disk, nodes) && MarksHeld(sb, disk, nodes)
  }

  /** The condition that verdict r complains about does fail. */
  ghost predicate Explained(sb: Super, disk: seq<Block>, nodes: seq<FS.Inode>, r: Verdict) {
    match r
    case Good => true
    case BadInode => !KindsKnown(nodes)
    case BadAddress => !AddressesInData(sb, disk, nodes)
    case MarkedFree => !AddressesMarked(sb, disk, nodes)
    case UsedTwice => !AddressesDistinct(disk, nodes)
    case MarkedInUse => !MarksHeld(sb, disk, nodes)
  }

  // ----- The order of the scan

  function Rank(s: FS.Slot): nat {
    if s.Direct? then s.k else NDIRECT + 1 + s.j
  }

  predicate Before(s: FS.Slot, i: nat, n: nat) {
    s.i < i || (s.i == i && Rank(s) < n)
  }

  /** `seen` maps the addresses of all slots before (i, n) to these slots, and all of them passed. */
  ghost predicate Scanned(sb: Super, disk: seq<Block>, nodes: seq<FS.Inode>, seen: map<nat, FS.Slot>, i: nat, n: nat) {
    && (forall s: FS.Slot {:trigger FS.Addr(disk, nodes, s)} | Before(s, i, n) && Holds(disk, nodes, s) ::
          var a := FS.Addr(disk, nodes, s);
          InData(sb, a) && FS.Bit(sb.ninodes, disk, a) && a in seen && seen[a] == s)
    && (forall a: nat {:trigger a in seen} | a in seen ::
          Before(seen[a], i, n) && Holds(disk, nodes, seen[a]) && FS.Addr(disk, nodes, seen[a]) == a && InData(sb, a))
  }

  function Noted(seen: map<nat, FS.Slot>, a: nat, s: FS.Slot): map<nat, FS.Slot> {
    if a == 0 then seen else seen[a := s]
  }

  /** u_blocks says the same as `seen`. */
  ghost predicate Tallied(sb: Super, u: seq<nat>, seen: map<nat, FS.Slot>) {
    |u| == sb.nblocks && forall a: nat {:trigger a in seen} | InData(sb, a) && a - BStart(sb) < |u| ::
      u[a - BStart(sb)] == if a in seen then 1 else 0
  }

  /** The bit as fscheck finds it: bit a % 32 of the (a / 32)-th word from the first bitmap block on. */
  predicate WordMarked(sb: Super, disk: seq<Block>, a: nat)
    requires FS.BitmapBlock(sb.ninodes, a) < |disk|
  {
    var w := a / 32;
    HasBit(Word(disk[sb.ninodes / IPB + 3 + w / NINDIRECT], w % NINDIRECT), a % 32)
  }

  lemma Position(a: nat)
    ensures a / 32 / NINDIRECT == a / BPB && a / 32 % NINDIRECT == a % BPB / 32 && a % 32 == a % BPB % 32
  {
  }

  /** ... is the bit that the kernel's and mkfs's byte-wise view has there. */
  lemma SameBit(sb: Super, disk: seq<Block>, a: nat)
    requires FS.BitmapBlock(sb.ninodes, a) < |disk|
    ensures WordMarked(sb, disk, a) <==> FS.Bit(sb.ninodes, disk, a)
  {
    Position(a);
    WordBit(disk[FS.BitmapBlock(sb.ninodes, a)], a % BPB);
  }

  lemma BitmapInside(sb: Super, a: nat)
    requires a <= sb.size
    ensures FS.BitmapBlock(sb.ninodes, a) <= FS.BitmapBlock(sb.ninodes, sb.size)
  {
  }

  // ----- The checks

  /** Slot s, the one at (i, n), has passed: it holds nothing or a new block in the data region. */
  lemma Passed(sb: Super, disk: seq<Block>, nodes: seq<FS.Inode>, seen: map<nat, FS.Slot>, i: nat, n: nat, s: FS.Slot,
               a: nat)
    requires Scanned(sb, disk, nodes, seen, i, n)
    requires FS.IsSlot(|nodes|, s) && a == FS.Addr(disk, nodes, s) && s.i == i && Rank(s) == n && nodes[i].kind != 0
    requires a != 0 ==> InData(sb, a) && FS.Bit(sb.ninodes, disk, a) && a !in seen
    ensures Scanned(sb, disk, nodes, Noted(seen, a, s), i, n + 1)
  {
    assert forall t: FS.Slot | FS.IsSlot(|nodes|, t) && t.i == i && Rank(t) == n :: t == s;
  }

  /** One nonzero address, found in slot s. */
  method CheckAddress(sb: Super, disk: seq<Block>, u: array<nat>, a: nat, i: nat, n: nat,
                      ghost nodes: seq<FS.Inode>, ghost s: FS.Slot, ghost seen: map<nat, FS.Slot>)
    returns (r: Verdict)
    requires Sized(disk) && sb == SuperOf(disk) && |nodes| == sb.ninodes
    requires FS.IsSlot(|nodes|, s) && a == FS.Addr(disk, nodes, s) && s.i == i && Rank(s) == n && nodes[i].kind != 0
    requires Scanned(sb, disk, nodes, seen, i, n) && Tallied(sb, u[..], seen)
    modifies u
    ensures Explained(sb, disk, nodes, r)
    ensures r.Good? ==> Scanned(sb, disk, nodes, Noted(seen, a, s), i, n + 1) && Tallied(sb, u[..], Noted(seen, a, s))
    ensures r.Good? && a != 0 ==> InData(sb, a)
  {
    if a == 0 {
      Passed(sb, disk, nodes, seen, i, n, s, a);
      return Good;
    }
    assert Holds(disk, nodes, s);
    if a < BStart(sb) || a >= sb.size { return BadAddress; }
    BitmapInside(sb, a);
    SameBit(sb, disk, a);
    if !WordMarked(sb, disk, a) { return MarkedFree; }
    if u[a - BStart(sb)] == 1 {
      assert a in seen;
      assert FS.Addr(disk, nodes, seen[a]) == FS.Addr(disk, nodes, s) && seen[a] != s;
      return UsedTwice;
    }
    assert a !in seen;
    Passed(sb, disk, nodes, seen, i, n, s, a);
    u[a - BStart(sb)] := 1;
    r := Good;
  }

  /** An inode not in use, or with no indirect block, has nothing more to scan. */
  lemma SkipRest(sb: Super, disk: seq<Block>, nodes: seq<FS.Inode>, seen: map<nat, FS.Slot>, i: nat, n: nat)
    requires i < |nodes| && Scanned(sb, disk, nodes, seen, i, n)
    requires || (n == 0 && nodes[i].kind == 0)
             || (n == NDIRECT + 1 && nodes[i].addrs[NDIRECT] == 0)
             || n == NDIRECT + 1 + NINDIRECT
    ensures Scanned(sb, disk, nodes, seen, i + 1, 0)
  {
    forall s: FS.Slot | Before(s, i + 1, 0) && Holds(disk, nodes, s)
      ensures Before(s, i, n)
    {
      assert s.i == i ==> Rank(s) < NDIRECT + 1 + NINDIRECT;
    }
  }

  /** The addresses of inode i, the indirect block's entries after the direct ones. */
  method CheckInode(sb: Super, disk: seq<Block>, u: array<nat>, i: nat, ghost nodes: seq<FS.Inode>,
                    ghost seen0: map<nat, FS.Slot>)
    returns (r: Verdict, ghost seen: map<nat, FS.Slot>)
    requires Sized(disk) && sb == SuperOf(disk) && i < sb.ninodes && nodes == Nodes(disk, sb.ninodes)
    requires Scanned(sb, disk, nodes, seen0, i, 0) && Tallied(sb, u[..], seen0)
    modifies u
    ensures Explained(sb, disk, nodes, r)
    ensures r.Good? ==>
              && nodes[i].kind <= FS.T_DEV
              && Scanned(sb, disk, nodes, seen, i + 1, 0) && Tallied(sb, u[..], seen)
  {
    seen := seen0;
    var dinp := Node(RInode(disk, i));
    assert dinp == nodes[i];
    if dinp.kind != 0 && dinp.kind != 1 && dinp.kind != 2 && dinp.kind != FS.T_DEV { return BadInode, seen; }
    if dinp.kind == 0 {
      SkipRest(sb, disk, nodes, seen, i, 0);
      return Good, seen;
    }
    r, seen := CheckDirect(sb, disk, u, i, dinp, nodes, seen);
    if !r.Good? { return; }
    if dinp.addrs[NDIRECT] == 0 {
      SkipRest(sb, disk, nodes, seen, i, NDIRECT + 1);
      return Good, seen;
    }
    r, seen := CheckIndirect(sb, disk, u, i, dinp.addrs[NDIRECT], nodes, seen);
  }

  method CheckDirect(sb: Super, disk: seq<Block>, u: array<nat>, i: nat, dinp: FS.Inode, ghost nodes: seq<FS.Inode>,
                     ghost seen0: map<nat, FS.Slot>)
    returns (r: Verdict, ghost seen: map<nat, FS.Slot>)
    requires Sized(disk) && sb == SuperOf(disk) && i < |nodes| == sb.ninodes && dinp == nodes[i] && dinp.kind != 0
    requires Scanned(sb, disk, nodes, seen0, i, 0) && Tallied(sb, u[..], seen0)
    modifies u
    ensures Explained(sb, disk, nodes, r)
    ensures r.Good? ==>
              && Scanned(sb, disk, nodes, seen, i, NDIRECT + 1) && Tallied(sb, u[..], seen)
              && (dinp.addrs[NDIRECT] != 0 ==> InData(sb, dinp.addrs[NDIRECT]))
  {
    seen := seen0;
    for j := 0 to NDIRECT + 1
      invariant Scanned(sb, disk, nodes, seen, i, j) && Tallied(sb, u[..], seen)
      invariant j > NDIRECT && dinp.addrs[NDIRECT] != 0 ==> InData(sb, dinp.addrs[NDIRECT])
    {
      ghost var s := FS.Direct(i, j);
      r := CheckAddress(sb, disk, u, dinp.addrs[j], i, j, nodes, s, seen);
      if !r.Good? { return; }
      seen := Noted(seen, dinp.addrs[j], s);
    }
    r := Good;
  }

  method CheckIndirect(sb: Super, disk: seq<Block>, u: array<nat>, i: nat, p: nat, ghost nodes: seq<FS.Inode>,
                       ghost seen0: map<nat, FS.Slot>)
    returns (r: Verdict, ghost seen: map<nat, FS.Slot>)
    requires Sized(disk) && sb == SuperOf(disk) && i < |nodes| == sb.ninodes && nodes[i].kind != 0
    requires p == nodes[i].addrs[NDIRECT] != 0 && InData(sb, p)
    requires Scanned(sb, disk, nodes, seen0, i, NDIRECT + 1) && Tallied(sb, u[..], seen0)
    modifies u
    ensures Explained(sb, disk, nodes, r)
    ensures r.Good? ==> Scanned(sb, disk, nodes, seen, i + 1, 0) && Tallied(sb, u[..], seen)
  {
    seen := seen0;
    for j := 0 to NINDIRECT
      invariant Scanned(sb, disk, nodes, seen, i, NDIRECT + 1 + j) && Tallied(sb, u[..], seen)
    {
      ghost var s := FS.Indirect(i, j);
      var ndaddr := Word(disk[p], j);
      assert ndaddr == FS.Addr(disk, nodes, s);
      r := CheckAddress(sb, disk, u, ndaddr, i, NDIRECT + 1 + j, nodes, s, seen);
      if !r.Good? { return; }
      seen := Noted(seen, ndaddr, s);
      assert NDIRECT + 1 + j + 1 == NDIRECT + 1 + (j + 1);
    }
    SkipRest(sb, disk, nodes, seen, i, NDIRECT + 1 + NINDIRECT);
    r := Good;
  }

  /** The phase after the scan: a marked block must have been seen. */
  method CheckMarks(sb: Super, disk: seq<Block>, u: array<nat>, ghost nodes: seq<FS.Inode>,
                    ghost seen: map<nat, FS.Slot>) returns (r: Verdict)
    requires Sized(disk) && sb == SuperOf(disk) && |nodes| == sb.ninodes
    requires Scanned(sb, disk, nodes, seen, |nodes|, 0) && Tallied(sb, u[..], seen)
    ensures r.Good? || r.MarkedInUse?
    ensures r.Good? <==> MarksHeld(sb, disk, nodes)
  {
    for l := BStart(sb) to BStart(sb) + sb.nblocks
      invariant forall a: nat {:trigger FS.Bit(sb.ninodes, disk, a)} | BStart(sb) <= a < l
                && FS.Bit(sb.ninodes, disk, a) ::
                  HeldBySome(disk, nodes, a)
    {
      BitmapInside(sb, l);
      SameBit(sb, disk, l);
      assert l in seen ==> FS.Addr(disk, nodes, seen[l]) == l;
      if WordMarked(sb, disk, l) && u[l - BStart(sb)] == 0 {
        assert l !in seen;
        assert !HeldBySome(disk, nodes, l);
        return MarkedInUse;
      }
    }
    r := Good;
  }

  /** What a completed scan means. */
  lemma ScanDone(sb: Super, disk: seq<Block>, nodes: seq<FS.Inode>, seen: map<nat, FS.Slot>)
    requires Scanned(sb, disk, nodes, seen, |nodes|, 0)
    ensures AddressesInData(sb, disk, nodes) && AddressesMarked(sb, disk, nodes) && AddressesDistinct(disk, nodes)
  {
  }

  /** The block phases of fscheck's main: they accept exactly the sound images, and what they
      complain about is really wrong. */
  method CheckBlocks(disk: seq<Block>) returns (r: Verdict)
    requires Sized(disk)
    ensures r.Good? <==> Sound(disk)
    ensures Explained(SuperOf(disk), disk, Nodes(disk, SuperOf(disk).ninodes), r)
  {
    var sb := SuperOf(disk);
    ghost var nodes := Nodes(disk, sb.ninodes);
    var u := new nat[sb.nblocks](_ => 0);
    ghost var seen: map<nat, FS.Slot> := map[];
    var i := 0;
    while i < sb.ninodes
      invariant i <= sb.ninodes && Scanned(sb, disk, nodes, seen, i, 0) && Tallied(sb, u[..], seen)
      invariant forall k: nat {:trigger nodes[k]} | k < i :: nodes[k].kind <= FS.T_DEV
    {
      r, seen := CheckInode(sb, disk, u, i, nodes, seen);
      if !r.Good? { return; }
      i := i + 1;
    }
    ScanDone(sb, disk, nodes, seen);
    r := CheckMarks(sb, disk, u, nodes, seen);
  }
}
