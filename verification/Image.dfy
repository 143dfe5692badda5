/** The on-disk inode table as mkfs (p5/linux/mkfs.c) writes it and fscheck reads it:
    struct dinode (p5/linux/fs.h) as sixteen 32-bit words inside the blocks from block 2 on. */
module Image {

  import opened Blocks
  import FS = FileSystem

  const IPB := 8 // inodes per block
  const WORDS := 16 // words of a dinode

  /** A dinode: type | major << 16, minor | nlink << 16, size, addrs[0 .. NDIRECT]. */
  type Raw = r: seq<nat> | |r| == WORDS && forall k: nat | k < WORDS :: r[k] < UINT
    witness seq(WORDS, _ => 0)

  function InodeBlock(i: nat): nat {
    i / IPB + 2
  }

  function RawAt(b: Block, at: nat): (r: Raw)
    requires at + WORDS <= NINDIRECT
    ensures forall k: nat {:trigger r[k]} | k < WORDS :: r[k] == Word(b, at + k)
  {
    var s := seq(WORDS, (k: nat) requires k < WORDS => Word(b, at + k) as nat);
    assert forall k: nat | k < WORDS :: s[k] == Word(b, at + k);
    s
  }

  /** rinode */
  function RInode(disk: seq<Block>, i: nat): (r: Raw)
    requires InodeBlock(i) < |disk|
  {
    RawAt(disk[InodeBlock(i)], i % IPB * WORDS)
  }

  function PutWords(b: Block, at: nat, r: Raw, n: nat): (c: Block)
    requires n <= WORDS && at + WORDS <= NINDIRECT
    ensures forall k: nat {:trigger Word(c, k)} | k < NINDIRECT ::
              Word(c, k) == if at <= k < at + n then r[k - at] else Word(b, k)
  {
    if n == 0 then b else PutWord(PutWords(b, at, r, n - 1), at + n - 1, r[n - 1])
  }

  /** winode */
  function WInode(disk: seq<Block>, i: nat, r: Raw): seq<Block>
    requires InodeBlock(i) < |disk|
  {
    disk[InodeBlock(i) := PutWords(disk[InodeBlock(i)], i % IPB * WORDS, r, WORDS)]
  }

  lemma OtherInode(i: nat, j: nat, k: nat)
    requires i != j && InodeBlock(i) == InodeBlock(j) && k < WORDS
    ensures !(i % IPB * WORDS <= j % IPB * WORDS + k < i % IPB * WORDS + WORDS)
  {
    assert i % IPB != j % IPB;
  }

  /** Writing an inode and reading the table back. */
  lemma WrittenInode(disk: seq<Block>, i: nat, r: Raw, j: nat)
    requires InodeBlock(i) < |disk| && InodeBlock(j) < |disk|
    ensures RInode(WInode(disk, i, r), j) == if j == i then r else RInode(disk, j)
  {
    if i != j && InodeBlock(i) == InodeBlock(j) {
      forall k: nat | k < WORDS
        ensures RInode(WInode(disk, i, r), j)[k] == RInode(disk, j)[k]
      {
        OtherInode(i, j, k);
      }
    }
  }

  /** The inode a dinode describes. */
  function Node(r: Raw): (n: FS.Inode) {
    FS.InodeRecord(r[0] % 0x1_0000, r[0] / 0x1_0000, r[1] % 0x1_0000, r[1] / 0x1_0000, r[2], r[3..])
  }

  function Nodes(disk: seq<Block>, n: nat): (s: seq<FS.Inode>)
    requires n > 0 ==> InodeBlock(n - 1) < |disk|
    ensures |s| == n
    ensures forall i: nat {:trigger s[i]} | i < n :: s[i] == Node(RInode(disk, i))
  {
    seq(n, (i: nat) requires i < n => Node(RInode(disk, i)))
  }

  lemma NodesWritten(disk: seq<Block>, n: nat, i: nat, r: Raw)
    requires i < n && InodeBlock(n - 1) < |disk|
    ensures Nodes(WInode(disk, i, r), n) == Nodes(disk, n)[i := Node(r)]
  {
    forall j: nat | j < n
      ensures Nodes(WInode(disk, i, r), n)[j] == Nodes(disk, n)[i := Node(r)][j]
    {
      WrittenInode(disk, i, r, j);
    }
  }

  /** The table depends on its own blocks only. */
  lemma SameNodes(disk: seq<Block>, disk1: seq<Block>, n: nat)
    requires n > 0 && InodeBlock(n - 1) < |disk| == |disk1|
    requires forall c: nat | 2 <= c <= InodeBlock(n - 1) :: disk1[c] == disk[c]
    ensures Nodes(disk1, n) == Nodes(disk, n)
  {
    forall i: nat | i < n
      ensures Nodes(disk1, n)[i] == Nodes(disk, n)[i]
    {
      assert disk1[InodeBlock(i)] == disk[InodeBlock(i)];
    }
  }
}
