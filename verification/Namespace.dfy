/** Directories, link counts and inode lifetimes: create, sys_link, sys_unlink and isdirempty of
    p2/xv6/kernel/sysfile.c over ialloc, iget, iput, dirlookup and dirlink of fs.c.

    System calls run one at a time, none of them inside a directory that has been removed. */
module Namespace {

  import opened Traces
  import opened Wrappers

  const DIRSIZ := 14
  const ROOTINO := 1
  const MAXENTRIES := 4480 // MAXFILE * BSIZE / sizeof(struct dirent)
  const SHRT_MAX := 0x7fff

  const T_DIR := 1
  const T_FILE := 2
  const T_DEV := 3

  // ----- Names

  /** The name field of a directory entry; a NUL ends a shorter name. */
  type Field = s: string | |s| == DIRSIZ witness seq(DIRSIZ, _ => '\0')

  /** strncmp of two fields is 0. */
  predicate Same(s: string, t: string)
    requires |s| == |t|
  {
    s == [] || (s[0] == t[0] && (s[0] == '\0' || Same(s[1..], t[1..])))
  }

  predicate NameCmp(s: Field, t: Field) {
    Same(s, t)
  }

  function Cut(s: string): (r: string)
    ensures |r| == |s|
  {
    if s == [] then []
    else if s[0] == '\0' then seq(|s|, _ => '\0')
    else [s[0]] + Cut(s[1..])
  }

  /** strncpy: the name, and NULs up to the end of the field. */
  function Padded(s: Field): Field {
    Cut(s)
  }

  lemma {:induction false} SameCut(s: string, t: string)
    requires |s| == |t|
    ensures Same(s, t) <==> Cut(s) == Cut(t)
  {
    if s != [] {
      SameCut(s[1..], t[1..]);
      var a, b := Cut(s), Cut(t);
      assert a[0] == s[0] && b[0] == t[0];
      if s[0] == t[0] && s[0] != '\0' { assert a[1..] == Cut(s[1..]) && b[1..] == Cut(t[1..]); }
    }
  }

  lemma {:induction false} CutTwice(s: string)
    ensures Cut(Cut(s)) == Cut(s)
  {
    if s != [] && s[0] != '\0' {
      CutTwice(s[1..]);
      assert Cut(s)[0] == s[0] && Cut(s)[1..] == Cut(s[1..]);
    }
  }

  /** Names agree in namecmp exactly when they are stored the same, and storing changes no name. */
  lemma NameCmpIsEquality(s: Field, t: Field)
    ensures NameCmp(s, t) <==> Padded(s) == Padded(t)
    ensures Padded(Padded(s)) == Padded(s) && NameCmp(Padded(s), s)
  {
    SameCut(s, t);
    CutTwice(s);
    SameCut(Padded(s), s);
  }

  /** A field as strncpy or memset leaves it in a directory. */
  type Stored = f: Field | Padded(f) == f witness seq(DIRSIZ, _ => '\0')

  datatype Name = Name(bytes: Stored)

  function Short(s: string): (f: Field)
    requires |s| <= DIRSIZ
    ensures f[..|s|] == s && forall k: nat | |s| <= k < DIRSIZ :: f[k] == '\0'
  {
    s + seq(DIRSIZ - |s|, _ => '\0')
  }

  /** The name as dirlink stores it. */
  function NameOf(s: Field): Name {
    NameCmpIsEquality(s, s);
    Name(Padded(s))
  }

  const Dot: Name := NameOf(Short("."))
  const DotDot: Name := NameOf(Short(".."))
  const Erased: Name := NameOf(Short(""))

  /** namecmp finds a stored name by any field that is stored as that name. */
  lemma NamesAgree(s: Field, n: Name)
    ensures NameCmp(s, n.bytes) <==> n == NameOf(s)
  {
    NameCmpIsEquality(s, n.bytes);
  }

  /** Stored names differ when namecmp says so. */
  lemma NamesDiffer(m: Name, n: Name)
    ensures NameCmp(m.bytes, n.bytes) <==> m == n
  {
    NameCmpIsEquality(m.bytes, n.bytes);
  }

  lemma DotsDiffer()
    ensures Dot != DotDot
  {
    var d, e := Short("."), Short("..");
    assert d[..1][0] == d[0] && e[..2][1] == e[1] && d[1..][0] == d[1] && e[1..][0] == e[1];
    assert !Same(d[1..], e[1..]);
    NameCmpIsEquality(d, e);
  }

  // ----- The tree

  datatype Entry = Entry(inum: nat, name: Name)

  datatype Node = Node(kind: int, nlink: int, entries: seq<Entry>)

  predicate Linked(nodes: seq<Node>, d: nat) {
    d < |nodes| && nodes[d].kind == T_DIR && nodes[d].nlink > 0
  }

  /** Entry j of directory d, which is linked, names inode i, and is not the entry ".". */
  ghost predicate Names(nodes: seq<Node>, d: nat, j: nat, i: nat) {
    Linked(nodes, d) && 0 < j < |nodes[d].entries| && i != 0 && nodes[d].entries[j].inum == i
  }

  /** Where inode i is named. */
  ghost function Places(nodes: seq<Node>, i: nat): set<(nat, nat)> {
    set d: nat, j: nat | d < |nodes| && j < |nodes[d].entries| && Names(nodes, d, j, i) :: (d, j)
  }

  /** The names in a directory's used entries are distinct; only the first two are "." and "..". */
  ghost predicate NamesDistinct(entries: seq<Entry>) {
    && |entries| >= 2 && entries[0].name == Dot && entries[1].name == DotDot
    && forall j: nat, k: nat {:trigger entries[j], entries[k]} |
         j < k < |entries| && entries[j].inum != 0 && entries[k].inum != 0 :: entries[j].name != entries[k].name
  }

  ghost predicate HasChild(nodes: seq<Node>, p: nat, c: nat) {
    exists j: nat :: j >= 2 && Names(nodes, p, j, c)
  }

  ghost predicate DirOk(nodes: seq<Node>, d: nat)
    requires d < |nodes|
  {
    && |nodes[d].entries| >= 2 && nodes[d].entries[1].inum != 0
    && nodes[d].entries[0].inum == d && Linked(nodes, nodes[d].entries[1].inum)
    && (if d == ROOTINO then nodes[d].entries[1].inum == ROOTINO
        else nodes[d].entries[1].inum != d && HasChild(nodes, nodes[d].entries[1].inum, d))
    && forall j: nat {:trigger nodes[d].entries[j]} | 2 <= j < |nodes[d].entries| && nodes[d].entries[j].inum != 0 ::
         var x := nodes[d].entries[j].inum;
         && x < |nodes| && x != ROOTINO
         && (nodes[x].kind == T_DIR ==> |nodes[x].entries| >= 2 && nodes[x].entries[1].inum == d)
  }

  /** A directory has one entry outside itself and its children. */
  ghost predicate OneParent(nodes: seq<Node>) {
    forall d: nat, j: nat, e: nat, k: nat, x: nat {:trigger Names(nodes, d, j, x), Names(nodes, e, k, x)} |
      j >= 2 && k >= 2 && Names(nodes, d, j, x) && Names(nodes, e, k, x) && x < |nodes| && nodes[x].kind == T_DIR ::
      d == e && j == k
  }

  ghost predicate Counted(nodes: seq<Node>) {
    forall i: nat {:trigger Places(nodes, i)} | i < |nodes| :: nodes[i].nlink == |Places(nodes, i)|
  }

  ghost predicate AllDistinct(nodes: seq<Node>) {
    forall d: nat {:trigger NamesDistinct(nodes[d].entries)} | Linked(nodes, d) :: NamesDistinct(nodes[d].entries)
  }

  ghost predicate Tree(nodes: seq<Node>) {
    && Linked(nodes, ROOTINO) && nodes[0].kind == 0 && OneParent(nodes) && Counted(nodes) && AllDistinct(nodes)
    && (forall d: nat {:trigger DirOk(nodes, d)} | Linked(nodes, d) :: DirOk(nodes, d))
    && (forall i: nat {:trigger nodes[i]} | i < |nodes| ::
          && nodes[i].nlink >= 0 && (nodes[i].kind != T_DIR ==> nodes[i].entries == [])
          && (nodes[i].kind == 0 ==> nodes[i].nlink == 0))
  }

  // ----- Counting

  lemma OnePlaceMore(nodes: seq<Node>, nodes1: seq<Node>, i: nat, d: nat, j: nat)
    requires forall e: nat, k: nat :: Names(nodes1, e, k, i) <==> Names(nodes, e, k, i) || (e == d && k == j)
    requires !Names(nodes, d, j, i)
    ensures |Places(nodes1, i)| == |Places(nodes, i)| + 1
  {
    assert Places(nodes1, i) == Places(nodes, i) + {(d, j)};
  }

  lemma SamePlaces(nodes: seq<Node>, nodes1: seq<Node>, i: nat)
    requires forall e: nat, k: nat :: Names(nodes1, e, k, i) <==> Names(nodes, e, k, i)
    ensures Places(nodes1, i) == Places(nodes, i)
  {
  }

  /** No entry names an inode without links. */
  lemma Unnamed(nodes: seq<Node>, i: nat)
    requires Counted(nodes) && i < |nodes| && nodes[i].nlink == 0
    ensures forall e: nat, k: nat :: !Names(nodes, e, k, i)
  {
    forall e: nat, k: nat ensures !Names(nodes, e, k, i) {
      assert Names(nodes, e, k, i) ==> (e, k) in Places(nodes, i);
    }
  }

  lemma NamedInUse(nodes: seq<Node>, d: nat, j: nat, i: nat)
    requires Counted(nodes) && i < |nodes| && Names(nodes, d, j, i)
    ensures nodes[i].nlink > 0
  {
    assert (d, j) in Places(nodes, i);
  }

  // ----- A new entry

  /** Storing an entry in slot j, the first slot after the end included. */
  function WithEntry(entries: seq<Entry>, j: nat, e: Entry): (r: seq<Entry>)
    requires j <= |entries|
    ensures |r| == if j == |entries| then j + 1 else |entries|
    ensures forall k: nat {:trigger r[k]} | k < |r| :: r[k] == if k == j then e else entries[k]
  {
    if j == |entries| then entries + [e] else entries[j := e]
  }

  ghost predicate FirstFree(entries: seq<Entry>, j: nat) {
    && j <= |entries| && (j < |entries| ==> entries[j].inum == 0)
    && forall k: nat {:trigger entries[k]} | k < j :: entries[k].inum != 0
  }

  ghost predicate NoSuchName(entries: seq<Entry>, name: Name) {
    forall k: nat {:trigger entries[k]} | k < |entries| && entries[k].inum != 0 :: entries[k].name != name
  }

  /** dirlink of inode x, a file or device with one link more, into directory d. */
  ghost predicate FileStep(nodes: seq<Node>, d: nat, j: nat, name: Name, x: nat, kind: int, nodes1: seq<Node>) {
    && Linked(nodes, d) && j >= 2 && FirstFree(nodes[d].entries, j) && NoSuchName(nodes[d].entries, name)
    && 0 < x < |nodes| && nodes[x].kind != T_DIR && (nodes[x].kind == kind || nodes[x].kind == 0) && kind != T_DIR
       && kind != 0
    && |nodes1| == |nodes| && nodes1[x] == Node(kind, nodes[x].nlink + 1, [])
    && nodes1[d] == nodes[d].(entries := WithEntry(nodes[d].entries, j, Entry(x, name)))
    && forall i: nat {:trigger nodes1[i]} | i < |nodes| && i != d && i != x :: nodes1[i] == nodes[i]
  }

  lemma FileNames(nodes: seq<Node>, d: nat, j: nat, name: Name, x: nat, kind: int, nodes1: seq<Node>)
    requires FileStep(nodes, d, j, name, x, kind, nodes1) && nodes[x].entries == []
    ensures forall e: nat {:trigger Linked(nodes1, e)} :: Linked(nodes1, e) <==> Linked(nodes, e)
    ensures forall e: nat, k: nat, i: nat {:trigger Names(nodes1, e, k, i)} ::
              Names(nodes1, e, k, i) <==> Names(nodes, e, k, i) || (e == d && k == j && i == x)
  {
  }

  lemma FileLinkedDir(nodes: seq<Node>, d: nat, j: nat, name: Name, x: nat, kind: int, nodes1: seq<Node>, e: nat)
    requires Tree(nodes) && FileStep(nodes, d, j, name, x, kind, nodes1) && Linked(nodes, e)
    ensures DirOk(nodes1, e)
  {
    FileNames(nodes, d, j, name, x, kind, nodes1);
    assert DirOk(nodes, e);
    if e != ROOTINO {
      var p := nodes[e].entries[1].inum;
      var k: nat :| k >= 2 && Names(nodes, p, k, e);
      assert Names(nodes1, p, k, e);
    }
  }

  lemma FileCounted(nodes: seq<Node>, d: nat, j: nat, name: Name, x: nat, kind: int, nodes1: seq<Node>)
    requires FileStep(nodes, d, j, name, x, kind, nodes1) && nodes[x].entries == [] && Counted(nodes)
    ensures Counted(nodes1)
  {
    FileNames(nodes, d, j, name, x, kind, nodes1);
    forall i: nat | i < |nodes1|
      ensures nodes1[i].nlink == |Places(nodes1, i)|
    {
      if i == x { OnePlaceMore(nodes, nodes1, x, d, j); } else { SamePlaces(nodes, nodes1, i); }
    }
  }

  lemma FileOneParent(nodes: seq<Node>, d: nat, j: nat, name: Name, x: nat, kind: int, nodes1: seq<Node>)
    requires FileStep(nodes, d, j, name, x, kind, nodes1) && nodes[x].entries == [] && OneParent(nodes)
    ensures OneParent(nodes1)
  {
    FileNames(nodes, d, j, name, x, kind, nodes1);
  }

  lemma DistinctWith(entries: seq<Entry>, j: nat, name: Name, x: nat)
    requires NamesDistinct(entries) && j >= 2 && FirstFree(entries, j) && NoSuchName(entries, name)
    ensures NamesDistinct(WithEntry(entries, j, Entry(x, name)))
  {
    var entries1 := WithEntry(entries, j, Entry(x, name));
    forall k: nat, l: nat | k < l < |entries1| && entries1[k].inum != 0 && entries1[l].inum != 0
      ensures entries1[k].name != entries1[l].name
    {
      assert k != j ==> entries1[k] == entries[k];
      assert l != j ==> entries1[l] == entries[l];
    }
  }

  lemma FileDistinct(nodes: seq<Node>, d: nat, j: nat, name: Name, x: nat, kind: int, nodes1: seq<Node>)
    requires FileStep(nodes, d, j, name, x, kind, nodes1) && AllDistinct(nodes)
    ensures AllDistinct(nodes1)
  {
    forall e: nat | Linked(nodes1, e)
      ensures NamesDistinct(nodes1[e].entries)
    {
      assert NamesDistinct(nodes[if e == x then d else e].entries);
      if e == d { DistinctWith(nodes[d].entries, j, name, x); }
    }
  }

  lemma FileLinked(nodes: seq<Node>, d: nat, j: nat, name: Name, x: nat, kind: int, nodes1: seq<Node>)
    requires Tree(nodes) && FileStep(nodes, d, j, name, x, kind, nodes1)
    ensures Tree(nodes1)
  {
    assert nodes[x].entries == [] && Linked(nodes1, ROOTINO);
    FileCounted(nodes, d, j, name, x, kind, nodes1);
    FileOneParent(nodes, d, j, name, x, kind, nodes1);
    FileDistinct(nodes, d, j, name, x, kind, nodes1);
    forall e: nat | Linked(nodes1, e)
      ensures DirOk(nodes1, e)
    {
      assert Linked(nodes, e);
      FileLinkedDir(nodes, d, j, name, x, kind, nodes1, e);
    }
  }

  // ----- A new directory

  /** create of a directory x, so far a free inode, in directory d. */
  ghost predicate DirStep(nodes: seq<Node>, d: nat, j: nat, name: Name, x: nat, nodes1: seq<Node>) {
    && Linked(nodes, d) && j >= 2 && FirstFree(nodes[d].entries, j) && NoSuchName(nodes[d].entries, name)
    && 0 < x < |nodes| && nodes[x].kind == 0 && nodes[x].nlink == 0
    && |nodes1| == |nodes| && nodes1[x] == Node(T_DIR, 1, [Entry(x, Dot), Entry(d, DotDot)])
    && nodes1[d] == Node(T_DIR, nodes[d].nlink + 1, WithEntry(nodes[d].entries, j, Entry(x, name)))
    && forall i: nat {:trigger nodes1[i]} | i < |nodes| && i != d && i != x :: nodes1[i] == nodes[i]
  }

  lemma DirNames(nodes: seq<Node>, d: nat, j: nat, name: Name, x: nat, nodes1: seq<Node>)
    requires DirStep(nodes, d, j, name, x, nodes1) && d != 0
    ensures forall e: nat {:trigger Linked(nodes1, e)} :: Linked(nodes1, e) <==> Linked(nodes, e) || e == x
    ensures forall e: nat, k: nat, i: nat {:trigger Names(nodes1, e, k, i)} ::
              Names(nodes1, e, k, i) <==>
                  Names(nodes, e, k, i) || (e == d && k == j && i == x)
                  || (e == x && k == 1 && i == d)
  {
  }

  lemma NewDirOk(nodes: seq<Node>, d: nat, j: nat, name: Name, x: nat, nodes1: seq<Node>, e: nat)
    requires Tree(nodes) && DirStep(nodes, d, j, name, x, nodes1) && Linked(nodes1, e) && d != 0
    ensures DirOk(nodes1, e)
  {
    DirNames(nodes, d, j, name, x, nodes1);
    if e == x {
      assert Names(nodes1, d, j, x);
    } else {
      assert Linked(nodes, e) && DirOk(nodes, e);
      if e != ROOTINO {
        var p := nodes[e].entries[1].inum;
        var k: nat :| k >= 2 && Names(nodes, p, k, e);
        assert Names(nodes1, p, k, e);
      }
      forall k: nat | 2 <= k < |nodes[e].entries| && nodes[e].entries[k].inum == x
        ensures false
      {
        Unnamed(nodes, x);
        assert Names(nodes, e, k, x);
      }
    }
  }

  lemma DirCounted(nodes: seq<Node>, d: nat, j: nat, name: Name, x: nat, nodes1: seq<Node>)
    requires DirStep(nodes, d, j, name, x, nodes1) && Counted(nodes) && d != 0
    ensures Counted(nodes1)
  {
    DirNames(nodes, d, j, name, x, nodes1);
    forall i: nat | i < |nodes1|
      ensures nodes1[i].nlink == |Places(nodes1, i)|
    {
      if i == x {
        OnePlaceMore(nodes, nodes1, x, d, j);
      } else if i == d {
        OnePlaceMore(nodes, nodes1, d, x, 1);
      } else {
        SamePlaces(nodes, nodes1, i);
      }
    }
  }

  lemma DirOneParent(nodes: seq<Node>, d: nat, j: nat, name: Name, x: nat, nodes1: seq<Node>)
    requires DirStep(nodes, d, j, name, x, nodes1) && OneParent(nodes) && Counted(nodes) && d != 0
    ensures OneParent(nodes1)
  {
    DirNames(nodes, d, j, name, x, nodes1);
    Unnamed(nodes, x);
  }

  lemma DirDistinct(nodes: seq<Node>, d: nat, j: nat, name: Name, x: nat, nodes1: seq<Node>)
    requires DirStep(nodes, d, j, name, x, nodes1) && AllDistinct(nodes)
    ensures AllDistinct(nodes1)
  {
    forall e: nat | Linked(nodes1, e)
      ensures NamesDistinct(nodes1[e].entries)
    {
      assert NamesDistinct(nodes[if e == x then d else e].entries);
      if e == d { DistinctWith(nodes[d].entries, j, name, x); }
      if e == x { DotsDiffer(); }
    }
  }

  lemma DirCreated(nodes: seq<Node>, d: nat, j: nat, name: Name, x: nat, nodes1: seq<Node>)
    requires Tree(nodes) && DirStep(nodes, d, j, name, x, nodes1) && d != 0
    ensures Tree(nodes1)
  {
    assert Linked(nodes1, ROOTINO);
    DirCounted(nodes, d, j, name, x, nodes1);
    DirOneParent(nodes, d, j, name, x, nodes1);
    DirDistinct(nodes, d, j, name, x, nodes1);
    forall e: nat | Linked(nodes1, e)
      ensures DirOk(nodes1, e)
    {
      NewDirOk(nodes, d, j, name, x, nodes1, e);
    }
  }

  // ----- Removing an entry

  /** sys_unlink of entry j of directory d, which names inode x. */
  ghost predicate UnlinkStep(nodes: seq<Node>, d: nat, j: nat, x: nat, nodes1: seq<Node>) {
    && j >= 2 && Names(nodes, d, j, x) && x < |nodes| && x != d
    && |nodes1| == |nodes| && nodes1[x] == nodes[x].(nlink := nodes[x].nlink - 1)
    && |nodes1[d].entries| == |nodes[d].entries| && nodes1[d].entries[j].inum == 0
    && (forall k: nat {:trigger nodes1[d].entries[k]} | k < |nodes[d].entries| && k != j ::
        nodes1[d].entries[k] == nodes[d].entries[k])
    && nodes1[d].kind == T_DIR && nodes1[d].nlink == nodes[d].nlink - (if nodes[x].kind == T_DIR then 1 else 0)
    && forall i: nat {:trigger nodes1[i]} | i < |nodes| && i != d && i != x :: nodes1[i] == nodes[i]
  }

  /** isdirempty */
  ghost predicate Empty(entries: seq<Entry>) {
    forall k: nat {:trigger entries[k]} | 2 <= k < |entries| :: entries[k].inum == 0
  }

  /** An empty directory is named once, by its parent, and it names its parent once. */
  lemma EmptyDir(nodes: seq<Node>, d: nat, j: nat, x: nat)
    requires Tree(nodes) && j >= 2 && Names(nodes, d, j, x) && Linked(nodes, x) && Empty(nodes[x].entries)
    ensures nodes[x].nlink == 1 && Places(nodes, x) == {(d, j)} && x != d && x != ROOTINO
    ensures |nodes[x].entries| >= 2 && nodes[x].entries[1].inum == d
    ensures forall k: nat, i: nat {:trigger Names(nodes, x, k, i)} :: Names(nodes, x, k, i) ==> k == 1 && i == d
    ensures nodes[d].nlink > 1
  {
    assert DirOk(nodes, d) && DirOk(nodes, x);
    forall e: nat, k: nat | Names(nodes, e, k, x)
      ensures e == d && k == j
    {
      assert DirOk(nodes, e);
      assert k == 1 ==> e == ROOTINO || HasChild(nodes, x, e);
    }
    assert Places(nodes, x) == {(d, j)};
    var p, k := ROOTINO, 1;
    if d != ROOTINO {
      p := nodes[d].entries[1].inum;
      k :| k >= 2 && Names(nodes, p, k, d);
    }
    assert Names(nodes, x, 1, d) && Names(nodes, p, k, d) && p != x;
    assert {(p, k), (x, 1)} <= Places(nodes, d);
    CardAtLeast2((p, k), (x, 1), Places(nodes, d));
  }

  lemma CardAtLeast2<T>(a: T, b: T, s: set<T>)
    requires a != b && a in s && b in s
    ensures |s| >= 2
  {
    assert s == {a, b} + (s - {a, b});
  }

  lemma OnePlaceLess(nodes: seq<Node>, nodes1: seq<Node>, i: nat, d: nat, j: nat)
    requires forall e: nat, k: nat :: Names(nodes1, e, k, i) <==> Names(nodes, e, k, i) && !(e == d && k == j)
    requires Names(nodes, d, j, i)
    ensures |Places(nodes1, i)| == |Places(nodes, i)| - 1
  {
    assert Places(nodes, i) == Places(nodes1, i) + {(d, j)};
  }

  // A file or device loses a name.

  lemma FileGoneNames(nodes: seq<Node>, d: nat, j: nat, x: nat, nodes1: seq<Node>)
    requires UnlinkStep(nodes, d, j, x, nodes1) && nodes[x].kind != T_DIR
    ensures forall e: nat {:trigger Linked(nodes1, e)} :: Linked(nodes1, e) <==> Linked(nodes, e)
    ensures forall e: nat, k: nat, i: nat {:trigger Names(nodes1, e, k, i)} ::
              Names(nodes1, e, k, i) <==> Names(nodes, e, k, i) && !(e == d && k == j)
  {
  }

  lemma FileGoneDir(nodes: seq<Node>, d: nat, j: nat, x: nat, nodes1: seq<Node>, e: nat)
    requires Tree(nodes) && UnlinkStep(nodes, d, j, x, nodes1) && nodes[x].kind != T_DIR && Linked(nodes, e)
    ensures DirOk(nodes1, e)
  {
    FileGoneNames(nodes, d, j, x, nodes1);
    assert DirOk(nodes, e);
    if e != ROOTINO {
      var p := nodes[e].entries[1].inum;
      var k: nat :| k >= 2 && Names(nodes, p, k, e);
      assert Names(nodes1, p, k, e);
    }
  }

  lemma FileGoneCounted(nodes: seq<Node>, d: nat, j: nat, x: nat, nodes1: seq<Node>)
    requires UnlinkStep(nodes, d, j, x, nodes1) && nodes[x].kind != T_DIR && Counted(nodes)
    ensures Counted(nodes1)
  {
    FileGoneNames(nodes, d, j, x, nodes1);
    forall i: nat | i < |nodes1|
      ensures nodes1[i].nlink == |Places(nodes1, i)|
    {
      if i == x { OnePlaceLess(nodes, nodes1, x, d, j); } else { SamePlaces(nodes, nodes1, i); }
    }
  }

  lemma GoneDistinct(nodes: seq<Node>, d: nat, j: nat, x: nat, nodes1: seq<Node>)
    requires UnlinkStep(nodes, d, j, x, nodes1) && AllDistinct(nodes) && nodes[x].nlink > 0
    ensures AllDistinct(nodes1)
  {
    forall e: nat | Linked(nodes1, e)
      ensures NamesDistinct(nodes1[e].entries)
    {
      assert Linked(nodes, e) && NamesDistinct(nodes[e].entries);
    }
  }

  lemma FileUnlinked(nodes: seq<Node>, d: nat, j: nat, x: nat, nodes1: seq<Node>)
    requires Tree(nodes) && UnlinkStep(nodes, d, j, x, nodes1) && nodes[x].kind != T_DIR
    ensures Tree(nodes1)
  {
    FileGoneNames(nodes, d, j, x, nodes1);
    FileGoneCounted(nodes, d, j, x, nodes1);
    NamedInUse(nodes, d, j, x);
    GoneDistinct(nodes, d, j, x, nodes1);
    assert OneParent(nodes1);
    forall e: nat | Linked(nodes1, e)
      ensures DirOk(nodes1, e)
    {
      FileGoneDir(nodes, d, j, x, nodes1, e);
    }
  }

  // An empty directory loses its name, and its parent the entry "..".

  lemma DirGoneNames(nodes: seq<Node>, d: nat, j: nat, x: nat, nodes1: seq<Node>)
    requires Tree(nodes) && UnlinkStep(nodes, d, j, x, nodes1) && Linked(nodes, x) && Empty(nodes[x].entries)
    ensures forall e: nat {:trigger Linked(nodes1, e)} :: Linked(nodes1, e) <==> Linked(nodes, e) && e != x
    ensures forall e: nat, k: nat, i: nat {:trigger Names(nodes1, e, k, i)} ::
              Names(nodes1, e, k, i) <==> Names(nodes, e, k, i) && !(e == d && k == j) && !(e == x && k == 1)
  {
    EmptyDir(nodes, d, j, x);
  }

  lemma DirGoneDir(nodes: seq<Node>, d: nat, j: nat, x: nat, nodes1: seq<Node>, e: nat)
    requires Tree(nodes) && UnlinkStep(nodes, d, j, x, nodes1) && Linked(nodes, x) && Empty(nodes[x].entries)
    requires Linked(nodes, e) && e != x
    ensures DirOk(nodes1, e)
  {
    DirGoneNames(nodes, d, j, x, nodes1);
    EmptyDir(nodes, d, j, x);
    assert DirOk(nodes, e);
    if e != ROOTINO {
      var p := nodes[e].entries[1].inum;
      var k: nat :| k >= 2 && Names(nodes, p, k, e);
      assert Names(nodes1, p, k, e);
    }
  }

  lemma DirGoneCounted(nodes: seq<Node>, d: nat, j: nat, x: nat, nodes1: seq<Node>)
    requires Tree(nodes) && UnlinkStep(nodes, d, j, x, nodes1) && Linked(nodes, x) && Empty(nodes[x].entries)
    ensures Counted(nodes1)
  {
    DirGoneNames(nodes, d, j, x, nodes1);
    EmptyDir(nodes, d, j, x);
    forall i: nat | i < |nodes1|
      ensures nodes1[i].nlink == |Places(nodes1, i)|
    {
      if i == x {
        OnePlaceLess(nodes, nodes1, x, d, j);
      } else if i == d {
        assert Names(nodes, x, 1, d);
        OnePlaceLess(nodes, nodes1, d, x, 1);
      } else {
        SamePlaces(nodes, nodes1, i);
      }
    }
  }

  lemma DirUnlinked(nodes: seq<Node>, d: nat, j: nat, x: nat, nodes1: seq<Node>)
    requires Tree(nodes) && UnlinkStep(nodes, d, j, x, nodes1) && Linked(nodes, x) && Empty(nodes[x].entries)
    ensures Tree(nodes1) && nodes1[x].nlink == 0
  {
    EmptyDir(nodes, d, j, x);
    DirGoneNames(nodes, d, j, x, nodes1);
    DirGoneCounted(nodes, d, j, x, nodes1);
    GoneDistinct(nodes, d, j, x, nodes1);
    assert OneParent(nodes1) && Linked(nodes1, ROOTINO);
    forall e: nat | Linked(nodes1, e)
      ensures DirOk(nodes1, e)
    {
      DirGoneDir(nodes, d, j, x, nodes1, e);
    }
  }

  // ----- Freeing an inode

  lemma FreedNames(nodes: seq<Node>, x: nat, nodes1: seq<Node>)
    requires x < |nodes| && nodes[x].nlink == 0 && nodes1 == nodes[x := Node(0, 0, [])]
    ensures forall e: nat {:trigger Linked(nodes1, e)} :: Linked(nodes1, e) <==> Linked(nodes, e)
    ensures forall e: nat, k: nat, i: nat {:trigger Names(nodes1, e, k, i)} ::
            Names(nodes1, e, k, i) <==> Names(nodes, e, k, i)
  {
  }

  lemma FreedDir(nodes: seq<Node>, x: nat, nodes1: seq<Node>, e: nat)
    requires Tree(nodes) && x < |nodes| && nodes[x].nlink == 0 && nodes1 == nodes[x := Node(0, 0, [])]
             && Linked(nodes, e)
    ensures DirOk(nodes1, e)
  {
    FreedNames(nodes, x, nodes1);
    assert DirOk(nodes, e);
    if e != ROOTINO {
      var p := nodes[e].entries[1].inum;
      var k: nat :| k >= 2 && Names(nodes, p, k, e);
      assert Names(nodes1, p, k, e);
    }
    Unnamed(nodes, x);
    assert forall k: nat {:trigger nodes[e].entries[k]} | 2 <= k < |nodes[e].entries| && nodes[e].entries[k].inum == x
        && x != 0 ::
        Names(nodes, e, k, x);
  }

  lemma FreedCounted(nodes: seq<Node>, x: nat, nodes1: seq<Node>)
    requires Counted(nodes) && AllDistinct(nodes)
    requires x < |nodes| && nodes[x].nlink == 0 && nodes1 == nodes[x := Node(0, 0, [])]
    ensures Counted(nodes1) && AllDistinct(nodes1)
  {
    FreedNames(nodes, x, nodes1);
    forall i: nat | i < |nodes1|
      ensures nodes1[i].nlink == |Places(nodes1, i)|
    {
      SamePlaces(nodes, nodes1, i);
    }
    forall e: nat | Linked(nodes1, e)
      ensures NamesDistinct(nodes1[e].entries)
    {
      assert NamesDistinct(nodes[e].entries);
    }
  }

  /** itrunc and type = 0 for an inode without links. */
  lemma Freed(nodes: seq<Node>, x: nat, nodes1: seq<Node>)
    requires Tree(nodes) && x < |nodes| && nodes[x].nlink == 0 && nodes1 == nodes[x := Node(0, 0, [])]
    ensures Tree(nodes1)
  {
    FreedNames(nodes, x, nodes1);
    FreedCounted(nodes, x, nodes1);
    assert Linked(nodes1, ROOTINO) && OneParent(nodes1);
    forall e: nat | Linked(nodes1, e)
      ensures DirOk(nodes1, e)
    {
      FreedDir(nodes, x, nodes1, e);
    }
  }

  // ----- Directories as finite maps

  /** The inode a directory gives for a name, searching from entry k on. */
  function FindFrom(entries: seq<Entry>, name: Name, k: nat): Option<nat>
    requires k <= |entries|
    decreases |entries| - k
  {
    if k == |entries| then None
    else if entries[k].inum != 0 && entries[k].name == name then Some(entries[k].inum)
    else FindFrom(entries, name, k + 1)
  }

  function Find(entries: seq<Entry>, name: Name): Option<nat> {
    FindFrom(entries, name, 0)
  }

  lemma {:induction false} FoundAt(entries: seq<Entry>, name: Name, k: nat, j: nat)
    requires k <= j < |entries| && entries[j].inum != 0 && entries[j].name == name
    requires forall i: nat | k <= i < j :: entries[i].inum == 0 || entries[i].name != name
    ensures FindFrom(entries, name, k) == Some(entries[j].inum)
    decreases j - k
  {
    if k < j { FoundAt(entries, name, k + 1, j); }
  }

  lemma {:induction false} NotFound(entries: seq<Entry>, name: Name, k: nat)
    requires k <= |entries|
    requires forall i: nat {:trigger entries[i]} | k <= i < |entries| && entries[i].inum != 0 :: entries[i].name != name
    ensures FindFrom(entries, name, k) == None
    decreases |entries| - k
  {
    if k < |entries| { NotFound(entries, name, k + 1); }
  }

  lemma {:induction false} FoundSomewhere(entries: seq<Entry>, name: Name, k: nat) returns (j: nat)
    requires k <= |entries| && FindFrom(entries, name, k).Some?
    ensures k <= j < |entries| && entries[j].inum == FindFrom(entries, name, k).value != 0 && entries[j].name == name
    decreases |entries| - k
  {
    if entries[k].inum != 0 && entries[k].name == name { j := k; } else { j := FoundSomewhere(entries, name, k + 1); }
  }

  /** A new entry adds its name to the map and changes nothing else. */
  lemma {:induction false} FindAdded(entries: seq<Entry>, j: nat, e: Entry, name: Name, k: nat)
    requires j <= |entries| && (j < |entries| ==> entries[j].inum == 0) && NoSuchName(entries, e.name) && e.inum != 0
    requires k <= |entries|
    ensures FindFrom(WithEntry(entries, j, e), name, k)
         == if name == e.name && k <= j then Some(e.inum) else FindFrom(entries, name, k)
    decreases |entries| - k
  {
    if k < |entries| {
      FindAdded(entries, j, e, name, k + 1);
      if name == e.name { NotFound(entries, name, k); }
    } else if j == k {
      assert FindFrom(WithEntry(entries, j, e), name, k + 1) == None;
    }
  }

  /** Clearing an entry takes its name out of the map and changes nothing else. */
  lemma {:induction false} FindRemoved(entries: seq<Entry>, j: nat, e: Entry, name: Name, k: nat)
    requires j < |entries| && entries[j].inum != 0 && e.inum == 0 && k <= |entries|
    requires forall i: nat {:trigger entries[i]} | i < |entries| && i != j && entries[i].inum != 0 ::
             entries[i].name != entries[j].name
    ensures FindFrom(entries[j := e], name, k)
         == if name == entries[j].name && k <= j then None else FindFrom(entries, name, k)
    decreases |entries| - k
  {
    if k < |entries| {
      FindRemoved(entries, j, e, name, k + 1);
      if name == entries[j].name && k == j { NotFound(entries, name, k + 1); }
    }
  }

  /** Entries of a linked directory lead to inodes with links. */
  lemma EntriesLive(nodes: seq<Node>, d: nat)
    requires Tree(nodes) && Linked(nodes, d)
    ensures d != 0 && |nodes[d].entries| >= 2
    ensures forall k: nat {:trigger nodes[d].entries[k]} | k < |nodes[d].entries| ::
              nodes[d].entries[k].inum < |nodes| && (nodes[d].entries[k].inum != 0
                                                     ==> nodes[nodes[d].entries[k].inum].nlink > 0)
  {
    assert DirOk(nodes, d);
    assert Places(nodes, 0) == {};
    forall k: nat | 2 <= k < |nodes[d].entries| && nodes[d].entries[k].inum != 0
      ensures nodes[nodes[d].entries[k].inum].nlink > 0
    {
      NamedInUse(nodes, d, k, nodes[d].entries[k].inum);
    }
  }

  lemma FirstTwoUsed(nodes: seq<Node>, d: nat, j: nat)
    requires Tree(nodes) && Linked(nodes, d) && FirstFree(nodes[d].entries, j)
    ensures j >= 2
  {
    assert DirOk(nodes, d);
  }

  /** The new inode x is reached by its name in dp; every other name leads where it did. */
  ghost predicate Created(nodes: seq<Node>, dp: nat, name: Name, kind: int, x: nat, nodes1: seq<Node>)
    requires dp < |nodes|
  {
    && |nodes1| == |nodes| && 0 < x < |nodes| && nodes[x].kind == 0 && nodes1[x].kind == kind && nodes1[x].nlink == 1
    && (forall d: nat, n: Name {:trigger Find(nodes1[d].entries, n)} | d < |nodes| && d != x ::
          Find(nodes1[d].entries, n) == if d == dp && n == name then Some(x) else Find(nodes[d].entries, n))
    && forall n: Name {:trigger Find(nodes1[x].entries, n)} ::
         Find(nodes1[x].entries, n) == if kind == T_DIR && n == Dot then Some(x) else if kind == T_DIR && n == DotDot
             then Some(dp) else None
  }

  lemma FileCreatedMaps(nodes: seq<Node>, d: nat, j: nat, name: Name, x: nat, kind: int, nodes1: seq<Node>)
    requires FileStep(nodes, d, j, name, x, kind, nodes1) && nodes[x].kind == 0 && nodes[x].nlink == 0
    ensures Created(nodes, d, name, kind, x, nodes1)
  {
    forall n: Name { FindAdded(nodes[d].entries, j, Entry(x, name), n, 0); }
  }

  lemma DirCreatedMaps(nodes: seq<Node>, d: nat, j: nat, name: Name, x: nat, nodes1: seq<Node>)
    requires DirStep(nodes, d, j, name, x, nodes1) && d != 0
    ensures Created(nodes, d, name, T_DIR, x, nodes1)
  {
    forall n: Name { FindAdded(nodes[d].entries, j, Entry(x, name), n, 0); }
    var dots := nodes1[x].entries;
    DotsDiffer();
    forall n: Name
      ensures Find(dots, n) == if n == Dot then Some(x) else if n == DotDot then Some(d) else None
    {
      if n != Dot && n != DotDot { NotFound(dots, n, 0); }
      if n == Dot { FoundAt(dots, n, 0, 0); }
      if n == DotDot { FoundAt(dots, n, 0, 1); }
    }
  }

  /** The new inode x and its entry, in the first free slot. */
  ghost predicate NewEntry(nodes: seq<Node>, dp: nat, j: nat, name: Name, kind: int, x: nat, nodes1: seq<Node>) {
    && x < |nodes| && nodes[x].kind == 0 && nodes[x].nlink == 0
    && if kind == T_DIR then DirStep(nodes, dp, j, name, x, nodes1) else FileStep(nodes, dp, j, name, x, kind, nodes1)
  }

  lemma EntryCreated(nodes: seq<Node>, dp: nat, j: nat, name: Name, kind: int, x: nat, nodes1: seq<Node>)
    requires NewEntry(nodes, dp, j, name, kind, x, nodes1) && dp != 0
    ensures Created(nodes, dp, name, kind, x, nodes1)
  {
    if kind == T_DIR { DirCreatedMaps(nodes, dp, j, name, x, nodes1); }
    else { FileCreatedMaps(nodes, dp, j, name, x, kind, nodes1); }
  }

  /** No inode is left, which ialloc finds out. */
  ghost predicate NoFreeInode(nodes: seq<Node>) {
    forall i: nat {:trigger nodes[i]} | 0 < i < |nodes| :: nodes[i].kind != 0
  }

  /** The first free slot lies past the largest file, which writei refuses. */
  ghost predicate Full(entries: seq<Entry>) {
    |entries| >= MAXENTRIES && forall k: nat {:trigger entries[k]} | k < MAXENTRIES :: entries[k].inum != 0
  }

  // ----- What sys_unlink promises

  ghost predicate Removable(nodes: seq<Node>, dp: nat, name: Name)
    requires dp < |nodes|
  {
    && name != Dot && name != DotDot
    && match Find(nodes[dp].entries, name)
       case None => false
       case Some(x) => x < |nodes| && (nodes[x].kind == T_DIR ==> Empty(nodes[x].entries))
  }

  /** The name is gone from dp, and every other name of every directory leads where it did. */
  ghost predicate Removed(nodes: seq<Node>, dp: nat, name: Name, x: nat, nodes1: seq<Node>)
    requires dp < |nodes|
  {
    && |nodes1| == |nodes|
    && forall d: nat, n: Name {:trigger Find(nodes1[d].entries, n)} | d < |nodes| && d != x ::
         Find(nodes1[d].entries, n) == if d == dp && n == name then None else Find(nodes[d].entries, n)
  }

  /** Entry j of d is cleared, and the inode it named has one link less. */
  function WithoutEntry(nodes: seq<Node>, d: nat, j: nat): (r: seq<Node>)
    requires d < |nodes| && j < |nodes[d].entries| && nodes[d].entries[j].inum < |nodes|
    ensures |r| == |nodes|
  {
    var x := nodes[d].entries[j].inum;
    var parents := if nodes[x].kind == T_DIR then 1 else 0;
    var nodes1 := nodes[d := Node(nodes[d].kind, nodes[d].nlink - parents, nodes[d].entries[j := Entry(0, Erased)])];
    nodes1[x := nodes1[x].(nlink := nodes1[x].nlink - 1)]
  }

  /** The inodes when `left` references to i are left. */
  function Settled(nodes: seq<Node>, left: nat, i: nat): seq<Node>
    requires i < |nodes|
  {
    if nodes[i].nlink == 0 && left == 0 then nodes[i := Node(0, 0, [])] else nodes
  }

  lemma NotSelf(nodes: seq<Node>, d: nat, j: nat, x: nat)
    requires Tree(nodes) && j >= 2 && Names(nodes, d, j, x)
    ensures x != d && x < |nodes| && nodes[x].nlink > 0
  {
    assert DirOk(nodes, d);
    NamedInUse(nodes, d, j, x);
  }

  /** The first two entries are "." and "..". */
  lemma NotDots(nodes: seq<Node>, d: nat, j: nat)
    requires Tree(nodes) && Linked(nodes, d) && j < |nodes[d].entries|
    requires nodes[d].entries[j].name != Dot && nodes[d].entries[j].name != DotDot
    ensures j >= 2
  {
    assert NamesDistinct(nodes[d].entries);
  }

  lemma EntryOfDir(nodes: seq<Node>, d: nat, j: nat, x: nat)
    requires Tree(nodes) && j >= 2 && Names(nodes, d, j, x) && x < |nodes|
    requires nodes[x].kind == T_DIR ==> Empty(nodes[x].entries)
    ensures x != d && nodes[x].nlink > 0 && nodes[d].nlink > (if nodes[x].kind == T_DIR then 1 else 0)
    ensures nodes[x].kind == T_DIR ==> nodes[x].nlink == 1
  {
    NamedInUse(nodes, d, j, x);
    if nodes[x].kind == T_DIR { EmptyDir(nodes, d, j, x); }
  }

  lemma Unlinked(nodes: seq<Node>, d: nat, j: nat, x: nat, nodes1: seq<Node>)
    requires Tree(nodes) && j >= 2 && Names(nodes, d, j, x) && x < |nodes|
    requires nodes[x].kind == T_DIR ==> Empty(nodes[x].entries)
    requires nodes1 == WithoutEntry(nodes, d, j)
    ensures nodes1[x].nlink == nodes[x].nlink - 1 && (nodes[x].kind == T_DIR ==> nodes1[x].nlink == 0)
    ensures Tree(nodes1) && Removed(nodes, d, nodes[d].entries[j].name, x, nodes1)
  {
    EntryOfDir(nodes, d, j, x);
    if nodes[x].kind == T_DIR {
      DirUnlinked(nodes, d, j, x, nodes1);
    } else {
      FileUnlinked(nodes, d, j, x, nodes1);
    }
    assert NamesDistinct(nodes[d].entries);
    forall n: Name
      ensures Find(nodes1[d].entries, n) == if n == nodes[d].entries[j].name then None else Find(nodes[d].entries, n)
    {
      FindRemoved(nodes[d].entries, j, nodes1[d].entries[j], n, 0);
    }
  }

  // ----- What sys_link promises

  /** dp has one name more, for x, and every other name of every directory leads where it did. */
  ghost predicate NameAdded(nodes: seq<Node>, dp: nat, name: Name, x: nat, nodes1: seq<Node>)
    requires dp < |nodes|
  {
    && |nodes1| == |nodes| && x < |nodes| && nodes1[x] == nodes[x].(nlink := nodes[x].nlink + 1)
    && forall d: nat, n: Name {:trigger Find(nodes1[d].entries, n)} | d < |nodes| ::
         Find(nodes1[d].entries, n) == if d == dp && n == name then Some(x) else Find(nodes[d].entries, n)
  }

  lemma LinkedMaps(nodes: seq<Node>, d: nat, j: nat, name: Name, x: nat, nodes1: seq<Node>)
    requires x < |nodes| && FileStep(nodes, d, j, name, x, nodes[x].kind, nodes1) && nodes[x].entries == []
    ensures NameAdded(nodes, d, name, x, nodes1)
  {
    forall n: Name { FindAdded(nodes[d].entries, j, Entry(x, name), n, 0); }
  }

  // ----- References

  /** An inode stays in use as long as it has links or references, and no longer. */
  ghost predicate Refs(nodes: seq<Node>, ref: seq<nat>, valid: seq<bool>) {
    && |ref| == |valid| == |nodes|
    && forall i: nat {:trigger nodes[i]} {:trigger ref[i]} | i < |nodes| ::
         && (nodes[i].kind != 0 <==> nodes[i].nlink > 0 || ref[i] > 0)
         && (nodes[i].nlink == 0 && ref[i] > 0 ==> valid[i])
  }

  /** Refs after a step that leaves inode i with the given record. */
  lemma RefsAt(nodes: seq<Node>, ref: seq<nat>, valid: seq<bool>, nodes1: seq<Node>, ref1: seq<nat>, valid1: seq<bool>,
               i: nat)
    requires Refs(nodes, ref, valid) && |nodes1| == |ref1| == |valid1| == |nodes| && i < |nodes|
    requires forall k: nat {:trigger nodes1[k]} | k < |nodes| && k != i ::
               nodes1[k].kind == nodes[k].kind && nodes1[k].nlink == nodes[k].nlink && ref1[k] == ref[k]
                   && (ref[k] > 0 ==> valid1[k] == valid[k])
    requires nodes1[i].kind != 0 <==> nodes1[i].nlink > 0 || ref1[i] > 0
    requires nodes1[i].nlink == 0 && ref1[i] > 0 ==> valid1[i]
    ensures Refs(nodes1, ref1, valid1)
  {
  }

  // ----- System calls

  /** A call; names are what namex leaves in its 14 bytes. */
  datatype Op =
    | Create(dp: nat, name: Field, kind: int)
    | Link(ip: nat, parent: Option<nat>, name: Field)
    | Unlink(dp: nat, name: Field)
    | Open(dp: nat, name: Field)
    | Close(ip: nat)

  /** The inodes, the references to them in memory and their I_VALID flags. */
  datatype State = State(nodes: seq<Node>, ref: seq<nat>, valid: seq<bool>)

  ghost predicate StateOk(s: State) {
    Tree(s.nodes) && Refs(s.nodes, s.ref, s.valid)
  }

  /** Calls in a directory that is linked, links to an inode that is linked, closing what is open. */
  predicate Possible(nodes: seq<Node>, ref: seq<nat>, op: Op) {
    match op
    case Create(dp, _, kind) => Linked(nodes, dp) && kind in {T_DIR, T_FILE, T_DEV}
    case Link(ip, parent, _) => ip < |nodes| && 0 < nodes[ip].nlink < SHRT_MAX
        && (parent.Some? ==> Linked(nodes, parent.value))
    case Unlink(dp, _) => Linked(nodes, dp)
    case Open(dp, _) => Linked(nodes, dp)
    case Close(ip) => ip < |nodes| && ip < |ref| && ref[ip] > 0
  }

  /** A new name is to be entered. */
  predicate Enters(nodes: seq<Node>, ip: nat, parent: Option<nat>, name: Name) {
    && ip < |nodes| && nodes[ip].kind != T_DIR && parent.Some? && parent.value < |nodes|
    && Find(nodes[parent.value].entries, name).None?
  }

  /** The kernel stops: for a new name there is no inode, or no room in its directory. */
  ghost predicate Panics(nodes: seq<Node>, op: Op) {
    match op
    case Create(dp, name, _) =>
      dp < |nodes| && Find(nodes[dp].entries, NameOf(name)).None? && (NoFreeInode(nodes) || Full(nodes[dp].entries))
    case Link(ip, parent, name) => Enters(nodes, ip, parent, NameOf(name)) && Full(nodes[parent.value].entries)
    case Unlink(_, _) => false
    case Open(_, _) => false
    case Close(_) => false
  }

  /** The reference to dp is gone and there is one to r. */
  ghost predicate RefsMoved(ref: seq<nat>, dp: nat, r: Option<nat>, ref1: seq<nat>)
    requires |ref1| == |ref|
  {
    forall i: nat {:trigger ref1[i]} | i < |ref1| ::
      ref1[i] + (if i == dp then 1 else 0) == ref[i] + if r == Some(i) then 1 else 0
  }

  lemma HeldAndMoved(ref: seq<nat>, dp: nat, r: Option<nat>, ref1: seq<nat>)
    requires dp < |ref| == |ref1| && RefsMoved(ref[dp := ref[dp] + 1], dp, r, ref1)
    ensures ref1 == if r.Some? then Raised(ref, r.value) else ref
  {
  }

  function Raised(ref: seq<nat>, i: nat): seq<nat> {
    if i < |ref| then ref[i := ref[i] + 1] else ref
  }

  /** create gives an existing file, another existing inode (and 0), or a new inode. */
  ghost predicate CreateStep(s: State, dp: nat, name: Name, kind: int, t: State)
    requires dp < |s.nodes|
  {
    match Find(s.nodes[dp].entries, name)
    case Some(x) =>
      && x < |s.nodes| && t.nodes == s.nodes
      && t.ref == if kind == T_FILE && s.nodes[x].kind == T_FILE then Raised(s.ref, x) else s.ref
    case None =>
      exists j: nat, x: nat {:trigger NewEntry(s.nodes, dp, j, name, kind, x, t.nodes)} ::
        NewEntry(s.nodes, dp, j, name, kind, x, t.nodes) && t.ref == Raised(s.ref, x)
  }

  ghost predicate LinkStep(nodes: seq<Node>, ip: nat, parent: Option<nat>, name: Name, nodes1: seq<Node>)
    requires ip < |nodes|
  {
    if Enters(nodes, ip, parent, name)
    then exists j: nat {:trigger FileStep(nodes, parent.value, j, name, ip, nodes[ip].kind, nodes1)} ::
           FileStep(nodes, parent.value, j, name, ip, nodes[ip].kind, nodes1)
    else nodes1 == nodes
  }

  /** The entry j of d with that name is cleared; its inode goes when nothing else leads to it. */
  ghost predicate ErasedAt(nodes: seq<Node>, ref: seq<nat>, d: nat, name: Name, j: nat, nodes1: seq<Node>) {
    && |ref| == |nodes| && d < |nodes| && 2 <= j < |nodes[d].entries| && nodes[d].entries[j].name == name
    && var x := nodes[d].entries[j].inum;
       0 < x < |nodes| && nodes1 == Settled(WithoutEntry(nodes, d, j), ref[x], x)
  }

  lemma SameErased(nodes: seq<Node>, ref: seq<nat>, ref1: seq<nat>, d: nat, name: Name, j: nat, nodes1: seq<Node>)
    requires ErasedAt(nodes, ref, d, name, j, nodes1) && nodes[d].entries[j].inum != d && |ref1| == |ref|
    requires forall i: nat {:trigger ref1[i]} | i < |ref| && i != d :: ref1[i] == ref[i]
    ensures ErasedAt(nodes, ref1, d, name, j, nodes1)
  {
  }

  ghost predicate UnlinkedOnce(s: State, dp: nat, name: Name, nodes1: seq<Node>)
    requires dp < |s.nodes|
  {
    if Removable(s.nodes, dp, name)
    then exists j: nat {:trigger ErasedAt(s.nodes, s.ref, dp, name, j, nodes1)} ::
        ErasedAt(s.nodes, s.ref, dp, name, j, nodes1)
    else nodes1 == s.nodes
  }

  ghost predicate Next(s: State, op: Op, t: State) {
    && Possible(s.nodes, s.ref, op) && !Panics(s.nodes, op)
    && match op
       case Create(dp, name, kind) => CreateStep(s, dp, NameOf(name), kind, t)
       case Link(ip, parent, name) => t.ref == s.ref && LinkStep(s.nodes, ip, parent, NameOf(name), t.nodes)
       case Unlink(dp, name) => t.ref == s.ref && UnlinkedOnce(s, dp, NameOf(name), t.nodes)
       case Open(dp, name) =>
         && t.nodes == s.nodes
         && t.ref == match Find(s.nodes[dp].entries, NameOf(name)) { case Some(x) => Raised(s.ref, x) case None =>
                                                                    s.ref }
       case Close(ip) =>
           && t.ref == s.ref[ip := s.ref[ip] - 1] && ip < |s.nodes|
           && t.nodes == Settled(s.nodes, t.ref[ip], ip)
  }

  /** The tree that mkfs makes: a root directory without other entries. */
  function Fresh(ninodes: nat): (nodes: seq<Node>)
    ensures |nodes| == ninodes
  {
    seq(ninodes, i => if i == ROOTINO then Node(T_DIR, 1, [Entry(ROOTINO, Dot), Entry(ROOTINO, DotDot)])
        else Node(0, 0, []))
  }

  lemma FreshTree(nodes: seq<Node>)
    requires |nodes| > ROOTINO && nodes[ROOTINO] == Node(T_DIR, 1, [Entry(ROOTINO, Dot), Entry(ROOTINO, DotDot)])
    requires forall i: nat {:trigger nodes[i]} | i < |nodes| && i != ROOTINO :: nodes[i] == Node(0, 0, [])
    ensures Tree(nodes)
  {
    assert forall e: nat, k: nat, i: nat {:trigger Names(nodes, e, k, i)} ::
        Names(nodes, e, k, i) <==> e == ROOTINO && k == 1 && i == ROOTINO;
    assert Places(nodes, ROOTINO) == {(ROOTINO, 1)};
    forall i: nat | i < |nodes| && i != ROOTINO ensures Places(nodes, i) == {} {}
    DotsDiffer();
  }

  /** Each state follows from the one before by its call, or is the same when the call is not
      possible; and all are sound. */
  ghost predicate IsRun(ninodes: nat, t: Trace<State, Op>) {
    && StateOk(t.s)
    && match t
       case Begin(s) => s.nodes == Fresh(ninodes) && forall i: nat | i < |s.ref| :: s.ref[i] == 0
       case Then(past, op, s) =>
         IsRun(ninodes, past) && if Possible(past.s.nodes, past.s.ref, op) then Next(past.s, op, s) else s == past.s
  }

  class FileTree {
    var nodes: seq<Node>
    var ref: seq<nat> // in-core references
    var valid: seq<bool> // I_VALID of the in-core inode

    ghost predicate Valid()
      reads this
    {
      Tree(nodes) && Refs(nodes, ref, valid)
    }

    ghost function Now(): State
      reads this
    {
      State(nodes, ref, valid)
    }

    constructor (ninodes: nat)
      requires ninodes > ROOTINO
      ensures Valid() && IsRun(ninodes, Begin(Now()))
    {
      nodes, ref, valid := Fresh(ninodes), seq(ninodes, _ => 0), seq(ninodes, _ => false);
      new;
      FreshTree(nodes);
    }

    ghost predicate Sized()
      reads this
    {
      |ref| == |valid| == |nodes|
    }

    /** iget and idup */
    method IGet(i: nat)
      requires Sized() && i < |nodes|
      modifies this`ref, this`valid
      ensures Sized() && ref == old(ref)[i := old(ref)[i] + 1]
              && valid == old(valid)[i := old(valid)[i] && old(ref)[i] > 0]
    {
      if ref[i] == 0 { valid := valid[i := false]; }
      ref := ref[i := ref[i] + 1];
    }

    /** ilock; it panics on a free inode. */
    method ILock(i: nat)
      requires Sized() && i < |nodes| && ref[i] > 0 && nodes[i].kind != 0
      modifies this`valid
      ensures Sized() && valid == old(valid)[i := true]
    {
      valid := valid[i := true];
    }

    /** iput */
    method IPut(i: nat)
      requires Sized() && i < |nodes| && ref[i] > 0
      modifies this`nodes, this`ref, this`valid
      ensures Sized() && ref == old(ref)[i := old(ref)[i] - 1]
      ensures if old(ref)[i] == 1 && old(valid)[i] && old(nodes)[i].nlink == 0
              then nodes == old(nodes)[i := Node(0, 0, [])] && valid == old(valid)[i := false]
              else nodes == old(nodes) && valid == old(valid)
    {
      if ref[i] == 1 && valid[i] && nodes[i].nlink == 0 {
        nodes := nodes[i := Node(0, 0, [])];
        valid := valid[i := false];
      }
      ref := ref[i := ref[i] - 1];
    }

    /** dirlookup */
    method DirLookup(dp: nat, name: Field) returns (r: Option<nat>, off: nat)
      requires Sized() && dp < |nodes| && nodes[dp].kind == T_DIR
      requires forall j: nat {:trigger nodes[dp].entries[j]} | j < |nodes[dp].entries| ::
               nodes[dp].entries[j].inum < |nodes|
      modifies this`ref, this`valid
      ensures r == Find(nodes[dp].entries, NameOf(name))
      ensures r.None? ==> NoSuchName(nodes[dp].entries, NameOf(name)) && ref == old(ref) && valid == old(valid)
      ensures r.Some? ==>
                && off < |nodes[dp].entries| && nodes[dp].entries[off] == Entry(r.value, NameOf(name))
                   && 0 < r.value < |nodes|
                && Sized() && ref == old(ref)[r.value := old(ref)[r.value] + 1]
                && valid == old(valid)[r.value := old(valid)[r.value] && old(ref)[r.value] > 0]
    {
      r, off := Scan(nodes[dp].entries, name);
      if r.Some? { IGet(r.value); }
    }

    /** The search of dirlookup, which compares the 14 bytes. */
    method Scan(entries: seq<Entry>, name: Field) returns (r: Option<nat>, off: nat)
      ensures r == Find(entries, NameOf(name))
      ensures if r.None? then NoSuchName(entries, NameOf(name))
              else off < |entries| && entries[off] == Entry(r.value, NameOf(name)) && r.value != 0
    {
      ghost var n := NameOf(name);
      for j := 0 to |entries|
        invariant forall k: nat {:trigger entries[k]} | k < j && entries[k].inum != 0 :: entries[k].name != n
      {
        NamesAgree(name, entries[j].name);
        if entries[j].inum != 0 && NameCmp(name, entries[j].name.bytes) {
          FoundAt(entries, n, 0, j);
          return Some(entries[j].inum), j;
        }
      }
      NotFound(entries, n, 0);
      return None, 0;
    }

    /** dirlink; ok is false when the directory cannot grow, which is a panic. */
    method DirLink(dp: nat, name: Field, inum: nat) returns (ok: bool, r: int, ghost j: nat)
      requires Sized() && dp < |nodes| && nodes[dp].kind == T_DIR
      requires forall k: nat {:trigger nodes[dp].entries[k]} | k < |nodes[dp].entries| ::
                 nodes[dp].entries[k].inum < |nodes| && (nodes[dp].entries[k].inum != 0
                                                         ==> nodes[nodes[dp].entries[k].inum].nlink > 0)
      modifies this`nodes, this`ref, this`valid
      ensures Sized() && ref == old(ref) && forall i: nat {:trigger valid[i]} | i < |valid| && ref[i] > 0 ::
              valid[i] == old(valid)[i]
      ensures !ok <==> Find(old(nodes)[dp].entries, NameOf(name)).None? && Full(old(nodes)[dp].entries)
      ensures ok ==> r == if Find(old(nodes)[dp].entries, NameOf(name)).None? then 0 else -1
      ensures ok && r == -1 ==> nodes == old(nodes)
      ensures ok && r == 0 ==>
                && NoSuchName(old(nodes)[dp].entries, NameOf(name)) && FirstFree(old(nodes)[dp].entries, j)
                && nodes == old(nodes)[dp := old(nodes)[dp].(entries :=
                                                             WithEntry(old(nodes)[dp].entries, j,
                                                                       Entry(inum, NameOf(name))))]
    {
      var x, _ := DirLookup(dp, name);
      if x.Some? {
        IPut(x.value);
        return true, -1, 0;
      }
      var off := EmptySlot(nodes[dp].entries);
      if off >= MAXENTRIES { return false, 0, off; }
      nodes := nodes[dp := nodes[dp].(entries := WithEntry(nodes[dp].entries, off, Entry(inum, NameOf(name))))];
      return true, 0, off;
    }

    /** The search of dirlink. */
    method EmptySlot(entries: seq<Entry>) returns (off: nat)
      ensures FirstFree(entries, off) && (off >= MAXENTRIES <==> Full(entries))
    {
      off := 0;
      while off < |entries| && entries[off].inum != 0
        invariant off <= |entries|
        invariant forall k: nat {:trigger entries[k]} | k < off :: entries[k].inum != 0
      {
        off := off + 1;
      }
      assert off < |entries| ==> entries[off].inum == 0;
    }

    /** isdirempty */
    method IsDirEmpty(dp: nat) returns (r: bool)
      requires dp < |nodes|
      ensures r <==> Empty(nodes[dp].entries)
    {
      var j := 2;
      while j < |nodes[dp].entries|
        invariant forall k: nat {:trigger nodes[dp].entries[k]} | 2 <= k < j && k < |nodes[dp].entries| ::
                  nodes[dp].entries[k].inum == 0
      {
        if nodes[dp].entries[j].inum != 0 { return false; }
        j := j + 1;
      }
      r := true;
    }

    /** ialloc; it panics when no inode is free. */
    method IAlloc(kind: int) returns (r: Option<nat>)
      requires Sized() && kind != 0
      modifies this`nodes, this`ref, this`valid
      ensures r.None? <==> NoFreeInode(old(nodes))
      ensures r.Some? ==>
                && 0 < r.value < |old(nodes)| && old(nodes)[r.value].kind == 0 && Sized()
                && nodes == old(nodes)[r.value := Node(kind, 0, [])]
                && ref == old(ref)[r.value := old(ref)[r.value] + 1]
                && valid == old(valid)[r.value := old(valid)[r.value] && old(ref)[r.value] > 0]
    {
      var inum := 1;
      while inum < |nodes|
        invariant nodes == old(nodes) && ref == old(ref) && valid == old(valid)
        invariant 0 < inum && forall i: nat {:trigger nodes[i]} | 0 < i < inum && i < |nodes| :: nodes[i].kind != 0
      {
        if nodes[inum].kind == 0 {
          nodes := nodes[inum := Node(kind, 0, [])];
          IGet(inum);
          return Some(inum);
        }
        inum := inum + 1;
      }
      r := None;
    }

    /** create when the name exists already. */
    method Existing(dp: nat, x: nat, kind: int) returns (r: Option<nat>)
      requires Valid() && Linked(nodes, dp) && ref[dp] > 0 && x < |nodes| && nodes[x].nlink > 0
               && (x == dp ==> ref[dp] > 1) && ref[x] > 0
      modifies this`nodes, this`ref, this`valid
      ensures Valid() && nodes == old(nodes)
      ensures r == if kind == T_FILE && nodes[x].kind == T_FILE then Some(x) else None
      ensures var ref1 := old(ref)[dp := old(ref)[dp] - 1];
              ref == if r.Some? then ref1 else ref1[x := ref1[x] - 1]
    {
      IPut(dp);
      ILock(x);
      if kind == T_FILE && nodes[x].kind == T_FILE { return Some(x); }
      IPut(x);
      r := None;
    }

    /** create when the name is new; kind is a file or a device. */
    method NewFile(dp: nat, name: Field, kind: int) returns (ok: bool, x: nat, ghost j: nat)
      requires Valid() && Linked(nodes, dp) && ref[dp] > 0 && kind != 0 && kind != T_DIR
      requires NoSuchName(nodes[dp].entries, NameOf(name))
      modifies this`nodes, this`ref, this`valid
      ensures ok <==> !NoFreeInode(old(nodes)) && !Full(old(nodes)[dp].entries)
      ensures ok ==> Valid() && x < |old(nodes)| && NewEntry(old(nodes), dp, j, NameOf(name), kind, x, nodes)
      ensures ok ==> ref == old(ref)[x := 1][dp := old(ref)[dp] - 1]
    {
      ok, x, j := NewInode(dp, name, kind);
      if ok {
        FileLinked(old(nodes), dp, j, NameOf(name), x, kind, nodes);
        IPut(dp);
      }
    }

    /** ialloc, the new inode's link and dirlink, all of them with the directory held. */
    method NewInode(dp: nat, name: Field, kind: int) returns (ok: bool, x: nat, ghost j: nat)
      requires Valid() && Linked(nodes, dp) && ref[dp] > 0 && kind != 0 && kind != T_DIR
      requires NoSuchName(nodes[dp].entries, NameOf(name))
      modifies this`nodes, this`ref, this`valid
      ensures ok <==> !NoFreeInode(old(nodes)) && !Full(old(nodes)[dp].entries)
      ensures ok ==> x < |old(nodes)| && NewEntry(old(nodes), dp, j, NameOf(name), kind, x, nodes)
      ensures ok ==> ref == old(ref)[x := 1] && Refs(nodes, ref, valid)
    {
      EntriesLive(nodes, dp);
      NotFound(nodes[dp].entries, NameOf(name), 0);
      var i := IAlloc(kind);
      if i.None? { return false, 0, 0; }
      x := i.value;
      ILock(x);
      nodes := nodes[x := nodes[x].(nlink := 1)];
      var r;
      ok, r, j := DirLink(dp, name, x);
      if ok { FirstTwoUsed(old(nodes), dp, j); }
    }

    /** create of a directory whose name is new. */
    method NewDir(dp: nat, name: Field) returns (ok: bool, x: nat, ghost j: nat)
      requires Valid() && Linked(nodes, dp) && ref[dp] > 0 && NoSuchName(nodes[dp].entries, NameOf(name))
      modifies this`nodes, this`ref, this`valid
      ensures ok <==> !NoFreeInode(old(nodes)) && !Full(old(nodes)[dp].entries)
      ensures ok ==> Valid() && x < |old(nodes)| && NewEntry(old(nodes), dp, j, NameOf(name), T_DIR, x, nodes)
      ensures ok ==> ref == old(ref)[x := 1][dp := old(ref)[dp] - 1]
    {
      ok, x, j := NewDirInode(dp, name);
      if ok {
        DirCreated(old(nodes), dp, j, NameOf(name), x, nodes);
        IPut(dp);
      }
    }

    method NewDirInode(dp: nat, name: Field) returns (ok: bool, x: nat, ghost j: nat)
      requires Valid() && Linked(nodes, dp) && ref[dp] > 0 && NoSuchName(nodes[dp].entries, NameOf(name))
      modifies this`nodes, this`ref, this`valid
      ensures ok <==> !NoFreeInode(old(nodes)) && !Full(old(nodes)[dp].entries)
      ensures ok ==> dp != 0 && x < |old(nodes)| && NewEntry(old(nodes), dp, j, NameOf(name), T_DIR, x, nodes)
      ensures ok ==> ref == old(ref)[x := 1] && Refs(nodes, ref, valid)
    {
      EntriesLive(nodes, dp);
      NotFound(nodes[dp].entries, NameOf(name), 0);
      var i := MakeDir(dp);
      if i.None? { return false, 0, 0; }
      x := i.value;
      var r;
      ok, r, j := DirLink(dp, name, x);
      if ok { FirstTwoUsed(old(nodes), dp, j); }
    }

    /** The directory itself, and its link to dp. */
    method MakeDir(dp: nat) returns (r: Option<nat>)
      requires Sized() && dp < |nodes| && nodes[dp].kind != 0
      modifies this`nodes, this`ref, this`valid
      ensures r.None? <==> NoFreeInode(old(nodes))
      ensures r.Some? ==>
                var x := r.value;
                && 0 < x < |old(nodes)| && old(nodes)[x].kind == 0 && Sized() && ref == old(ref)[x := old(ref)[x] + 1]
                   && valid[x]
                && nodes == old(nodes)[x := Node(T_DIR, 1, [Entry(x, Dot), Entry(dp, DotDot)])]
                                      [dp := old(nodes)[dp].(nlink := old(nodes)[dp].nlink + 1)]
                && forall i: nat {:trigger valid[i]} | i < |valid| && i != x && ref[i] > 0 :: valid[i] == old(valid)[i]
    {
      r := IAlloc(T_DIR);
      if r.Some? {
        var x := r.value;
        ILock(x);
        nodes := nodes[x := nodes[x].(nlink := 1)][dp := nodes[dp].(nlink := nodes[dp].nlink + 1)];
        Dots(x, dp);
      }
    }

    /** The entries "." and ".." of a new directory. */
    method Dots(x: nat, dp: nat)
      requires Sized() && x < |nodes| && dp < |nodes| && x != 0 && nodes[x] == Node(T_DIR, 1, [])
      modifies this`nodes, this`ref, this`valid
      ensures Sized() && ref == old(ref) && forall i: nat {:trigger valid[i]} | i < |valid| && ref[i] > 0 ::
              valid[i] == old(valid)[i]
      ensures nodes == old(nodes)[x := Node(T_DIR, 1, [Entry(x, Dot), Entry(dp, DotDot)])]
    {
      var ok, r, j := DirLink(x, Short("."), x);
      assert nodes[x].entries == [Entry(x, Dot)];
      DotsDiffer();
      NotFound(nodes[x].entries, DotDot, 0);
      ok, r, j := DirLink(x, Short(".."), dp);
      assert nodes[x].entries == [Entry(x, Dot), Entry(dp, DotDot)];
    }

    /** create; it gives a referenced inode or none, and drops the reference to dp.
        ok is false for a panic: no free inode, or a directory of full size. */
    method Create(dp: nat, name: Field, kind: int) returns (ok: bool, r: Option<nat>, ghost j: nat)
      requires Valid() && Linked(nodes, dp) && ref[dp] > 0 && kind in {T_DIR, T_FILE, T_DEV}
      modifies this`nodes, this`ref, this`valid
      ensures var was := Find(old(nodes)[dp].entries, NameOf(name));
              && (ok <==> was.Some? || !(NoFreeInode(old(nodes)) || Full(old(nodes)[dp].entries)))
              && (was.Some? ==> nodes == old(nodes)
                                && was.value < |nodes| && r == if kind == T_FILE && nodes[was.value].kind == T_FILE
                                   then was else None)
              && (was.None? && ok ==> r.Some? && NewEntry(old(nodes), dp, j, NameOf(name), kind, r.value, nodes)
                                      && Created(old(nodes), dp, NameOf(name), kind, r.value, nodes))
      ensures ok ==> Valid() && |ref| == |old(ref)| && RefsMoved(old(ref), dp, r, ref)
    {
      EntriesLive(nodes, dp);
      var x, _ := DirLookup(dp, name);
      if x.Some? {
        r := Existing(dp, x.value, kind);
        return true, r, 0;
      }
      var i: nat;
      ok, i, j := CreateNew(dp, name, kind);
      r := Some(i);
    }

    /** create after dirlookup has found nothing. */
    method CreateNew(dp: nat, name: Field, kind: int) returns (ok: bool, x: nat, ghost j: nat)
      requires Valid() && Linked(nodes, dp) && ref[dp] > 0 && kind in {T_DIR, T_FILE, T_DEV}
      requires NoSuchName(nodes[dp].entries, NameOf(name))
      modifies this`nodes, this`ref, this`valid
      ensures ok <==> !NoFreeInode(old(nodes)) && !Full(old(nodes)[dp].entries)
      ensures ok ==> Valid() && |ref| == |old(ref)| && RefsMoved(old(ref), dp, Some(x), ref)
      ensures ok ==>
              && NewEntry(old(nodes), dp, j, NameOf(name), kind, x, nodes)
              && Created(old(nodes), dp, NameOf(name), kind, x, nodes)
    {
      if kind == T_DIR {
        ok, x, j := NewDir(dp, name);
      } else {
        ok, x, j := NewFile(dp, name, kind);
      }
      if ok {
        EntriesLive(old(nodes), dp);
        EntryCreated(old(nodes), dp, j, NameOf(name), kind, x, nodes);
      }
    }

    /** sys_unlink below its argument checks; it drops the reference to dp. */
    method Unlink(dp: nat, name: Field) returns (r: int, ghost off: nat)
      requires Valid() && Linked(nodes, dp) && ref[dp] > 0
      modifies this`nodes, this`ref, this`valid
      ensures Valid() && ref == old(ref)[dp := old(ref)[dp] - 1]
      ensures r == if Removable(old(nodes), dp, NameOf(name)) then 0 else -1
      ensures r == -1 ==> nodes == old(nodes)
      ensures r == 0 ==>
                && ErasedAt(old(nodes), old(ref), dp, NameOf(name), off, nodes)
                   && old(nodes)[dp].entries[off].inum != dp
                && Removed(old(nodes), dp, NameOf(name), old(nodes)[dp].entries[off].inum, nodes)
    {
      NamesAgree(name, Dot);
      NamesAgree(name, DotDot);
      if NameCmp(name, Dot.bytes) || NameCmp(name, DotDot.bytes) {
        IPut(dp);
        return -1, 0;
      }
      r, off := UnlinkNamed(dp, name);
    }

    method UnlinkNamed(dp: nat, name: Field) returns (r: int, ghost off: nat)
      requires Valid() && Linked(nodes, dp) && ref[dp] > 0 && NameOf(name) != Dot && NameOf(name) != DotDot
      modifies this`nodes, this`ref, this`valid
      ensures Valid() && ref == old(ref)[dp := old(ref)[dp] - 1]
      ensures r == if Removable(old(nodes), dp, NameOf(name)) then 0 else -1
      ensures r == -1 ==> nodes == old(nodes)
      ensures r == 0 ==>
                && ErasedAt(old(nodes), old(ref), dp, NameOf(name), off, nodes)
                   && old(nodes)[dp].entries[off].inum != dp
                && Removed(old(nodes), dp, NameOf(name), old(nodes)[dp].entries[off].inum, nodes)
    {
      EntriesLive(nodes, dp);
      var ip, j := DirLookup(dp, name);
      if ip.None? {
        IPut(dp);
        return -1, 0;
      }
      NotDots(nodes, dp, j);
      assert Names(nodes, dp, j, ip.value);
      NotSelf(nodes, dp, j, ip.value);
      r := UnlinkFound(dp, j, ip.value);
      off := j;
    }

    /** The part of sys_unlink after dirlookup: entry off of dp names i. */
    method UnlinkFound(dp: nat, off: nat, i: nat) returns (r: int)
      requires Valid() && Linked(nodes, dp) && off >= 2 && Names(nodes, dp, off, i) && i < |nodes| && nodes[i].nlink > 0
      requires i != dp && ref[dp] > 0 && ref[i] > 0
      modifies this`nodes, this`ref, this`valid
      ensures Valid() && ref == old(ref)[dp := old(ref)[dp] - 1][i := old(ref)[i] - 1]
      ensures r == if old(nodes)[i].kind == T_DIR && !Empty(old(nodes)[i].entries) then -1 else 0
      ensures r == -1 ==> nodes == old(nodes)
      ensures r == 0 ==>
                && nodes == Settled(WithoutEntry(old(nodes), dp, off), ref[i], i)
                && Removed(old(nodes), dp, old(nodes)[dp].entries[off].name, i, nodes)
    {
      ILock(i);
      var empty := IsDirEmpty(i);
      if nodes[i].kind == T_DIR && !empty {
        IPut(i);
        IPut(dp);
        return -1;
      }
      Erase(dp, off, i);
      r := 0;
    }

    /** The part of sys_unlink that changes the disk: entry off of dp, which names i, goes. */
    method Erase(dp: nat, off: nat, i: nat)
      requires Tree(nodes) && Linked(nodes, dp) && Sized() && off >= 2 && Names(nodes, dp, off, i) && i < |nodes|
      requires nodes[i].kind == T_DIR ==> Empty(nodes[i].entries)
      requires ref[dp] > 0 && ref[i] > 0 && valid[i] && Refs(nodes, ref[i := ref[i] - 1], valid)
      modifies this`nodes, this`ref, this`valid
      ensures Valid() && i != dp && ref == old(ref)[dp := old(ref)[dp] - 1][i := old(ref)[i] - 1]
      ensures nodes == Settled(WithoutEntry(old(nodes), dp, off), ref[i], i)
      ensures Removed(old(nodes), dp, old(nodes)[dp].entries[off].name, i, nodes)
    {
      EntryOfDir(nodes, dp, off, i);
      Unlinked(nodes, dp, off, i, WithoutEntry(nodes, dp, off));
      nodes := nodes[dp := nodes[dp].(entries := nodes[dp].entries[off := Entry(0, Erased)])];
      if nodes[i].kind == T_DIR { nodes := nodes[dp := nodes[dp].(nlink := nodes[dp].nlink - 1)]; }
      IPut(dp);
      nodes := nodes[i := nodes[i].(nlink := nodes[i].nlink - 1)];
      assert nodes == WithoutEntry(old(nodes), dp, off);
      if nodes[i].nlink == 0 { Freed(nodes, i, nodes[i := Node(0, 0, [])]); }
      IPut(i);
    }

    /** sys_link after both lookups: ip is what namei found, parent what nameiparent found.
        ok is false for the panic of a directory of full size. */
    method Link(ip: nat, parent: Option<nat>, name: Field) returns (ok: bool, r: int, ghost j: nat)
      requires Valid() && ip < |nodes| && ref[ip] > 0 && nodes[ip].nlink < SHRT_MAX
      requires nodes[ip].kind != T_DIR && parent.Some? ==> Linked(nodes, parent.value) && ref[parent.value] > 0
      modifies this`nodes, this`ref, this`valid
      ensures !ok <==> Enters(old(nodes), ip, parent, NameOf(name)) && Full(old(nodes)[parent.value].entries)
      ensures ok ==> Valid() && |ref| == |old(ref)| && r == if Enters(old(nodes), ip, parent, NameOf(name)) then 0
              else -1
      ensures ok && r == 0 ==>
                && FileStep(old(nodes), parent.value, j, NameOf(name), ip, old(nodes)[ip].kind, nodes)
                && NameAdded(old(nodes), parent.value, NameOf(name), ip, nodes)
      ensures ok && r == -1 ==> nodes == Settled(old(nodes), ref[ip], ip)
      ensures ok ==> forall i: nat {:trigger ref[i]} | i < |ref| ::
                ref[i] == old(ref)[i] - (if i == ip then 1 else 0)
                                      - if old(nodes)[ip].kind != T_DIR && parent == Some(i) then 1 else 0
    {
      ILock(ip);
      if nodes[ip].kind == T_DIR {
        Drop(ip);
        return true, -1, 0;
      }
      ok, r, j := LinkFile(ip, parent, name);
    }

    /** sys_link after its test of the type. */
    method LinkFile(ip: nat, parent: Option<nat>, name: Field) returns (ok: bool, r: int, ghost j: nat)
      requires Valid() && ip < |nodes| && ref[ip] > 0 && nodes[ip].kind != T_DIR
      requires parent.Some? ==> Linked(nodes, parent.value) && ref[parent.value] > 0
      modifies this`nodes, this`ref, this`valid
      ensures !ok <==> Enters(old(nodes), ip, parent, NameOf(name)) && Full(old(nodes)[parent.value].entries)
      ensures ok ==> Valid() && |ref| == |old(ref)| && r == if Enters(old(nodes), ip, parent, NameOf(name)) then 0
              else -1
      ensures ok && r == 0 ==>
                && FileStep(old(nodes), parent.value, j, NameOf(name), ip, old(nodes)[ip].kind, nodes)
                && NameAdded(old(nodes), parent.value, NameOf(name), ip, nodes)
      ensures ok && r == -1 ==> nodes == Settled(old(nodes), ref[ip], ip)
      ensures ok ==> forall i: nat {:trigger ref[i]} | i < |ref| ::
                ref[i] == old(ref)[i] - (if i == ip then 1 else 0) - if parent == Some(i) then 1 else 0
    {
      nodes := nodes[ip := nodes[ip].(nlink := nodes[ip].nlink + 1)];
      r := -1;
      if parent.Some? {
        ok, r, j := Insert(parent.value, name, ip, old(nodes));
        if !ok { return; }
        IPut(parent.value);
      }
      if r == 0 {
        IPut(ip);
        return true, 0, j;
      }
      nodes := nodes[ip := nodes[ip].(nlink := nodes[ip].nlink - 1)];
      assert nodes == old(nodes);
      Drop(ip);
      return true, -1, 0;
    }

    /** The dirlink of sys_link, the link count having been raised before. */
    method Insert(dp: nat, name: Field, ip: nat, ghost nodes0: seq<Node>) returns (ok: bool, r: int, ghost j: nat)
      requires Tree(nodes0) && Linked(nodes0, dp) && 0 < ip < |nodes0| && nodes0[ip].kind != T_DIR
               && nodes0[ip].kind != 0
      requires Sized() && nodes == nodes0[ip := nodes0[ip].(nlink := nodes0[ip].nlink + 1)]
      modifies this`nodes, this`ref, this`valid
      ensures Sized() && ref == old(ref) && forall i: nat {:trigger valid[i]} | i < |valid| && ref[i] > 0 ::
              valid[i] == old(valid)[i]
      ensures !ok <==> Find(nodes0[dp].entries, NameOf(name)).None? && Full(nodes0[dp].entries)
      ensures ok ==> r == if Find(nodes0[dp].entries, NameOf(name)).None? then 0 else -1
      ensures ok && r == -1 ==> nodes == old(nodes)
      ensures ok && r == 0 ==>
                && Tree(nodes) && FileStep(nodes0, dp, j, NameOf(name), ip, nodes0[ip].kind, nodes)
                && NameAdded(nodes0, dp, NameOf(name), ip, nodes) && nodes[dp].nlink == nodes0[dp].nlink
                && forall i: nat {:trigger nodes[i]} | i < |nodes| && i != ip ::
                   nodes[i].kind == nodes0[i].kind && nodes[i].nlink == nodes0[i].nlink
    {
      EntriesLive(nodes0, dp);
      ok, r, j := DirLink(dp, name, ip);
      if ok && r == 0 {
        FirstTwoUsed(nodes0, dp, j);
        FileLinked(nodes0, dp, j, NameOf(name), ip, nodes0[ip].kind, nodes);
        LinkedMaps(nodes0, dp, j, NameOf(name), ip, nodes);
      }
    }

    /** iput by the holder of a reference: an inode goes when links and references are both gone. */
    method Drop(i: nat)
      requires Valid() && i < |nodes| && ref[i] > 0
      modifies this`nodes, this`ref, this`valid
      ensures Valid() && ref == old(ref)[i := old(ref)[i] - 1]
      ensures nodes == Settled(old(nodes), ref[i], i)
      ensures nodes[i].kind == 0 <==> nodes[i].nlink == 0 && ref[i] == 0
    {
      if nodes[i].nlink == 0 { Freed(nodes, i, nodes[i := Node(0, 0, [])]); }
      IPut(i);
      RefsAt(old(nodes), old(ref), old(valid), nodes, ref, valid, i);
    }

    /** namei or nameiparent as far as references go: another reference to an inode with links. */
    method Hold(i: nat)
      requires Valid() && i < |nodes| && nodes[i].nlink > 0
      modifies this`ref, this`valid
      ensures Valid() && ref == old(ref)[i := old(ref)[i] + 1]
    {
      IGet(i);
    }

    /** Opening by name: the inode found, with a reference. */
    method Open(dp: nat, name: Field) returns (r: Option<nat>)
      requires Valid() && Linked(nodes, dp)
      modifies this`ref, this`valid
      ensures Valid() && r == Find(nodes[dp].entries, NameOf(name))
      ensures ref == match r { case Some(x) => Raised(old(ref), x) case None => old(ref) }
    {
      EntriesLive(nodes, dp);
      var off: nat;
      r, off := DirLookup(dp, name);
    }

    /** One system call; false for a panic.  Calls in a removed directory and on inodes nobody
        holds are left out. */
    method Perform(op: Op) returns (ok: bool)
      requires Valid()
      modifies this
      ensures ok <==> !(Possible(old(nodes), old(ref), op) && Panics(old(nodes), op))
      ensures ok ==> Valid()
      ensures ok ==> if Possible(old(nodes), old(ref), op) then Next(old(Now()), op, Now()) else Now() == old(Now())
    {
      ok := true;
      if Possible(nodes, ref, op) {
        if op.Create? {
          ok := PerformCreate(op.dp, op.name, op.kind);
        } else if op.Link? {
          ok := PerformLink(op.ip, op.parent, op.name);
        } else if op.Unlink? {
          PerformUnlink(op.dp, op.name);
        } else {
          PerformOther(op);
        }
      }
    }

    method PerformCreate(dp: nat, name: Field, kind: int) returns (ok: bool)
      requires Valid() && Possible(nodes, ref, Op.Create(dp, name, kind))
      modifies this
      ensures ok <==> !Panics(old(nodes), Op.Create(dp, name, kind))
      ensures ok ==> Valid() && Next(old(Now()), Op.Create(dp, name, kind), Now())
    {
      ghost var s := Now();
      Hold(dp);
      var r: Option<nat>;
      ghost var j: nat;
      ok, r, j := Create(dp, name, kind);
      if ok { HeldAndMoved(s.ref, dp, r, ref); }
    }

    method PerformLink(ip: nat, parent: Option<nat>, name: Field) returns (ok: bool)
      requires Valid() && Possible(nodes, ref, Op.Link(ip, parent, name))
      modifies this
      ensures ok <==> !Panics(old(nodes), Op.Link(ip, parent, name))
      ensures ok ==> Valid() && Next(old(Now()), Op.Link(ip, parent, name), Now())
    {
      ghost var s := Now();
      Hold(ip);
      if nodes[ip].kind != T_DIR && parent.Some? { Hold(parent.value); }
      var r: int;
      ghost var j: nat;
      ok, r, j := Link(ip, parent, name);
      if ok { assert ref == s.ref; }
    }

    method PerformUnlink(dp: nat, name: Field)
      requires Valid() && Possible(nodes, ref, Op.Unlink(dp, name))
      modifies this
      ensures Valid() && Next(old(Now()), Op.Unlink(dp, name), Now())
    {
      ghost var s := Now();
      Hold(dp);
      ghost var ref1 := ref;
      var r, j := Unlink(dp, name);
      assert ref == s.ref;
      if r == 0 { SameErased(s.nodes, ref1, s.ref, dp, NameOf(name), j, nodes); }
    }

    method PerformOther(op: Op)
      requires Valid() && Possible(nodes, ref, op) && (op.Open? || op.Close?)
      modifies this
      ensures Valid() && Next(old(Now()), op, Now())
    {
      match op
      case Open(dp, name) => var _ := Open(dp, name);
      case Close(ip) => Drop(ip);
    }
  }

  lemma RunOn(ninodes: nat, t: Trace<State, Op>, op: Op, s: State)
    requires IsRun(ninodes, t) && StateOk(s) && if Possible(t.s.nodes, t.s.ref, op) then Next(t.s, op, s) else s == t.s
    ensures IsRun(ninodes, Then(t, op, s))
  {
  }

  /** Every run of system calls keeps names, link counts and references in order, and goes on
      until a call for which there is no inode or no room in the directory. */
  method Run(ninodes: nat, ops: seq<Op>) returns (ok: bool, fs: FileTree, ghost trace: Trace<State, Op>)
    requires ninodes > ROOTINO
    ensures fresh(fs) && IsRun(ninodes, trace)
    ensures ok ==> StepsOf(trace) == ops && trace.s == fs.Now()
    ensures !ok ==>
              var k := |StepsOf(trace)|;
              k < |ops| && StepsOf(trace) == ops[..k] && Possible(trace.s.nodes, trace.s.ref, ops[k])
                  && Panics(trace.s.nodes, ops[k])
  {
    fs := new FileTree(ninodes);
    ok, trace := true, Begin(fs.Now());
    for k := 0 to |ops|
      invariant ok && fresh(fs) && fs.Valid()
      invariant IsRun(ninodes, trace) && StepsOf(trace) == ops[..k] && trace.s == fs.Now()
    {
      ok := fs.Perform(ops[k]);
      if !ok { return; }
      RunOn(ninodes, trace, ops[k], fs.Now());
      trace := Then(trace, ops[k], fs.Now());
      NextStep(ops, k);
    }
    AllSteps(ops);
  }

  /** In a sound state the used entries of a linked directory differ in namecmp and lead to inodes
      with links; a link count is the number of places that name the inode; an inode is in use
      exactly while it is named or referenced. */
  lemma StateSafe(s: State, i: nat)
    requires StateOk(s) && i < |s.nodes|
    ensures s.nodes[i].nlink == |Places(s.nodes, i)|
    ensures i < |s.ref| && (s.nodes[i].kind != 0 <==> Places(s.nodes, i) != {} || s.ref[i] > 0)
    ensures Linked(s.nodes, i) ==>
              var entries := s.nodes[i].entries;
              && (forall j: nat, k: nat {:trigger entries[j], entries[k]} |
                    j < k < |entries| && entries[j].inum != 0 && entries[k].inum != 0 ::
                        !NameCmp(entries[j].name.bytes, entries[k].name.bytes))
              && forall k: nat {:trigger entries[k]} | k < |entries| && entries[k].inum != 0 ::
                   entries[k].inum < |s.nodes| && s.nodes[entries[k].inum].nlink > 0
  {
    assert Counted(s.nodes) && s.nodes[i].nlink == |Places(s.nodes, i)|;
    if Linked(s.nodes, i) {
      EntriesLive(s.nodes, i);
      var entries := s.nodes[i].entries;
      assert NamesDistinct(entries);
      forall j: nat, k: nat | j < k < |entries| && entries[j].inum != 0 && entries[k].inum != 0
        ensures !NameCmp(entries[j].name.bytes, entries[k].name.bytes)
      {
        NamesDiffer(entries[j].name, entries[k].name);
      }
    }
  }
}
