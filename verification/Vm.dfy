/** Physical frames and page tables, p2/xv6/kernel/kalloc.c and vm.c, in the two-level 32-bit
    format of the Intel SDM vol. 3A, section 4.3.

    Memory is a sequence of frames of 1024 words; page directories, page tables and the free
    list are words in it. */
module Vm {

  const PGSIZE := 4096
  const NENT := 1024 // NPDENTRIES, NPTENTRIES
  const NFRAMES := 4096 // PHYSTOP / PGSIZE
  const USERTOP := 0xA0000
  const NUSER := 160 // USERTOP / PGSIZE
  const EXTMEM := 0x100 // frame of 0x100000
  const DEVSPACE := 0xFE000 // page of 0xFE000000
  const NPAGES := 0x10_0000 // pages of the address space
  const UINT := 0x1_0000_0000

  const PTE_P := 1
  const PTE_W := 2
  const PTE_U := 4

  const JUNK := 0x0101_0101 // what memset(v, 1, PGSIZE) leaves in a word

  type Page = p: seq<nat> | |p| == NENT witness seq(NENT, _ => 0)

  function Filled(w: nat): (p: Page)
    ensures forall j: nat {:trigger p[j]} | j < NENT :: p[j] == w
  {
    seq(NENT, _ => w)
  }

  predicate Present(w: nat) {
    w % 2 == 1
  }

  /** PTE_ADDR as a frame number. */
  function FrameOf(w: nat): nat {
    w / PGSIZE
  }

  /** The entry for frame f, flags and all. */
  function Word(f: nat, flags: nat): (w: nat)
    requires flags < PGSIZE
    ensures FrameOf(w) == f && w % PGSIZE == flags && (Present(w) <==> flags % 2 == 1)
  {
    f * PGSIZE + flags
  }

  /** The entry of page k * NENT + j in directory d; 0 without a page table. */
  function Pte(mem: seq<Page>, d: nat, k: nat, j: nat): nat
    requires d < |mem| && k < NENT && j < NENT
  {
    if Present(mem[d][k]) && FrameOf(mem[d][k]) < |mem| then mem[FrameOf(mem[d][k])][j] else 0
  }

  // ----- Who has a frame

  datatype Owner = Kernel | Free | Held | Dir | Table(d: nat, k: nat) | User(d: nat, j: nat)

  /** The frame belongs to directory d, frame f being asked about. */
  predicate Of(owner: seq<Owner>, d: nat, f: nat)
    requires f < |owner|
  {
    match owner[f]
    case Dir => f == d
    case Table(e, _) => e == d
    case User(e, _) => e == d
    case _ => false
  }

  predicate UserPage(k: nat, j: nat) {
    k == 0 && j < NUSER
  }

  predicate KernelPage(v: nat) {
    NUSER <= v < NFRAMES || DEVSPACE <= v < NPAGES
  }

  predicate KernelTable(k: nat) {
    k < 4 || 1016 <= k < NENT
  }

  // ----- The free list, linked through the first words of the free frames

  /** free[|free| - 1] is the first of the list. */
  ghost predicate Chain(mem: seq<Page>, freelist: nat, free: seq<nat>) {
    && freelist == (if free == [] then 0 else free[|free| - 1] * PGSIZE)
    && (forall i: nat {:trigger free[i]} | i < |free| :: 0 < free[i] < |mem|)
    && (forall i: nat {:trigger mem[free[i]][0]} | i < |free| ::
        mem[free[i]][0] == if i == 0 then 0 else free[i - 1] * PGSIZE)
  }

  ghost predicate FreeOk(kend: nat, owner: seq<Owner>, free: seq<nat>) {
    && |owner| == NFRAMES && 0 < kend
    && (forall i: nat {:trigger free[i]} | i < |free| :: kend <= free[i] < NFRAMES && owner[free[i]] == Free)
    && (forall i: nat, j: nat {:trigger free[i], free[j]} | i < j < |free| :: free[i] != free[j])
    && (forall f: nat {:trigger owner[f]} | f < NFRAMES && owner[f] == Free :: f in free)
    && (forall f: nat {:trigger owner[f]} | f < kend && f < NFRAMES :: owner[f] == Kernel)
  }

  lemma ChainPushed(mem: seq<Page>, freelist: nat, free: seq<nat>, f: nat, mem1: seq<Page>)
    requires Chain(mem, freelist, free) && 0 < f < |mem| && f !in free
    requires |mem1| == |mem| && mem1[f][0] == freelist && forall g: nat {:trigger mem1[g]} | g < |mem| && g != f ::
             mem1[g] == mem[g]
    ensures Chain(mem1, f * PGSIZE, free + [f])
  {
    var free1 := free + [f];
    forall i: nat | i < |free1| ensures mem1[free1[i]][0] == if i == 0 then 0 else free1[i - 1] * PGSIZE {
      if i < |free| {
        assert free1[i] == free[i] && free[i] in free;
        assert mem[free[i]][0] == if i == 0 then 0 else free[i - 1] * PGSIZE;
      }
    }
  }

  lemma ChainPopped(mem: seq<Page>, freelist: nat, free: seq<nat>)
    requires Chain(mem, freelist, free) && free != []
    ensures Chain(mem, mem[free[|free| - 1]][0], free[..|free| - 1])
  {
    var free1 := free[..|free| - 1];
    assert mem[free[|free| - 1]][0] == if |free| == 1 then 0 else free[|free| - 2] * PGSIZE;
    forall i: nat | i < |free1| ensures mem[free1[i]][0] == if i == 0 then 0 else free1[i - 1] * PGSIZE {
      assert mem[free[i]][0] == if i == 0 then 0 else free[i - 1] * PGSIZE;
    }
  }

  lemma ChainElsewhere(mem: seq<Page>, freelist: nat, free: seq<nat>, t: nat, page: Page)
    requires Chain(mem, freelist, free) && t < |mem| && t !in free
    ensures Chain(mem[t := page], freelist, free)
  {
    forall i: nat | i < |free| ensures mem[t := page][free[i]][0] == if i == 0 then 0 else free[i - 1] * PGSIZE {
      assert free[i] in free && mem[free[i]][0] == if i == 0 then 0 else free[i - 1] * PGSIZE;
    }
  }

  // ----- Page directories and their tables

  /** Tables of directory d, user pages and kernel pages are where their owners say. */
  ghost predicate SpaceOk(kend: nat, mem: seq<Page>, owner: seq<Owner>, d: nat) {
    && |mem| == |owner| == NFRAMES && kend <= d < NFRAMES && owner[d] == Dir
    && (forall k: nat {:trigger mem[d][k]} | k < NENT && Present(mem[d][k]) ::
          var t := FrameOf(mem[d][k]);
          kend <= t < NFRAMES && owner[t] == Table(d, k) && mem[d][k] % PGSIZE == PTE_P + PTE_W + PTE_U)
    && (forall k: nat, j: nat {:trigger Pte(mem, d, k, j)} | k < NENT && j < NENT && Present(Pte(mem, d, k, j)) ::
          var f := FrameOf(Pte(mem, d, k, j));
          if UserPage(k, j) then kend <= f < NFRAMES && owner[f] == User(d, j)
              && Pte(mem, d, k, j) % PGSIZE == PTE_P + PTE_W + PTE_U
          else f == k * NENT + j)
  }

  ghost predicate OwnerOk(mem: seq<Page>, owner: seq<Owner>, dirs: set<nat>, f: nat)
    requires |mem| == |owner| && f < |owner| && forall d: nat | d in dirs :: d < |mem|
  {
    match owner[f]
    case Dir => f in dirs
    case Table(d, k) => d in dirs && k < NENT && Present(mem[d][k]) && FrameOf(mem[d][k]) == f
    case User(d, j) => d in dirs && j < NUSER && Present(Pte(mem, d, 0, j)) && FrameOf(Pte(mem, d, 0, j)) == f
    case _ => true
  }

  /** Every frame is in one place: free, a directory, a table of one directory, a user page of
      one directory, or just held by running kernel code. */
  ghost predicate Inv(kend: nat, mem: seq<Page>, owner: seq<Owner>, dirs: set<nat>, free: seq<nat>) {
    && FreeOk(kend, owner, free) && |mem| == NFRAMES
    && (forall d: nat {:trigger d in dirs} | d in dirs :: d < NFRAMES)
    && (forall d: nat {:trigger SpaceOk(kend, mem, owner, d)} | d in dirs :: SpaceOk(kend, mem, owner, d))
    && (forall f: nat {:trigger OwnerOk(mem, owner, dirs, f)} | f < NFRAMES :: OwnerOk(mem, owner, dirs, f))
  }

  // ----- Taking and giving frames

  /** kalloc: the first frame leaves the list. */
  lemma Popped(kend: nat, mem: seq<Page>, owner: seq<Owner>, dirs: set<nat>, free: seq<nat>, freelist: nat, f: nat)
    requires Inv(kend, mem, owner, dirs, free) && Chain(mem, freelist, free) && free != [] && f == free[|free| - 1]
    ensures f < |mem| && Inv(kend, mem, owner[f := Held], dirs, free[..|free| - 1])
    ensures Chain(mem, mem[f][0], free[..|free| - 1]) && kend <= f < NFRAMES && owner[f] == Free
  {
    Taken(kend, mem, owner, dirs, free, f, mem[f]);
    assert mem[f := mem[f]] == mem;
    ChainPopped(mem, freelist, free);
  }

  lemma Taken(kend: nat, mem: seq<Page>, owner: seq<Owner>, dirs: set<nat>, free: seq<nat>, f: nat, page: Page)
    requires Inv(kend, mem, owner, dirs, free) && free != [] && f == free[|free| - 1]
    ensures Inv(kend, mem[f := page], owner[f := Held], dirs, free[..|free| - 1])
    ensures forall d: nat, k: nat, j: nat {:trigger Pte(mem[f := page], d, k, j)} | d in dirs && k < NENT && j < NENT ::
              Pte(mem[f := page], d, k, j) == Pte(mem, d, k, j)
  {
    var mem1, owner1 := mem[f := page], owner[f := Held];
    assert owner[free[|free| - 1]] == Free;
    forall d: nat, k: nat, j: nat | d in dirs && k < NENT && j < NENT
      ensures Pte(mem1, d, k, j) == Pte(mem, d, k, j)
    {
      assert SpaceOk(kend, mem, owner, d);
    }
    forall d: nat | d in dirs
      ensures SpaceOk(kend, mem1, owner1, d)
    {
      assert SpaceOk(kend, mem, owner, d);
    }
    forall g: nat | g < NFRAMES
      ensures OwnerOk(mem1, owner1, dirs, g)
    {
      assert OwnerOk(mem, owner, dirs, g);
    }
  }

  lemma Given(kend: nat, mem: seq<Page>, owner: seq<Owner>, dirs: set<nat>, free: seq<nat>, f: nat, page: Page)
    requires Inv(kend, mem, owner, dirs, free) && kend <= f < NFRAMES && owner[f] == Held
    ensures Inv(kend, mem[f := page], owner[f := Free], dirs, free + [f])
    ensures forall d: nat, k: nat, j: nat {:trigger Pte(mem[f := page], d, k, j)} | d in dirs && k < NENT && j < NENT ::
              Pte(mem[f := page], d, k, j) == Pte(mem, d, k, j)
  {
    var mem1, owner1 := mem[f := page], owner[f := Free];
    forall d: nat, k: nat, j: nat | d in dirs && k < NENT && j < NENT
      ensures Pte(mem1, d, k, j) == Pte(mem, d, k, j)
    {
      assert SpaceOk(kend, mem, owner, d);
    }
    forall d: nat | d in dirs
      ensures SpaceOk(kend, mem1, owner1, d)
    {
      assert SpaceOk(kend, mem, owner, d);
    }
    forall g: nat | g < NFRAMES
      ensures OwnerOk(mem1, owner1, dirs, g)
    {
      assert OwnerOk(mem, owner, dirs, g);
    }
  }

  // ----- Page tables

  ghost predicate SamePtes(mem: seq<Page>, mem1: seq<Page>, dirs: set<nat>) {
    |mem1| == |mem| &&
    forall d: nat, k: nat, j: nat {:trigger Pte(mem1, d, k, j)} | d in dirs && d < |mem| && k < NENT && j < NENT ::
      Pte(mem1, d, k, j) == Pte(mem, d, k, j)
  }

  /** Only the entry of page (k, j) of directory d has changed. */
  ghost predicate OnePte(mem: seq<Page>, mem1: seq<Page>, dirs: set<nat>, d: nat, k: nat, j: nat, w: nat) {
    |mem1| == |mem| &&
    forall e: nat, m: nat, i: nat {:trigger Pte(mem1, e, m, i)} | e in dirs && e < |mem| && m < NENT && i < NENT ::
      Pte(mem1, e, m, i) == if e == d && m == k && i == j then w else Pte(mem, e, m, i)
  }

  /** Writing one entry of a page table. */
  lemma EntryWritten(kend: nat, mem: seq<Page>, owner: seq<Owner>, dirs: set<nat>, free: seq<nat>, d: nat, k: nat,
                     j: nat, w: nat)
    requires Inv(kend, mem, owner, dirs, free) && d in dirs && k < NENT && j < NENT && Present(mem[d][k])
    ensures var t := FrameOf(mem[d][k]);
            && t < NFRAMES && owner[t] == Table(d, k)
            && OnePte(mem, mem[t := mem[t][j := w]], dirs, d, k, j, w)
    ensures var t := FrameOf(mem[d][k]); forall e: nat {:trigger e in dirs} | e in dirs :: e != t
  {
    assert SpaceOk(kend, mem, owner, d);
    var t := FrameOf(mem[d][k]);
    var mem1 := mem[t := mem[t][j := w]];
    forall e: nat | e in dirs ensures e != t { assert SpaceOk(kend, mem, owner, e); }
    forall e: nat, m: nat, i: nat | e in dirs && m < NENT && i < NENT
      ensures Pte(mem1, e, m, i) == if e == d && m == k && i == j then w else Pte(mem, e, m, i)
    {
      assert SpaceOk(kend, mem, owner, e);
    }
  }

  /** A page is mapped: a user page to a frame held so far, a kernel page to itself. */
  lemma Mapped(kend: nat, mem: seq<Page>, owner: seq<Owner>, dirs: set<nat>, free: seq<nat>,
               d: nat, k: nat, j: nat, f: nat, w: nat, mem1: seq<Page>, owner1: seq<Owner>)
    requires Inv(kend, mem, owner, dirs, free) && d in dirs && k < NENT && j < NENT && Present(mem[d][k])
    requires !Present(Pte(mem, d, k, j)) && Present(w) && FrameOf(w) == f
    requires FrameOf(mem[d][k]) < |mem| && mem1 == mem[FrameOf(mem[d][k]) := mem[FrameOf(mem[d][k])][j := w]]
    requires if UserPage(k, j) then kend <= f < NFRAMES && owner[f] == Held && owner1 == owner[f := User(d, j)]
             && w % PGSIZE == PTE_P + PTE_W + PTE_U
             else f == k * NENT + j && owner1 == owner
    ensures Inv(kend, mem1, owner1, dirs, free) && OnePte(mem, mem1, dirs, d, k, j, w)
  {
    EntryWritten(kend, mem, owner, dirs, free, d, k, j, w);
    forall e: nat | e in dirs
      ensures SpaceOk(kend, mem1, owner1, e)
    {
      assert SpaceOk(kend, mem, owner, e);
      assert mem1[e] == mem[e];
    }
    forall g: nat | g < NFRAMES
      ensures OwnerOk(mem1, owner1, dirs, g)
    {
      assert OwnerOk(mem, owner, dirs, g);
    }
  }

  /** A user page loses its frame. */
  lemma Unmapped(kend: nat, mem: seq<Page>, owner: seq<Owner>, dirs: set<nat>, free: seq<nat>,
                 d: nat, j: nat, f: nat, mem1: seq<Page>)
    requires Inv(kend, mem, owner, dirs, free) && d in dirs && j < NUSER && Present(mem[d][0])
    requires Present(Pte(mem, d, 0, j)) && f == FrameOf(Pte(mem, d, 0, j))
    requires FrameOf(mem[d][0]) < |mem| && mem1 == mem[FrameOf(mem[d][0]) := mem[FrameOf(mem[d][0])][j := 0]]
    ensures kend <= f < NFRAMES && owner[f] == User(d, j) && f != FrameOf(mem[d][0])
    ensures Inv(kend, mem1, owner[f := Held], dirs, free) && OnePte(mem, mem1, dirs, d, 0, j, 0)
  {
    assert SpaceOk(kend, mem, owner, d);
    EntryWritten(kend, mem, owner, dirs, free, d, 0, j, 0);
    var owner1 := owner[f := Held];
    forall e: nat | e in dirs
      ensures SpaceOk(kend, mem1, owner1, e)
    {
      assert SpaceOk(kend, mem, owner, e);
      assert mem1[e] == mem[e];
    }
    forall g: nat | g < NFRAMES
      ensures OwnerOk(mem1, owner1, dirs, g)
    {
      assert OwnerOk(mem, owner, dirs, g);
    }
  }

  /** walkpgdir gives directory d an empty page table. */
  lemma TableAdded(kend: nat, mem: seq<Page>, owner: seq<Owner>, dirs: set<nat>, free: seq<nat>,
                   d: nat, k: nat, t: nat, w: nat)
    requires Inv(kend, mem, owner, dirs, free) && d in dirs && k < NENT && !Present(mem[d][k])
    requires kend <= t < NFRAMES && owner[t] == Held && mem[t] == Filled(0) && Present(w) && FrameOf(w) == t
             && w % PGSIZE == PTE_P + PTE_W + PTE_U
    ensures d < NFRAMES
    ensures var mem1 := mem[d := mem[d][k := w]];
            Inv(kend, mem1, owner[t := Table(d, k)], dirs, free) && SamePtes(mem, mem1, dirs)
  {
    assert SpaceOk(kend, mem, owner, d);
    var mem1, owner1 := mem[d := mem[d][k := w]], owner[t := Table(d, k)];
    forall e: nat, m: nat, i: nat | e in dirs && m < NENT && i < NENT
      ensures Pte(mem1, e, m, i) == Pte(mem, e, m, i)
    {
      assert SpaceOk(kend, mem, owner, e);
    }
    forall e: nat | e in dirs
      ensures SpaceOk(kend, mem1, owner1, e)
    {
      assert SpaceOk(kend, mem, owner, e);
    }
    forall g: nat | g < NFRAMES
      ensures OwnerOk(mem1, owner1, dirs, g)
    {
      assert OwnerOk(mem, owner, dirs, g);
    }
  }

  lemma DirAdded(kend: nat, mem: seq<Page>, owner: seq<Owner>, dirs: set<nat>, free: seq<nat>, d: nat)
    requires Inv(kend, mem, owner, dirs, free) && kend <= d < NFRAMES && owner[d] == Held && mem[d] == Filled(0)
    ensures Inv(kend, mem, owner[d := Dir], dirs + {d}, free) && d !in dirs
  {
    assert d in dirs ==> SpaceOk(kend, mem, owner, d);
    var owner1 := owner[d := Dir];
    forall e: nat | e in dirs + {d}
      ensures SpaceOk(kend, mem, owner1, e)
    {
      if e != d { assert SpaceOk(kend, mem, owner, e); }
    }
    forall g: nat | g < NFRAMES
      ensures OwnerOk(mem, owner1, dirs + {d}, g)
    {
      assert OwnerOk(mem, owner, dirs, g);
    }
  }

  /** memset or memmove to a frame that is held. */
  lemma Overwritten(kend: nat, mem: seq<Page>, owner: seq<Owner>, dirs: set<nat>, free: seq<nat>, freelist: nat, f: nat,
                    page: Page)
    requires Inv(kend, mem, owner, dirs, free) && Chain(mem, freelist, free) && kend <= f < NFRAMES && owner[f] == Held
    ensures Inv(kend, mem[f := page], owner, dirs, free) && Chain(mem[f := page], freelist, free)
    ensures SamePtes(mem, mem[f := page], dirs)
  {
    var mem1 := mem[f := page];
    forall d: nat, k: nat, j: nat | d in dirs && k < NENT && j < NENT
      ensures Pte(mem1, d, k, j) == Pte(mem, d, k, j)
    {
      assert SpaceOk(kend, mem, owner, d);
    }
    forall d: nat | d in dirs
      ensures SpaceOk(kend, mem1, owner, d)
    {
      assert SpaceOk(kend, mem, owner, d);
    }
    forall g: nat | g < NFRAMES
      ensures OwnerOk(mem1, owner, dirs, g)
    {
      assert OwnerOk(mem, owner, dirs, g);
    }
  }

  // ----- The kernel part of an address space

  function KernelPte(data: nat, v: nat): nat {
    if !KernelPage(v) then 0
    else Word(v, if EXTMEM <= v < data then PTE_P else PTE_P + PTE_W)
  }

  /** Every directory maps all of physical memory and the devices to themselves, without
      access for users; the first `done` pages of that are there. */
  ghost predicate KernelPart(data: nat, mem: seq<Page>, d: nat, from: nat, upto: nat)
    requires d < |mem|
  {
    forall k: nat, j: nat {:trigger Pte(mem, d, k, j)} | k < NENT && j < NENT && !UserPage(k, j)
        && from <= k * NENT + j < upto ::
      Pte(mem, d, k, j) == KernelPte(data, k * NENT + j)
  }

  ghost predicate Absent(mem: seq<Page>, d: nat, from: nat, upto: nat)
    requires d < |mem|
  {
    forall k: nat, j: nat {:trigger Pte(mem, d, k, j)} | k < NENT && j < NENT && from <= k * NENT + j < upto ::
        !Present(Pte(mem, d, k, j))
  }

  /** Page tables a directory still needs for its kernel part. */
  ghost function Missing(dir: Page): set<nat> {
    set k: nat | k < NENT && KernelTable(k) && !Present(dir[k])
  }

  function Pdx(va: nat): nat {
    va / 0x40_0000
  }

  function Ptx(va: nat): nat {
    va / PGSIZE % NENT
  }

  lemma PageIndex(va: nat)
    requires va < UINT
    ensures Pdx(va) < NENT && Ptx(va) < NENT && Pdx(va) * NENT + Ptx(va) == va / PGSIZE
  {
  }

  /** Pages v0 .. v1 of directory d map to the frames from f0 on; nothing else has changed. */
  ghost predicate RangeMapped(mem: seq<Page>, mem1: seq<Page>, dirs: set<nat>, d: nat, v0: nat, v1: nat, f0: nat,
                              flags: nat)
    requires flags < PGSIZE
  {
    |mem1| == |mem| &&
    forall e: nat, m: nat, i: nat {:trigger Pte(mem1, e, m, i)} | e in dirs && e < |mem| && m < NENT && i < NENT ::
      Pte(mem1, e, m, i) ==
      if e == d && v0 <= m * NENT + i < v1 then Word(m * NENT + i - v0 + f0, flags) else Pte(mem, e, m, i)
  }

  lemma SamePage(k: nat, j: nat, m: nat, i: nat)
    requires j < NENT && i < NENT && k * NENT + j == m * NENT + i
    ensures k == m && j == i
  {
  }

  lemma RangeGrows(mem: seq<Page>, mem1: seq<Page>, mem2: seq<Page>, dirs: set<nat>, d: nat, v0: nat, v: nat, f0: nat,
                   flags: nat, k: nat, j: nat)
    requires flags < PGSIZE && RangeMapped(mem, mem1, dirs, d, v0, v, f0, flags) && k * NENT + j == v && j < NENT
             && v0 <= v
    requires OnePte(mem1, mem2, dirs, d, k, j, Word(v - v0 + f0, flags))
    ensures RangeMapped(mem, mem2, dirs, d, v0, v + 1, f0, flags)
  {
    forall e: nat, m: nat, i: nat | e in dirs && e < |mem| && m < NENT && i < NENT
      ensures Pte(mem2, e, m, i) ==
              if e == d && v0 <= m * NENT + i < v + 1 then Word(m * NENT + i - v0 + f0, flags) else Pte(mem, e, m, i)
    {
      if m * NENT + i == v { SamePage(k, j, m, i); }
      assert Pte(mem1, e, m, i) == Pte(mem1, e, m, i);
    }
  }

  /** One table less is missing. */
  lemma TableFound(dir: Page, k: nat, w: nat)
    requires k < NENT && KernelTable(k) && !Present(dir[k]) && Present(w)
    ensures Missing(dir[k := w]) == Missing(dir) - {k} && k in Missing(dir)
    ensures |Missing(dir[k := w])| == |Missing(dir)| - 1
  {
  }

  /** Directory d has taken free frames for tables, and the held frame g, if there is one, for a
      user page; apart from d and its tables no frame has been written. */
  ghost predicate Grew(owner: seq<Owner>, mem: seq<Page>, owner1: seq<Owner>, mem1: seq<Page>, d: nat, g: nat) {
    && |owner1| == |owner| == |mem| == |mem1|
    && forall f: nat {:trigger owner1[f]} {:trigger mem1[f]} | f < |owner| ::
         && (owner1[f] != owner[f] ==>
               || (owner[f] == Free && owner1[f].Table? && owner1[f].d == d)
               || (owner[f] == Held && f == g && owner1[f].User? && owner1[f].d == d))
         && (mem1[f] != mem[f] ==> f == d || (owner1[f].Table? && owner1[f].d == d))
  }

  /** With the page table there, mapping a page is one store, and the frame of a user page is given away. */
  ghost predicate Stored(owner: seq<Owner>, mem: seq<Page>, free: seq<nat>, owner1: seq<Owner>, mem1: seq<Page>,
                         free1: seq<nat>,
                         d: nat, a: nat, pa: nat, perm: nat)
    requires perm + PTE_P < PGSIZE
  {
    && free1 == free && d < |mem| && Pdx(a) < NENT && FrameOf(mem[d][Pdx(a)]) < |mem|
    && mem1 == mem[FrameOf(mem[d][Pdx(a)]) := mem[FrameOf(mem[d][Pdx(a)])][Ptx(a) := Word(pa / PGSIZE, perm + PTE_P)]]
    && if a >= USERTOP then owner1 == owner else
       && pa / PGSIZE < |owner|
       && owner1 == owner[pa / PGSIZE := User(d, Ptx(a))]
  }

  /** The frame at physical address pa, if the page at a is the user's. */
  function FrameGiven(a: nat, pa: nat): nat {
    if a < USERTOP then pa / PGSIZE else NFRAMES
  }

  /** An entry of d's table t is written, for the frame f if it is given. */
  lemma GrewByEntry(owner: seq<Owner>, mem: seq<Page>, d: nat, k: nat, j: nat, t: nat, f: nat, page: Page)
    requires |owner| == |mem| && t < |owner| && owner[t] == Table(d, k)
    ensures Grew(owner, mem, owner, mem[t := page], d, NFRAMES)
    ensures f < |owner| && owner[f] == Held ==> Grew(owner, mem, owner[f := User(d, j)], mem[t := page], d, f)
  {
  }

  lemma GrewOn(owner: seq<Owner>, mem: seq<Page>, owner1: seq<Owner>, mem1: seq<Page>, owner2: seq<Owner>,
               mem2: seq<Page>, d: nat, g: nat)
    requires Grew(owner, mem, owner1, mem1, d, g) && Grew(owner1, mem1, owner2, mem2, d, g)
    ensures Grew(owner, mem, owner2, mem2, d, g)
  {
    forall f: nat | f < |owner|
      ensures owner2[f] != owner[f] ==>
               || (owner[f] == Free && owner2[f].Table? && owner2[f].d == d)
               || (owner[f] == Held && f == g && owner2[f].User? && owner2[f].d == d)
      ensures mem2[f] != mem[f] ==> f == d || (owner2[f].Table? && owner2[f].d == d)
    {
      assert owner1[f] == owner1[f] && mem1[f] == mem1[f];
    }
  }

  /** No entry changes but those of d for the pages from v0 up to v1. */
  ghost predicate OnlyRange(mem: seq<Page>, mem1: seq<Page>, dirs: set<nat>, d: nat, v0: nat, v1: nat) {
    |mem1| == |mem| &&
    forall e: nat, m: nat, i: nat {:trigger Pte(mem1, e, m, i)} |
      e in dirs && e < |mem| && m < NENT && i < NENT && !(e == d && v0 <= m * NENT + i < v1) ::
      Pte(mem1, e, m, i) == Pte(mem, e, m, i)
  }

  lemma MappedOnly(mem: seq<Page>, mem1: seq<Page>, dirs: set<nat>, d: nat, v0: nat, v: nat, v1: nat, f0: nat,
                   flags: nat)
    requires flags < PGSIZE && RangeMapped(mem, mem1, dirs, d, v0, v, f0, flags) && v <= v1
    ensures OnlyRange(mem, mem1, dirs, d, v0, v1)
  {
  }

  lemma OnlyOn(mem: seq<Page>, mem1: seq<Page>, mem2: seq<Page>, dirs: set<nat>, d: nat, v0: nat, v1: nat)
    requires OnlyRange(mem, mem1, dirs, d, NUSER, NPAGES) && OnlyRange(mem1, mem2, dirs, d, v0, v1)
    requires NUSER <= v0 && v1 <= NPAGES
    ensures OnlyRange(mem, mem2, dirs, d, NUSER, NPAGES)
  {
    forall e: nat, m: nat, i: nat |
      e in dirs && e < |mem| && m < NENT && i < NENT && !(e == d && NUSER <= m * NENT + i < NPAGES)
      ensures Pte(mem2, e, m, i) == Pte(mem, e, m, i)
    {
      assert Pte(mem1, e, m, i) == Pte(mem, e, m, i);
    }
  }

  /** An empty directory that has since come to map kernel pages only. */
  lemma OnlyKernel(mem: seq<Page>, mem1: seq<Page>, dirs: set<nat>, d: nat)
    requires OnlyRange(mem, mem1, dirs, d, NUSER, NPAGES) && d in dirs && d < |mem| && mem[d] == Filled(0)
    ensures OtherPtes(mem, mem1, dirs, d) && d < |mem1| && NoUser(mem1, d, 0, NUSER)
  {
    forall j: nat | j < NUSER ensures Pte(mem1, d, 0, j) == 0 {
      assert Pte(mem, d, 0, j) == 0;
      assert Pte(mem1, d, 0, j) == Pte(mem, d, 0, j);
    }
  }

  /** Every frame that was free is lost: nothing leads to it and it is not on the free list. */
  ghost predicate Leaked(owner: seq<Owner>, mem: seq<Page>, owner1: seq<Owner>, mem1: seq<Page>) {
    && |owner1| == |owner| == |mem| == |mem1|
    && forall f: nat {:trigger owner1[f]} {:trigger mem1[f]} | f < |owner| ::
         if owner[f] == Free then owner1[f] == Held else owner1[f] == owner[f] && mem1[f] == mem[f]
  }

  /** A directory that takes the last frames and is dropped. */
  lemma LeakedAll(kend: nat, owner: seq<Owner>, mem: seq<Page>, owner1: seq<Owner>, mem1: seq<Page>, owner2: seq<Owner>,
                  mem2: seq<Page>, d: nat)
    requires d < |owner| && owner[d] == Free && NobodyYet(owner, d) && owner1 == owner[d := Dir]
    requires |mem1| == |mem| == |owner| && forall f: nat {:trigger mem1[f]} | f < |mem| && f != d :: mem1[f] == mem[f]
    requires Grew(owner1, mem1, owner2, mem2, d, |owner|) && FreeOk(kend, owner2, [])
    ensures Leaked(owner, mem, HeldBack(owner2, d), mem2)
  {
    var owner3 := HeldBack(owner2, d);
    forall f: nat | f < |owner|
      ensures if owner[f] == Free then owner3[f] == Held else owner3[f] == owner[f] && mem2[f] == mem[f]
    {
      assert owner2[f] != Free;
      assert !Of(owner, d, f);
      assert owner3[f] == if Of(owner2, d, f) then Held else owner2[f];
    }
  }

  lemma NothingMapped(mem: seq<Page>, dirs: set<nat>, d: nat, v0: nat, f0: nat, flags: nat)
    requires flags < PGSIZE
    ensures RangeMapped(mem, mem, dirs, d, v0, v0, f0, flags)
  {
  }

  lemma WholePages(la: nat, size: nat, pa: nat)
    requires la % PGSIZE == 0 && size % PGSIZE == 0 && pa % PGSIZE == 0 && size > 0
    ensures la == la / PGSIZE * PGSIZE && pa == pa / PGSIZE * PGSIZE && la / PGSIZE < (la + size) / PGSIZE
    ensures size == PGSIZE ==> (la + size) / PGSIZE == la / PGSIZE + 1
    ensures (la + size - 1) / PGSIZE * PGSIZE == ((la + size) / PGSIZE - 1) * PGSIZE
  {
  }

  lemma AbsentPart(mem: seq<Page>, d: nat, from: nat, upto: nat, v: nat, v1: nat)
    requires d < |mem| && Absent(mem, d, from, upto) && from <= v <= v1 <= upto
    ensures Absent(mem, d, v, v1)
  {
  }

  ghost predicate Kernelled(data: nat, mem: seq<Page>, d: nat)
    requires d < |mem|
  {
    KernelPart(data, mem, d, NUSER, NPAGES)
  }

  ghost function Span(k: nat, n: nat): (s: set<nat>)
    ensures |s| == n && forall i: nat :: i in s <==> k <= i < k + n
  {
    if n == 0 then {} else Span(k, n - 1) + {k + n - 1}
  }

  lemma EmptyDir(dir: Page, user: nat, above: nat)
    requires user == 4 && above == NENT - 8
    requires forall k: nat {:trigger dir[k]} | k < NENT :: dir[k] == 0
    ensures |Missing(dir)| == 12
  {
    var low, high := Span(0, user), Span(above, NENT - above);
    assert !Present(0);
    forall k: nat
      ensures k in Missing(dir) <==> k in low + high
    {
      assert k < NENT ==> dir[k] == 0;
    }
    assert Missing(dir) == low + high;
    assert low !! high;
  }

  lemma AllMissing()
    ensures |Missing(Filled(0))| == 12
  {
    EmptyDir(Filled(0), 4, NENT - 8);
  }

  lemma NoneMissing(data: nat, mem: seq<Page>, d: nat)
    requires d < |mem| && Kernelled(data, mem, d)
    ensures Missing(mem[d]) == {}
  {
    forall k: nat | k < NENT && KernelTable(k)
      ensures Present(mem[d][k])
    {
      assert Pte(mem, d, k, NENT - 1) == KernelPte(data, k * NENT + (NENT - 1));
    }
  }

  // ----- Who may do what, as the processor sees it

  /** Bit n of the flags of a directory or table entry: 0 present, 1 writeable, 2 user. */
  predicate Flag(w: nat, n: nat) {
    if n == 0 then w % 2 == 1 else if n == 1 then w / 2 % 2 == 1 else w / 4 % 2 == 1
  }

  /** Both levels allow the access. */
  predicate Allowed(dir: nat, entry: nat, n: nat) {
    Flag(dir, 0) && Flag(entry, 0) && Flag(dir, n) && Flag(entry, n)
  }

  lemma Even(x: nat, high: nat, low: nat)
    requires x == 2 * high + low
    ensures x % 2 == low % 2
  {
  }

  lemma Quotient(x: nat, d: nat, high: nat, low: nat)
    requires d > 0 && x == d * high + low
    ensures x / d == high + low / d
  {
    DivOf(x, d, high + low / d, low % d);
    assert d * (high + low / d) == d * high + d * (low / d);
  }

  lemma DivOf(x: nat, d: nat, q: nat, r: nat)
    requires d > 0 && r < d && x == d * q + r
    ensures x / d == q
  {
    var e := x / d - q;
    assert x == d * (x / d) + x % d;
    assert d * e == d * (x / d) - d * q;
    assert e > 0 ==> d * e >= d;
    assert e < 0 ==> d * e + d <= 0;
  }

  lemma Flags(w: nat)
    ensures Flag(w, 0) == Flag(w % PGSIZE, 0) && Flag(w, 1) == Flag(w % PGSIZE, 1) && Flag(w, 2) == Flag(w % PGSIZE, 2)
  {
    var high, low := w / PGSIZE, w % PGSIZE;
    Even(w, 0x800 * high, low);
    Quotient(w, 2, 0x800 * high, low);
    Even(w / 2, 0x400 * high, low / 2);
    Quotient(w, 4, 0x400 * high, low);
    Even(w / 4, 0x200 * high, low / 4);
  }

  /** A process can reach exactly its own pages, each in a frame of its own, and write them; of the
      rest the kernel can write everything but its text. */
  lemma Protection(kend: nat, data: nat, mem: seq<Page>, owner: seq<Owner>, dirs: set<nat>, free: seq<nat>,
                   d: nat, k: nat, j: nat)
    requires Inv(kend, mem, owner, dirs, free) && d in dirs && d < |mem| && Kernelled(data, mem, d)
    requires k < NENT && j < NENT && EXTMEM < data < NFRAMES
    ensures Allowed(mem[d][k], Pte(mem, d, k, j), 2) ==>
              var f := FrameOf(Pte(mem, d, k, j));
              k == 0 && j < NUSER && kend <= f < NFRAMES && owner[f] == User(d, j)
    ensures k == 0 && j < NUSER && Present(Pte(mem, d, k, j)) ==>
              Allowed(mem[d][k], Pte(mem, d, k, j), 2) && Allowed(mem[d][k], Pte(mem, d, k, j), 1)
    ensures KernelPage(k * NENT + j) ==>
              FrameOf(Pte(mem, d, k, j)) == k * NENT + j &&
              (Allowed(mem[d][k], Pte(mem, d, k, j), 1) <==> !(EXTMEM <= k * NENT + j < data))
  {
    assert SpaceOk(kend, mem, owner, d);
    var w := Pte(mem, d, k, j);
    Flags(mem[d][k]);
    Flags(w);
    if !UserPage(k, j) { assert w == KernelPte(data, k * NENT + j); }
  }

  /** The four ranges of kmap, each mapped to itself, make up the kernel part. */
  lemma FourRanges(data: nat, mem0: seq<Page>, mem1: seq<Page>, mem2: seq<Page>, mem3: seq<Page>, mem4: seq<Page>,
                   dirs: set<nat>, d: nat)
    requires d in dirs && d < |mem0| && EXTMEM < data < NFRAMES && mem0[d] == Filled(0)
    requires RangeMapped(mem0, mem1, dirs, d, NUSER, EXTMEM, NUSER, PTE_W + PTE_P)
    requires RangeMapped(mem1, mem2, dirs, d, EXTMEM, data, EXTMEM, PTE_P)
    requires RangeMapped(mem2, mem3, dirs, d, data, NFRAMES, data, PTE_W + PTE_P)
    requires RangeMapped(mem3, mem4, dirs, d, DEVSPACE, NPAGES, DEVSPACE, PTE_W + PTE_P)
    ensures |mem4| == |mem0| && Kernelled(data, mem4, d)
    ensures forall j: nat {:trigger Pte(mem4, d, 0, j)} | j < NUSER :: Pte(mem4, d, 0, j) == 0
    ensures forall e: nat, k: nat, j: nat {:trigger Pte(mem4, e, k, j)} | e in dirs && e != d && e < |mem0| && k < NENT
            && j < NENT ::
              Pte(mem4, e, k, j) == Pte(mem0, e, k, j)
  {
    forall e: nat, k: nat, j: nat | e in dirs && e < |mem0| && k < NENT && j < NENT
      ensures Pte(mem4, e, k, j) == if e != d then Pte(mem0, e, k, j) else KernelPte(data, k * NENT + j)
    {
      assert Pte(mem3, e, k, j) == Pte(mem3, e, k, j) && Pte(mem2, e, k, j) == Pte(mem2, e, k, j)
          && Pte(mem1, e, k, j) == Pte(mem1, e, k, j);
      assert e == d ==> Pte(mem0, e, k, j) == 0;
    }
  }

  lemma StillAbsent(mem: seq<Page>, mem1: seq<Page>, dirs: set<nat>, d: nat, v0: nat, v1: nat, f0: nat, flags: nat,
                    from: nat, upto: nat)
    requires flags < PGSIZE && RangeMapped(mem, mem1, dirs, d, v0, v1, f0, flags) && d in dirs && d < |mem|
    requires v1 <= from && Absent(mem, d, from, upto)
    ensures Absent(mem1, d, from, upto)
  {
    forall k: nat, j: nat | k < NENT && j < NENT && from <= k * NENT + j < upto
      ensures !Present(Pte(mem1, d, k, j))
    {
      assert !Present(Pte(mem, d, k, j));
    }
  }

  // ----- What an operation on one address space may do

  /** Frames move only between the free list and d; all others keep owner and contents. */
  ghost predicate Isolated(owner: seq<Owner>, mem: seq<Page>, owner1: seq<Owner>, mem1: seq<Page>, d: nat) {
    && |owner1| == |owner| == |mem| == |mem1|
    && forall f: nat {:trigger owner1[f]} {:trigger mem1[f]} | f < |owner| ::
         if owner[f] == Free || Of(owner, d, f) then owner1[f] == Free || Of(owner1, d, f)
         else owner1[f] == owner[f] && mem1[f] == mem[f]
  }

  lemma IsolatedOn(owner: seq<Owner>, mem: seq<Page>, owner1: seq<Owner>, mem1: seq<Page>, owner2: seq<Owner>,
                   mem2: seq<Page>, d: nat)
    requires Isolated(owner, mem, owner1, mem1, d) && Isolated(owner1, mem1, owner2, mem2, d)
    ensures Isolated(owner, mem, owner2, mem2, d)
  {
    forall f: nat | f < |owner|
      ensures if owner[f] == Free || Of(owner, d, f) then owner2[f] == Free || Of(owner2, d, f)
              else owner2[f] == owner[f] && mem2[f] == mem[f]
    {
      assert owner1[f] == owner1[f];
    }
  }

  /** A page of user memory: its number, and the pages a size takes up. */
  function PageUp(sz: nat): nat {
    (sz + PGSIZE - 1) / PGSIZE
  }

  /** User pages from..upto of d are not there. */
  ghost predicate NoUser(mem: seq<Page>, d: nat, from: nat, upto: nat)
    requires d < |mem|
  {
    forall j: nat {:trigger Pte(mem, d, 0, j)} | from <= j < upto && j < NENT :: !Present(Pte(mem, d, 0, j))
  }

  /** The same pages are mapped in the same way in all directories of dirs but d. */
  ghost predicate OtherPtes(mem: seq<Page>, mem1: seq<Page>, dirs: set<nat>, d: nat) {
    |mem1| == |mem| &&
    forall e: nat, k: nat, j: nat {:trigger Pte(mem1, e, k, j)} | e in dirs && e != d && e < |mem| && k < NENT
        && j < NENT ::
      Pte(mem1, e, k, j) == Pte(mem, e, k, j)
  }

  lemma StillKernelled(data: nat, mem: seq<Page>, mem1: seq<Page>, dirs: set<nat>, e: nat)
    requires e < |mem| == |mem1| && Kernelled(data, mem, e)
    requires forall k: nat, j: nat {:trigger Pte(mem1, e, k, j)} | k < NENT && j < NENT && !UserPage(k, j) ::
             Pte(mem1, e, k, j) == Pte(mem, e, k, j)
    ensures Kernelled(data, mem1, e)
  {
  }

  ghost predicate NobodyYet(owner: seq<Owner>, d: nat) {
    forall f: nat {:trigger Of(owner, d, f)} | f < |owner| :: !Of(owner, d, f)
  }

  /** Nothing belongs to a frame that is not a directory. */
  lemma NotYet(kend: nat, mem: seq<Page>, owner: seq<Owner>, dirs: set<nat>, free: seq<nat>, d: nat)
    requires Inv(kend, mem, owner, dirs, free) && d < NFRAMES && owner[d] == Free
    ensures d !in dirs && NobodyYet(owner, d)
  {
    assert d in dirs ==> SpaceOk(kend, mem, owner, d);
    forall f: nat | f < NFRAMES ensures !Of(owner, d, f) { assert OwnerOk(mem, owner, dirs, f); }
  }

  /** A user page has one frame. */
  lemma UserOnce(kend: nat, mem: seq<Page>, owner: seq<Owner>, dirs: set<nat>, free: seq<nat>, d: nat, j: nat)
    requires Inv(kend, mem, owner, dirs, free) && d in dirs && d < |mem| && j < NUSER
    ensures forall f: nat {:trigger owner[f]} | f < NFRAMES && owner[f] == User(d, j) :: f == FrameOf(Pte(mem, d, 0, j))
  {
    forall f: nat | f < NFRAMES && owner[f] == User(d, j)
      ensures f == FrameOf(Pte(mem, d, 0, j))
    {
      assert OwnerOk(mem, owner, dirs, f);
    }
  }

  /** d's user pages from..upto have gone, their frames to the free list; nothing else. */
  ghost predicate Dropped(owner: seq<Owner>, mem: seq<Page>, owner1: seq<Owner>, mem1: seq<Page>, dirs: set<nat>,
                          d: nat, from: nat, upto: nat) {
    && |owner1| == |owner| == |mem| == |mem1|
    && (forall f: nat {:trigger owner1[f]} | f < |owner| ::
          owner1[f] == if owner[f].User? && owner[f].d == d && from <= owner[f].j < upto then Free else owner[f])
    && (forall f: nat {:trigger mem1[f]} | f < |owner| && owner1[f] != Free && owner[f] != Table(d, 0) ::
        mem1[f] == mem[f])
    && forall e: nat, k: nat, j: nat {:trigger Pte(mem1, e, k, j)} | e in dirs && e < |mem| && k < NENT && j < NENT ::
         if e == d && k == 0 && from <= j < upto then !Present(Pte(mem1, e, k, j))
         else Pte(mem1, e, k, j) == Pte(mem, e, k, j)
  }

  /** kfree of a user page's frame and the clearing of its entry. */
  lemma UserFreed(kend: nat, mem: seq<Page>, owner: seq<Owner>, dirs: set<nat>, free: seq<nat>, d: nat, j: nat, f: nat,
                  t: nat, page: Page)
    requires Inv(kend, mem, owner, dirs, free) && d in dirs && d < |mem| && j < NUSER && Present(mem[d][0])
    requires Present(Pte(mem, d, 0, j)) && f == FrameOf(Pte(mem, d, 0, j)) && t == FrameOf(mem[d][0]) < |mem|
    ensures kend <= f < NFRAMES && f !in free && t != f && t !in free + [f]
    ensures var mem1, owner1 := mem[f := page], owner[f := Free];
            var mem2 := mem1[t := mem1[t][j := 0]];
            && Inv(kend, mem2, owner1, dirs, free + [f])
            && Dropped(owner, mem, owner1, mem2, dirs, d, j, j + 1)
  {
    var mem1 := mem[t := mem[t][j := 0]];
    Unmapped(kend, mem, owner, dirs, free, d, j, f, mem1);
    EntryWritten(kend, mem, owner, dirs, free, d, 0, j, 0);
    Given(kend, mem1, owner[f := Held], dirs, free, f, page);
    UserOnce(kend, mem, owner, dirs, free, d, j);
    assert owner[f := Held][f := Free] == owner[f := Free];
    assert mem[f := page][t := mem[t][j := 0]] == mem1[f := page];
  }

  lemma DroppedOn(owner: seq<Owner>, mem: seq<Page>, owner1: seq<Owner>, mem1: seq<Page>, owner2: seq<Owner>,
                  mem2: seq<Page>,
                  dirs: set<nat>, d: nat, from: nat, j: nat, j1: nat)
    requires Dropped(owner, mem, owner1, mem1, dirs, d, from, j) && Dropped(owner1, mem1, owner2, mem2, dirs, d, j, j1)
             && from <= j < j1
    ensures Dropped(owner, mem, owner2, mem2, dirs, d, from, j1)
  {
    forall f: nat | f < |owner|
      ensures owner2[f] == if owner[f].User? && owner[f].d == d && from <= owner[f].j < j1 then Free else owner[f]
      ensures owner2[f] != Free && owner[f] != Table(d, 0) ==> mem2[f] == mem[f]
    {
      assert owner1[f] == owner1[f] && mem1[f] == mem1[f];
    }
    forall e: nat, k: nat, i: nat | e in dirs && e < |mem| && k < NENT && i < NENT
      ensures if e == d && k == 0 && from <= i < j1 then !Present(Pte(mem2, e, k, i))
              else Pte(mem2, e, k, i) == Pte(mem, e, k, i)
    {
      assert Pte(mem1, e, k, i) == Pte(mem1, e, k, i);
    }
  }

  lemma DroppedKernelled(data: nat, owner: seq<Owner>, mem: seq<Page>, owner1: seq<Owner>, mem1: seq<Page>,
                         dirs: set<nat>, d: nat, from: nat, upto: nat, e: nat)
    requires Dropped(owner, mem, owner1, mem1, dirs, d, from, upto) && upto <= NUSER && e in dirs && e < |mem|
             && Kernelled(data, mem, e)
    ensures Kernelled(data, mem1, e)
  {
    StillKernelled(data, mem, mem1, dirs, e);
  }

  /** Nothing to drop where no page is. */
  lemma DroppedNone(kend: nat, mem: seq<Page>, owner: seq<Owner>, dirs: set<nat>, free: seq<nat>, d: nat, j: nat,
                    j1: nat)
    requires Inv(kend, mem, owner, dirs, free) && d in dirs && d < |mem| && j <= j1 <= NUSER && NoUser(mem, d, j, j1)
    ensures Dropped(owner, mem, owner, mem, dirs, d, j, j1)
  {
    forall f: nat | f < NFRAMES && owner[f].User? && owner[f].d == d
      ensures !(j <= owner[f].j < j1)
    {
      assert OwnerOk(mem, owner, dirs, f);
    }
  }

  /** The page table for user memory is part of every finished address space. */
  lemma TableThere(data: nat, mem: seq<Page>, d: nat)
    requires d < |mem| && Kernelled(data, mem, d)
    ensures Present(mem[d][0])
  {
    assert Pte(mem, d, 0, NENT - 1) == KernelPte(data, NENT - 1);
  }

  /** d has got user pages from..upto, filled by pages, and frames from the free list for them;
      nothing else has changed. */
  ghost predicate Raised(owner: seq<Owner>, mem: seq<Page>, owner1: seq<Owner>, mem1: seq<Page>, dirs: set<nat>, d: nat,
                         from: nat, upto: nat, pages: seq<Page>)
  {
    && |owner1| == |owner| == |mem| == |mem1| && upto <= NUSER && |pages| >= upto
    && (forall f: nat {:trigger owner1[f]} {:trigger mem1[f]} | f < |owner| ::
          && (owner1[f] != owner[f] ==>
              && owner[f] == Free && owner1[f].User? && owner1[f].d == d
              && from <= owner1[f].j < upto)
          && (mem1[f] != mem[f] ==> owner[f] == Table(d, 0) || owner1[f] != owner[f]))
    && forall e: nat, k: nat, j: nat {:trigger Pte(mem1, e, k, j)} | e in dirs && e < |mem| && k < NENT && j < NENT ::
         if e == d && k == 0 && from <= j < upto
         then Present(Pte(mem1, e, k, j)) && FrameOf(Pte(mem1, e, k, j)) < |mem|
             && mem1[FrameOf(Pte(mem1, e, k, j))] == pages[j]
         else Pte(mem1, e, k, j) == Pte(mem, e, k, j)
  }

  lemma RaisedNone(owner: seq<Owner>, mem: seq<Page>, dirs: set<nat>, d: nat, from: nat, pages: seq<Page>)
    requires |owner| == |mem| && from <= NUSER && |pages| >= from
    ensures Raised(owner, mem, owner, mem, dirs, d, from, from, pages)
  {
  }

  /** A held frame f with the next page's contents has been mapped. */
  lemma RaisedOn(kend: nat, owner: seq<Owner>, mem: seq<Page>, owner1: seq<Owner>, mem1: seq<Page>, owner2: seq<Owner>,
                 mem2: seq<Page>,
                 dirs: set<nat>, free1: seq<nat>, d: nat, from: nat, j: nat, f: nat, pages: seq<Page>)
    requires Raised(owner, mem, owner1, mem1, dirs, d, from, j, pages) && from <= j < NUSER && j < |pages|
    requires Inv(kend, mem1, owner1, dirs, free1) && d in dirs && d < |mem| && Present(mem1[d][0])
    requires kend <= f < NFRAMES && owner1[f] == Free && |mem2| == |mem1|
    requires owner2 == owner1[f := User(d, j)] && OnePte(mem1, mem2, dirs, d, 0, j, Word(f, PTE_P + PTE_W + PTE_U))
    requires mem2[f] == pages[j] && forall g: nat {:trigger mem2[g]} | g < NFRAMES && g != f
             && owner1[g] != Table(d, 0) :: mem2[g] == mem1[g]
    ensures Raised(owner, mem, owner2, mem2, dirs, d, from, j + 1, pages)
  {
    forall g: nat | g < |owner|
      ensures owner2[g] != owner[g] ==>
              && owner[g] == Free && owner2[g].User? && owner2[g].d == d
              && from <= owner2[g].j < j + 1
      ensures mem2[g] != mem[g] ==> owner[g] == Table(d, 0) || owner2[g] != owner[g]
    {
      assert owner1[g] == owner1[g] && mem1[g] == mem1[g];
    }
    forall e: nat, k: nat, i: nat | e in dirs && e < |mem| && k < NENT && i < NENT
      ensures if e == d && k == 0 && from <= i < j + 1
              then Present(Pte(mem2, e, k, i)) && FrameOf(Pte(mem2, e, k, i)) < |mem|
                  && mem2[FrameOf(Pte(mem2, e, k, i))] == pages[i]
              else Pte(mem2, e, k, i) == Pte(mem, e, k, i)
    {
      assert SpaceOk(kend, mem1, owner1, d);
      assert Pte(mem1, e, k, i) == Pte(mem1, e, k, i);
    }
  }

  /** Everything has its owner back, and all that anybody owns is as it was. */
  ghost predicate Restored(owner: seq<Owner>, mem: seq<Page>, owner1: seq<Owner>, mem1: seq<Page>, dirs: set<nat>,
                           d: nat, from: nat, upto: nat) {
    && owner1 == owner && |owner| == |mem| == |mem1| && d < |mem|
    && (forall f: nat {:trigger mem1[f]} | f < |owner| && owner[f] != Free && owner[f] != Table(d, 0) ::
        mem1[f] == mem[f])
    && NoUser(mem1, d, from, NUSER)
    && forall e: nat, k: nat, i: nat {:trigger Pte(mem1, e, k, i)} |
         e in dirs && e < |mem| && k < NENT && i < NENT && !(e == d && k == 0 && from <= i < upto) ::
         Pte(mem1, e, k, i) == Pte(mem, e, k, i)
  }

  /** Dropping what was raised gives every frame back. */
  lemma GivenBack(kend: nat, owner: seq<Owner>, mem: seq<Page>, owner1: seq<Owner>, mem1: seq<Page>, owner2: seq<Owner>,
                  mem2: seq<Page>,
                  dirs: set<nat>, free: seq<nat>, d: nat, from: nat, j: nat, upto: nat, pages: seq<Page>)
    requires Inv(kend, mem, owner, dirs, free) && d in dirs && d < |mem| && NoUser(mem, d, from, NUSER)
    requires Raised(owner, mem, owner1, mem1, dirs, d, from, j, pages) && from <= j <= upto <= NUSER
    requires Dropped(owner1, mem1, owner2, mem2, dirs, d, from, upto)
    ensures Restored(owner, mem, owner2, mem2, dirs, d, from, upto)
  {
    forall f: nat | f < |owner|
      ensures owner2[f] == owner[f] && (owner[f] != Free && owner[f] != Table(d, 0) ==> mem2[f] == mem[f])
    {
      assert owner1[f] == owner1[f] && mem1[f] == mem1[f];
      assert OwnerOk(mem, owner, dirs, f);
    }
    forall e: nat, k: nat, i: nat | e in dirs && e < |mem| && k < NENT && i < NENT
        && !(e == d && k == 0 && from <= i < upto)
      ensures Pte(mem2, e, k, i) == Pte(mem, e, k, i)
    {
      assert Pte(mem1, e, k, i) == Pte(mem1, e, k, i);
    }
  }

  lemma RaisedKernelled(data: nat, owner: seq<Owner>, mem: seq<Page>, owner1: seq<Owner>, mem1: seq<Page>,
                        dirs: set<nat>, d: nat, from: nat, upto: nat, pages: seq<Page>, e: nat)
    requires Raised(owner, mem, owner1, mem1, dirs, d, from, upto, pages) && e in dirs && e < |mem|
             && Kernelled(data, mem, e)
    ensures Kernelled(data, mem1, e)
  {
    StillKernelled(data, mem, mem1, dirs, e);
  }

  lemma AllKernelled(data: nat, owner: seq<Owner>, mem: seq<Page>, owner1: seq<Owner>, mem1: seq<Page>,
                     dirs: set<nat>, d: nat, from: nat, upto: nat, pages: seq<Page>)
    requires Raised(owner, mem, owner1, mem1, dirs, d, from, upto, pages)
    requires forall e: nat {:trigger e in dirs} | e in dirs :: e < |mem|
    requires forall e: nat {:trigger Kernelled(data, mem, e)} | e in dirs :: Kernelled(data, mem, e)
    ensures forall e: nat {:trigger Kernelled(data, mem1, e)} | e in dirs :: Kernelled(data, mem1, e)
  {
    forall e: nat | e in dirs ensures Kernelled(data, mem1, e) {
      assert Kernelled(data, mem, e);
      RaisedKernelled(data, owner, mem, owner1, mem1, dirs, d, from, upto, pages, e);
    }
  }

  lemma RaisedRest(owner: seq<Owner>, mem: seq<Page>, owner1: seq<Owner>, mem1: seq<Page>,
                   dirs: set<nat>, d: nat, from: nat, j: nat, pages: seq<Page>)
    requires Raised(owner, mem, owner1, mem1, dirs, d, from, j, pages) && d in dirs && d < |mem| && from <= j
             && NoUser(mem, d, from, NUSER)
    ensures NoUser(mem1, d, j, NUSER)
  {
    forall i: nat | j <= i < NUSER && i < NENT
      ensures !Present(Pte(mem1, d, 0, i))
    {
      assert !Present(Pte(mem, d, 0, i));
    }
  }

  // ----- Copying an address space

  /** What anybody owns is as it was. */
  ghost predicate Kept(owner: seq<Owner>, mem: seq<Page>, mem1: seq<Page>) {
    |owner| == |mem| == |mem1| && forall f: nat {:trigger mem1[f]} | f < |owner| && owner[f] != Free ::
        mem1[f] == mem[f]
  }

  /** r has the same first n pages as d had, each in a frame that was free; everybody else has
      what they had. */
  ghost predicate Copied(owner: seq<Owner>, mem: seq<Page>, owner1: seq<Owner>, mem1: seq<Page>, d: nat, r: nat,
                         n: nat) {
    && Isolated(owner, mem, owner1, mem1, r) && r < |mem| && d < |mem| && n <= NUSER && NoUser(mem1, r, n, NUSER)
    && NobodyYet(owner, r)
    && forall j: nat {:trigger Pte(mem1, r, 0, j)} | j < n ::
         var f, g := FrameOf(Pte(mem, d, 0, j)), FrameOf(Pte(mem1, r, 0, j));
         f < |mem| && g < |mem| && Present(Pte(mem1, r, 0, j)) && owner1[g] == User(r, j) && mem1[g] == mem[f]
  }

  /** The pages to copy. */
  function ParentPages(mem: seq<Page>, d: nat, n: nat): (p: seq<Page>)
    requires d < |mem| && n <= NUSER
    ensures |p| == n
  {
    seq(n, (j: nat) requires j < n => if FrameOf(Pte(mem, d, 0, j)) < |mem| then mem[FrameOf(Pte(mem, d, 0, j))]
        else Filled(0))
  }

  lemma RaisedIsolated(owner: seq<Owner>, mem: seq<Page>, owner1: seq<Owner>, mem1: seq<Page>, dirs: set<nat>, d: nat,
                       j: nat, pages: seq<Page>)
    requires Raised(owner, mem, owner1, mem1, dirs, d, 0, j, pages)
    ensures Isolated(owner, mem, owner1, mem1, d)
  {
  }

  /** What somebody else has stays as it is. */
  lemma OthersPage(kend: nat, mem: seq<Page>, owner: seq<Owner>, dirs: set<nat>, free: seq<nat>, owner1: seq<Owner>,
                   mem1: seq<Page>,
                   d: nat, r: nat, j: nat)
    requires Inv(kend, mem, owner, dirs, free) && d in dirs && d < |mem| && r !in dirs && j < NUSER
             && Present(Pte(mem, d, 0, j))
    requires Isolated(owner, mem, owner1, mem1, r) && Pte(mem1, d, 0, j) == Pte(mem, d, 0, j)
    ensures FrameOf(Pte(mem, d, 0, j)) < |mem| && mem1[FrameOf(Pte(mem1, d, 0, j))] == mem[FrameOf(Pte(mem, d, 0, j))]
  {
    assert SpaceOk(kend, mem, owner, d);
    var f := FrameOf(Pte(mem, d, 0, j));
    assert owner[f] == User(d, j);
    assert owner1[f] == owner1[f];
  }

  /** During the copying, with the first j pages done. */
  lemma CopyingOn(kend: nat, mem: seq<Page>, owner: seq<Owner>, dirs: set<nat>, free: seq<nat>, owner1: seq<Owner>,
                  mem1: seq<Page>,
                  owner2: seq<Owner>, mem2: seq<Page>, d: nat, r: nat, j: nat, pages: seq<Page>)
    requires Inv(kend, mem, owner, dirs, free) && d in dirs && d < |mem| && r !in dirs && j < NUSER
             && Present(Pte(mem, d, 0, j))
    requires Isolated(owner, mem, owner1, mem1, r) && Pte(mem1, d, 0, j) == Pte(mem, d, 0, j)
    requires Raised(owner1, mem1, owner2, mem2, dirs + {r}, r, 0, j, pages)
    ensures Isolated(owner, mem, owner2, mem2, r) && Pte(mem2, d, 0, j) == Pte(mem, d, 0, j)
    ensures FrameOf(Pte(mem, d, 0, j)) < |mem| && mem2[FrameOf(Pte(mem2, d, 0, j))] == mem[FrameOf(Pte(mem, d, 0, j))]
  {
    RaisedIsolated(owner1, mem1, owner2, mem2, dirs + {r}, r, j, pages);
    IsolatedOn(owner, mem, owner1, mem1, owner2, mem2, r);
    OthersPage(kend, mem, owner, dirs, free, owner2, mem2, d, r, j);
  }

  lemma UserFrames(kend: nat, mem: seq<Page>, owner: seq<Owner>, dirs: set<nat>, free: seq<nat>, d: nat, n: nat)
    requires Inv(kend, mem, owner, dirs, free) && d in dirs && d < |mem| && n <= NUSER
    requires forall j: nat {:trigger Pte(mem, d, 0, j)} | j < n :: Present(Pte(mem, d, 0, j))
    ensures forall j: nat {:trigger Pte(mem, d, 0, j)} | j < n :: FrameOf(Pte(mem, d, 0, j)) < |mem|
  {
    assert SpaceOk(kend, mem, owner, d);
  }

  /** The copy is complete. */
  lemma CopyDone(kend: nat, mem: seq<Page>, owner: seq<Owner>, owner1: seq<Owner>, mem1: seq<Page>,
                 owner2: seq<Owner>, mem2: seq<Page>, dirs2: set<nat>, free2: seq<nat>, d: nat, r: nat, n: nat)
    requires |mem| == |owner| && d < |mem| && n <= NUSER && Isolated(owner, mem, owner1, mem1, r) && NobodyYet(owner, r)
    requires Inv(kend, mem2, owner2, dirs2, free2) && r in dirs2 && r < |mem1| && NoUser(mem1, r, 0, NUSER)
    requires Raised(owner1, mem1, owner2, mem2, dirs2, r, 0, n, ParentPages(mem, d, n))
    requires forall j: nat {:trigger Pte(mem, d, 0, j)} | j < n :: FrameOf(Pte(mem, d, 0, j)) < |mem|
    ensures Copied(owner, mem, owner2, mem2, d, r, n)
  {
    var parent := ParentPages(mem, d, n);
    RaisedIsolated(owner1, mem1, owner2, mem2, dirs2, r, n, parent);
    IsolatedOn(owner, mem, owner1, mem1, owner2, mem2, r);
    RaisedRest(owner1, mem1, owner2, mem2, dirs2, r, 0, n, parent);
    assert SpaceOk(kend, mem2, owner2, r);
    forall j: nat | j < n
      ensures var f, g := FrameOf(Pte(mem, d, 0, j)), FrameOf(Pte(mem2, r, 0, j));
              f < |mem| && g < |mem| && Present(Pte(mem2, r, 0, j)) && owner2[g] == User(r, j) && mem2[g] == mem[f]
    {
      assert parent[j] == mem[FrameOf(Pte(mem, d, 0, j))];
      assert Present(Pte(mem2, r, 0, j)) && mem2[FrameOf(Pte(mem2, r, 0, j))] == parent[j];
    }
  }

  /** Giving up a new address space restores what was there before it. */
  lemma Undone(owner: seq<Owner>, mem: seq<Page>, owner1: seq<Owner>, mem1: seq<Page>, owner2: seq<Owner>,
               mem2: seq<Page>, r: nat)
    requires Isolated(owner, mem, owner1, mem1, r) && NobodyYet(owner, r) && Gone(owner1, mem1, owner2, mem2, r)
    ensures owner2 == owner && Kept(owner, mem, mem2)
  {
    forall f: nat | f < |owner|
      ensures owner2[f] == owner[f] && (owner[f] != Free ==> mem2[f] == mem[f])
    {
      assert !Of(owner, r, f);
      assert owner1[f] == owner1[f] && mem1[f] == mem1[f];
    }
  }

  // ----- Giving up an address space

  /** Directory d's frames are held, tables below the i-th free already; no user page is left. */
  ghost predicate Emptying(owner: seq<Owner>, owner1: seq<Owner>, d: nat, i: nat) {
    && |owner1| == |owner|
    && forall f: nat {:trigger owner1[f]} | f < |owner| ::
         owner1[f] == if !Of(owner, d, f) then owner[f] else if owner[f].Table? && owner[f].k < i then Free else Held
  }

  /** All frames of d are free. */
  ghost predicate Emptied(owner: seq<Owner>, owner1: seq<Owner>, d: nat) {
    && |owner1| == |owner|
    && forall f: nat {:trigger owner1[f]} | f < |owner| :: owner1[f] == if Of(owner, d, f) then Free else owner[f]
  }

  function HeldBack(owner: seq<Owner>, d: nat): (r: seq<Owner>)
    ensures Emptying(owner, r, d, 0)
  {
    seq(|owner|, (f: nat) requires f < |owner| => if Of(owner, d, f) then Held else owner[f])
  }

  /** A directory without user pages leaves the set of directories. */
  lemma DirRemoved(kend: nat, mem: seq<Page>, owner: seq<Owner>, dirs: set<nat>, free: seq<nat>, d: nat)
    requires Inv(kend, mem, owner, dirs, free) && d in dirs && d < |mem| && NoUser(mem, d, 0, NUSER)
    ensures Inv(kend, mem, HeldBack(owner, d), dirs - {d}, free)
    ensures forall f: nat {:trigger owner[f]} | f < NFRAMES && owner[f].User? :: owner[f].d != d
    ensures forall k: nat {:trigger mem[d][k]} | k < NENT && Present(mem[d][k]) ::
              kend <= FrameOf(mem[d][k]) < NFRAMES && owner[FrameOf(mem[d][k])] == Table(d, k)
    ensures forall f: nat {:trigger owner[f]} | f < NFRAMES && owner[f].Table? && owner[f].d == d ::
              owner[f].k < NENT && Present(mem[d][owner[f].k]) && FrameOf(mem[d][owner[f].k]) == f
    ensures owner[d] == Dir && kend <= d
  {
    assert SpaceOk(kend, mem, owner, d);
    var owner1 := HeldBack(owner, d);
    forall f: nat | f < NFRAMES
      ensures owner[f].User? ==> owner[f].d != d
      ensures owner[f].Table? && owner[f].d == d ==>
              && owner[f].k < NENT && Present(mem[d][owner[f].k])
              && FrameOf(mem[d][owner[f].k]) == f
      ensures OwnerOk(mem, owner1, dirs - {d}, f)
    {
      assert OwnerOk(mem, owner, dirs, f);
    }
    forall e: nat | e in dirs - {d}
      ensures SpaceOk(kend, mem, owner1, e)
    {
      assert SpaceOk(kend, mem, owner, e);
    }
  }

  /** All of d's frames are free, and what anybody else owns is untouched. */
  ghost predicate Gone(owner: seq<Owner>, mem: seq<Page>, owner1: seq<Owner>, mem1: seq<Page>, d: nat) {
    && |mem1| == |mem| == |owner| && Emptied(owner, owner1, d)
    && forall f: nat {:trigger mem1[f]} | f < |mem| && owner1[f] != Free :: mem1[f] == mem[f]
  }

  /** First the user pages, then the tables and the directory. */
  lemma GoneOn(owner: seq<Owner>, mem: seq<Page>, owner1: seq<Owner>, mem1: seq<Page>, owner2: seq<Owner>,
               mem2: seq<Page>, dirs: set<nat>, d: nat)
    requires Dropped(owner, mem, owner1, mem1, dirs, d, 0, NUSER) && Emptied(owner1, owner2, d) && |mem2| == |mem1|
    requires forall g: nat {:trigger mem2[g]} | g < |mem2| && owner2[g] != Free :: mem2[g] == mem1[g]
    requires forall f: nat {:trigger owner[f]} | f < |owner| && owner[f].User? :: owner[f].j < NUSER
    ensures Gone(owner, mem, owner2, mem2, d)
  {
    forall f: nat | f < |owner|
      ensures owner2[f] == (if Of(owner, d, f) then Free else owner[f])
      ensures owner2[f] != Free ==> mem2[f] == mem[f]
    {
      assert owner1[f] == owner1[f] && mem1[f] == mem1[f];
    }
  }

  lemma UserNumbers(kend: nat, mem: seq<Page>, owner: seq<Owner>, dirs: set<nat>, free: seq<nat>)
    requires Inv(kend, mem, owner, dirs, free)
    ensures forall f: nat {:trigger owner[f]} | f < NFRAMES && owner[f].User? :: owner[f].j < NUSER
  {
    forall f: nat | f < NFRAMES && owner[f].User? ensures owner[f].j < NUSER { assert OwnerOk(mem, owner, dirs, f); }
  }

  class VirtualMemory {
    const kend: nat // first frame after the kernel
    const data: nat // frame where the kernel's data begins
    var mem: seq<Page>
    var freelist: nat
    ghost var owner: seq<Owner>
    ghost var dirs: set<nat>
    ghost var free: seq<nat>

    ghost predicate Core()
      reads this
    {
      EXTMEM < data < kend && Inv(kend, mem, owner, dirs, free) && Chain(mem, freelist, free)
    }

    /** kinit: every frame after the kernel goes on the free list. */
    constructor (data: nat, kend: nat)
      requires EXTMEM < data < kend <= NFRAMES
      ensures Valid() && dirs == {} && this.data == data && this.kend == kend
      ensures forall f: nat {:trigger owner[f]} | f < NFRAMES :: owner[f] == if f < kend then Kernel else Free
    {
      this.data, this.kend := data, kend;
      mem, freelist, free, dirs := seq(NFRAMES, _ => Filled(0)), 0, [], {};
      owner := seq(NFRAMES, (f: nat) => if f < kend then Kernel else Held);
      new;
      var p := kend;
      while p + 1 <= NFRAMES
        invariant Core() && dirs == {} && kend <= p <= NFRAMES
        invariant forall f: nat {:trigger owner[f]} | f < NFRAMES ::
                  owner[f] == if f < kend then Kernel else if f < p then Free else Held
      {
        Release(p);
        p := p + 1;
      }
    }

    /** kalloc; 0 when there is no frame left. */
    method KAlloc() returns (f: nat)
      requires Core()
      modifies this`freelist, this`owner, this`free
      ensures Core() && (f == 0 <==> old(free) == [])
      ensures f == 0 ==> owner == old(owner) && free == old(free) && freelist == old(freelist)
      ensures f != 0 ==>
                && f == old(free)[|old(free)| - 1] && free == old(free)[..|old(free)| - 1]
                && kend <= f < NFRAMES && old(owner)[f] == Free && owner == old(owner)[f := Held]
    {
      var r := freelist;
      f := r / PGSIZE;
      if r != 0 {
        assert free != [] && f == free[|free| - 1];
        Popped(kend, mem, owner, dirs, free, freelist, f);
        freelist := mem[f][0];
        owner, free := owner[f := Held], free[..|free| - 1];
      }
    }

    /** kfree: the frame is filled with junk and becomes the first of the list. */
    method KFree(f: nat)
      requires Chain(mem, freelist, free) && 0 < f < |mem| && f !in free && |mem| == |owner|
      modifies this`mem, this`freelist, this`owner, this`free
      ensures mem == old(mem)[f := Filled(JUNK)[0 := old(freelist)]] && Chain(mem, freelist, free)
      ensures owner == old(owner)[f := Free] && free == old(free) + [f]
    {
      ChainPushed(mem, freelist, free, f, mem[f := Filled(JUNK)[0 := freelist]]);
      mem := mem[f := Filled(JUNK)];
      mem := mem[f := mem[f][0 := freelist]];
      freelist := f * PGSIZE;
      owner, free := owner[f := Free], free + [f];
    }

    /** walkpgdir: the frame of the page table for va, 0 if there is none. */
    method WalkPgDir(d: nat, va: nat, create: bool) returns (t: nat)
      requires Core() && d in dirs && va < UINT && d < |mem|
      modifies this`mem, this`freelist, this`owner, this`free
      ensures Core() && d < |mem| && Pdx(va) < NENT
      ensures SamePtes(old(mem), mem, dirs) && Grew(old(owner), old(mem), owner, mem, d, NFRAMES)
      ensures t == 0 || Present(old(mem)[d][Pdx(va)]) ==> mem == old(mem) && owner == old(owner) && free == old(free)
      ensures t != 0 ==> Present(mem[d][Pdx(va)]) && FrameOf(mem[d][Pdx(va)]) == t < |mem|
      ensures t == 0 <==> !Present(old(mem)[d][Pdx(va)]) && (!create || old(free) == [])
      ensures t != 0 && !Present(old(mem)[d][Pdx(va)]) ==>
                && t == old(free)[|old(free)| - 1] && free == old(free)[..|old(free)| - 1]
                && mem == old(mem)[t := Filled(0)][d := old(mem)[d][Pdx(va) := Word(t, PTE_P + PTE_W + PTE_U)]]
                && old(owner)[t] == Free && owner == old(owner)[t := Table(d, Pdx(va))]
    {
      PageIndex(va);
      var k := Pdx(va);
      assert SpaceOk(kend, mem, owner, d);
      if Present(mem[d][k]) {
        return FrameOf(mem[d][k]);
      }
      if !create { return 0; }
      t := KAlloc();
      if t == 0 { return; }
      NewTable(d, k, t);
    }

    /** The new page table of walkpgdir, zeroed and entered in the directory. */
    method NewTable(d: nat, k: nat, t: nat)
      requires Core() && d in dirs && d < |mem| && k < NENT && !Present(mem[d][k])
      requires kend <= t < NFRAMES && owner[t] == Held
      modifies this`mem, this`owner
      ensures Core() && SamePtes(old(mem), mem, dirs)
      ensures mem == old(mem)[t := Filled(0)][d := old(mem)[d][k := Word(t, PTE_P + PTE_W + PTE_U)]]
      ensures owner == old(owner)[t := Table(d, k)]
    {
      assert SpaceOk(kend, mem, owner, d);
      Overwritten(kend, mem, owner, dirs, free, freelist, t, Filled(0));
      mem := mem[t := Filled(0)];
      TableAdded(kend, mem, owner, dirs, free, d, k, t, Word(t, PTE_P + PTE_W + PTE_U));
      mem := mem[d := mem[d][k := Word(t, PTE_P + PTE_W + PTE_U)]];
      owner := owner[t := Table(d, k)];
    }

    /** *pte = pa | perm | PTE_P, for the frame f of pa */
    method SetPte(d: nat, k: nat, j: nat, t: nat, f: nat, perm: nat)
      requires Core() && d in dirs && k < NENT && j < NENT && d < |mem| && Present(mem[d][k])
               && FrameOf(mem[d][k]) == t < |mem|
      requires !Present(Pte(mem, d, k, j)) && perm % 2 == 0 && perm < PGSIZE
      requires if UserPage(k, j) then kend <= f < NFRAMES && owner[f] == Held && perm == PTE_W + PTE_U
               else f == k * NENT + j
      modifies this`mem, this`owner
      ensures Grew(old(owner), old(mem), owner, mem, d, if UserPage(k, j) then f else NFRAMES)
      ensures Core() && mem[d] == old(mem)[d] && OnePte(old(mem), mem, dirs, d, k, j, Word(f, perm + PTE_P))
      ensures mem == old(mem)[t := old(mem)[t][j := Word(f, perm + PTE_P)]]
      ensures owner == if UserPage(k, j) then old(owner)[f := User(d, j)] else old(owner)
    {
      ghost var owner1 := if UserPage(k, j) then owner[f := User(d, j)] else owner;
      var w := Word(f, perm + PTE_P);
      EntryWritten(kend, mem, owner, dirs, free, d, k, j, w);
      Mapped(kend, mem, owner, dirs, free, d, k, j, f, w, mem[t := mem[t][j := w]], owner1);
      GrewByEntry(owner, mem, d, k, j, t, f, mem[t][j := w]);
      ChainElsewhere(mem, freelist, free, t, mem[t][j := w]);
      mem := mem[t := mem[t][j := w]];
      owner := owner1;
    }

    /** The store of mappages, with the page table there. */
    method StorePte(d: nat, a: nat, pa: nat, perm: nat, t: nat)
      requires Core() && d in dirs && d < |mem| && a < UINT && a % PGSIZE == 0 && pa % PGSIZE == 0 && perm % 2 == 0
               && perm < PGSIZE
      requires Pdx(a) < NENT && Present(mem[d][Pdx(a)]) && FrameOf(mem[d][Pdx(a)]) == t < |mem|
               && !Present(Pte(mem, d, Pdx(a), Ptx(a)))
      requires if UserPage(Pdx(a), Ptx(a)) then kend <= pa / PGSIZE < NFRAMES && owner[pa / PGSIZE] == Held
               && perm == PTE_W + PTE_U
               else pa == a
      modifies this`mem, this`owner
      ensures Core() && d < |mem| && mem[d] == old(mem)[d]
      ensures OnePte(old(mem), mem, dirs, d, Pdx(a), Ptx(a), Word(pa / PGSIZE, perm + PTE_P))
      ensures Stored(old(owner), old(mem), free, owner, mem, free, d, a, pa, perm)
      ensures Grew(old(owner), old(mem), owner, mem, d, FrameGiven(a, pa))
    {
      PageIndex(a);
      SetPte(d, Pdx(a), Ptx(a), t, pa / PGSIZE, perm);
    }

    /** walkpgdir(pgdir, a, 1), counted: a table that was missing costs a frame. */
    method WalkCreate(d: nat, a: nat) returns (t: nat)
      requires Core() && d in dirs && a < UINT && d < |mem| && Pdx(a) < NENT && KernelTable(Pdx(a))
      modifies this`mem, this`freelist, this`owner, this`free
      ensures Core() && d < |mem| && SamePtes(old(mem), mem, dirs)
      ensures forall g: nat {:trigger Grew(old(owner), old(mem), owner, mem, d, g)} ::
              Grew(old(owner), old(mem), owner, mem, d, g)
      ensures t == 0 || Present(old(mem)[d][Pdx(a)]) ==> mem == old(mem) && owner == old(owner) && free == old(free)
      ensures Present(old(mem)[d][Pdx(a)]) ==> t != 0
      ensures t == 0 ==> free == [] && |Missing(mem[d])| > 0
      ensures t != 0 ==>
                && Present(mem[d][Pdx(a)]) && FrameOf(mem[d][Pdx(a)]) == t < |mem|
                && |free| - |Missing(mem[d])| == |old(free)| - |Missing(old(mem)[d])|
      ensures forall f: nat {:trigger owner[f]} | f < |owner| && old(owner)[f] == Held :: owner[f] == Held
    {
      t := WalkPgDir(d, a, true);
      ghost var k := Pdx(a);
      if t == 0 { assert k in Missing(mem[d]); }
      if t != 0 && !Present(old(mem)[d][k]) { TableFound(old(mem)[d], k, Word(t, PTE_P + PTE_W + PTE_U)); }
    }

    /** One round of mappages. */
    method MapPage(d: nat, a: nat, pa: nat, perm: nat) returns (ok: bool)
      requires Core() && d in dirs && d < |mem| && a < UINT && a % PGSIZE == 0 && pa % PGSIZE == 0 && perm % 2 == 0
               && perm < PGSIZE
      requires Pdx(a) < NENT && !Present(Pte(mem, d, Pdx(a), Ptx(a))) && KernelTable(Pdx(a))
      requires if UserPage(Pdx(a), Ptx(a)) then kend <= pa / PGSIZE < NFRAMES && owner[pa / PGSIZE] == Held
               && perm == PTE_W + PTE_U
               else pa == a
      modifies this`mem, this`freelist, this`owner, this`free
      ensures Core() && d < |mem|
      ensures !ok ==> mem == old(mem) && owner == old(owner) && free == old(free) && free == [] && |Missing(mem[d])| > 0
      ensures Grew(old(owner), old(mem), owner, mem, d, FrameGiven(a, pa))
      ensures ok ==>
                && OnePte(old(mem), mem, dirs, d, Pdx(a), Ptx(a), Word(pa / PGSIZE, perm + PTE_P))
                && |free| - |Missing(mem[d])| == |old(free)| - |Missing(old(mem)[d])|
      ensures Present(old(mem)[d][Pdx(a)]) ==> ok && Stored(old(owner), old(mem), old(free), owner, mem, free, d, a, pa,
                                                            perm)
    {
      PageIndex(a);
      var t := WalkCreate(d, a);
      if t == 0 { return false; }
      ghost var owner1, mem1 := owner, mem;
      StorePte(d, a, pa, perm, t);
      GrewOn(old(owner), old(mem), owner1, mem1, owner, mem, d, FrameGiven(a, pa));
      ok := true;
    }

    /** A round of mappages seen from its start: pages v0 .. v are mapped to the frames from f0 on. */
    method MapNext(d: nat, a: nat, pa: nat, perm: nat,
                   ghost v0: nat, ghost v: nat, ghost v1: nat, ghost f0: nat, ghost g: nat, ghost owner0: seq<Owner>,
                       ghost mem0: seq<Page>)
      returns (ok: bool)
      requires Core() && d in dirs && d < |mem| && a < UINT && a % PGSIZE == 0 && pa % PGSIZE == 0 && perm % 2 == 0
               && perm < PGSIZE
      requires g == FrameGiven(a, pa) && v0 <= v == a / PGSIZE && v1 == v + 1 && pa / PGSIZE == v - v0 + f0
               && d < |mem0| && Absent(mem0, d, v, v1)
      requires RangeMapped(mem0, mem, dirs, d, v0, v, f0, perm + PTE_P) && Grew(owner0, mem0, owner, mem, d, g)
      requires if a < USERTOP
               then kend <= pa / PGSIZE < NFRAMES && owner[pa / PGSIZE] == Held && perm == PTE_W + PTE_U
               else pa == a && (a < 0x100_0000 || a >= DEVSPACE * PGSIZE)
      modifies this`mem, this`freelist, this`owner, this`free
      ensures Core() && d < |mem|
      ensures ok ==> RangeMapped(mem0, mem, dirs, d, v0, v1, f0, perm + PTE_P)
      ensures ok ==> |free| - |Missing(mem[d])| == |old(free)| - |Missing(old(mem)[d])|
      ensures |old(free)| >= |Missing(old(mem)[d])| ==> ok
      ensures !ok ==> mem == old(mem) && free == []
      ensures Present(old(mem)[d][Pdx(a)]) ==>
                ok && Stored(old(owner), old(mem), old(free), owner, mem, free, d, a, pa, perm)
      ensures Grew(owner0, mem0, owner, mem, d, g)
    {
      PageIndex(a);
      assert Pte(mem, d, Pdx(a), Ptx(a)) == Pte(mem0, d, Pdx(a), Ptx(a));
      ok := MapPage(d, a, pa, perm);
      GrewOn(owner0, mem0, old(owner), old(mem), owner, mem, d, g);
      if ok {
        RangeGrows(mem0, old(mem), mem, dirs, d, v0, v, f0, perm + PTE_P, Pdx(a), Ptx(a));
      }
    }

    /** mappages of whole pages: the kernel's to themselves, or one page for the user. */
    method MapPages(d: nat, la: nat, size: nat, pa0: nat, perm: nat) returns (ok: bool)
      requires Core() && d in dirs && d < |mem| && size > 0 && la + size <= UINT && Pdx(la) < NENT && perm % 2 == 0
               && perm < PGSIZE
      requires la % PGSIZE == 0 && size % PGSIZE == 0 && pa0 % PGSIZE == 0
      requires Absent(mem, d, la / PGSIZE, (la + size) / PGSIZE)
      requires if la < USERTOP
               then size == PGSIZE && kend <= pa0 / PGSIZE < NFRAMES && owner[pa0 / PGSIZE] == Held
                   && perm == PTE_W + PTE_U
               else pa0 == la && (la + size <= 0x100_0000 || la >= DEVSPACE * PGSIZE)
      modifies this`mem, this`freelist, this`owner, this`free
      ensures Core() && d < |mem|
      ensures ok ==>
                && RangeMapped(old(mem), mem, dirs, d, la / PGSIZE, (la + size) / PGSIZE, pa0 / PGSIZE, perm + PTE_P)
                && |free| - |Missing(mem[d])| == |old(free)| - |Missing(old(mem)[d])|
      ensures |old(free)| >= |Missing(old(mem)[d])| ==> ok
      ensures (!ok ==> free == []) && OnlyRange(old(mem), mem, dirs, d, la / PGSIZE, (la + size) / PGSIZE)
      ensures size == PGSIZE && Present(old(mem)[d][Pdx(la)]) ==>
                ok && Stored(old(owner), old(mem), old(free), owner, mem, free, d, la, pa0, perm)
      ensures Grew(old(owner), old(mem), owner, mem, d, FrameGiven(la, pa0))
    {
      var last := (la + size - 1) / PGSIZE * PGSIZE;
      WholePages(la, size, pa0);
      ghost var v0, v1, f0 := la / PGSIZE, (la + size) / PGSIZE, pa0 / PGSIZE;
      ghost var upto;
      ok, upto := MapLoop(d, la, last, pa0, perm, v0, v1, f0);
      MappedOnly(old(mem), mem, dirs, d, v0, if ok then v1 else upto, v1, f0, perm + PTE_P);
    }

    /** The loop of mappages, over the pages from v0 up to v1 and the frames from f0 on. */
    method MapLoop(d: nat, la: nat, last: nat, pa0: nat, perm: nat, ghost v0: nat, ghost v1: nat, ghost f0: nat)
      returns (ok: bool, ghost upto: nat)
      requires Core() && d in dirs && d < |mem| && v0 < v1 && last < UINT && Pdx(la) < NENT && perm % 2 == 0
               && perm < PGSIZE
      requires la == v0 * PGSIZE && last == (v1 - 1) * PGSIZE && pa0 == f0 * PGSIZE && Absent(mem, d, v0, v1)
      requires if la < USERTOP
               then v1 == v0 + 1 && kend <= pa0 / PGSIZE < NFRAMES && owner[pa0 / PGSIZE] == Held
                   && perm == PTE_W + PTE_U
               else pa0 == la && (last < 0x100_0000 || la >= DEVSPACE * PGSIZE)
      modifies this`mem, this`freelist, this`owner, this`free
      ensures Core() && d < |mem|
      ensures ok ==>
                && RangeMapped(old(mem), mem, dirs, d, v0, v1, f0, perm + PTE_P)
                && |free| - |Missing(mem[d])| == |old(free)| - |Missing(old(mem)[d])|
      ensures |old(free)| >= |Missing(old(mem)[d])| ==> ok
      ensures !ok ==> free == [] && v0 <= upto < v1 && RangeMapped(old(mem), mem, dirs, d, v0, upto, f0, perm + PTE_P)
      ensures v1 == v0 + 1 && Present(old(mem)[d][Pdx(la)]) ==>
                ok && Stored(old(owner), old(mem), old(free), owner, mem, free, d, la, pa0, perm)
      ensures Grew(old(owner), old(mem), owner, mem, d, FrameGiven(la, pa0))
    {
      var a, pa := la, pa0;
      NothingMapped(mem, dirs, d, v0, f0, perm + PTE_P);
      ghost var v, g := v0, FrameGiven(la, pa0);
      while true
        invariant Core() && d < |mem| && v0 <= v < v1 && a == v * PGSIZE && pa == (v - v0 + f0) * PGSIZE
        invariant RangeMapped(old(mem), mem, dirs, d, v0, v, f0, perm + PTE_P)
        invariant |free| - |Missing(mem[d])| == |old(free)| - |Missing(old(mem)[d])|
        invariant Grew(old(owner), old(mem), owner, mem, d, g)
        invariant v == v0 ==> owner == old(owner) && mem == old(mem) && free == old(free)
        decreases last - a
      {
        AbsentPart(old(mem), d, v0, v1, v, v + 1);
        ok := MapNext(d, a, pa, perm, v0, v, v + 1, f0, g, old(owner), old(mem));
        if !ok { return ok, v; }
        v := v + 1;
        if a == last { return ok, v; }
        a, pa := a + PGSIZE, pa + PGSIZE;
      }
    }

    ghost predicate Valid()
      reads this
    {
      Core() && forall d: nat {:trigger Kernelled(data, mem, d)} | d in dirs :: Kernelled(data, mem, d)
    }

    /** mappages for the pages from v0 to v1, each to itself. */
    method MapRange(d: nat, v0: nat, v1: nat, perm: nat, ghost owner0: seq<Owner>, ghost mem0: seq<Page>)
      returns (ok: bool)
      requires Core() && d in dirs && d < |mem| && NUSER <= v0 < v1 <= NPAGES && (v1 <= NFRAMES || v0 >= DEVSPACE)
      requires perm % 2 == 0 && perm < PGSIZE && Absent(mem, d, v0, v1) && Grew(owner0, mem0, owner, mem, d, NFRAMES)
      modifies this`mem, this`freelist, this`owner, this`free
      ensures Core() && d < |mem| && Grew(owner0, mem0, owner, mem, d, NFRAMES)
      ensures ok ==>
                && RangeMapped(old(mem), mem, dirs, d, v0, v1, v0, perm + PTE_P)
                && |free| - |Missing(mem[d])| == |old(free)| - |Missing(old(mem)[d])|
      ensures |old(free)| >= |Missing(old(mem)[d])| ==> ok
      ensures (!ok ==> free == []) && OnlyRange(old(mem), mem, dirs, d, v0, v1)
    {
      ok := MapPages(d, v0 * PGSIZE, v1 * PGSIZE - v0 * PGSIZE, v0 * PGSIZE, perm);
      GrewOn(owner0, mem0, old(owner), old(mem), owner, mem, d, NFRAMES);
    }

    /** The four calls of mappages in setupkvm. */
    method MapKernel(d: nat) returns (ok: bool)
      requires Core() && d in dirs && d < |mem| && mem[d] == Filled(0) && data < NFRAMES
      modifies this`mem, this`freelist, this`owner, this`free
      ensures Core() && d < |mem| && (ok <==> |old(free)| >= 12)
      ensures if ok then Kernelled(data, mem, d) && |free| == |old(free)| - 12 else free == []
      ensures OtherPtes(old(mem), mem, dirs, d) && NoUser(mem, d, 0, NUSER)
      ensures Grew(old(owner), old(mem), owner, mem, d, NFRAMES)
    {
      AllMissing();
      ok := MapFour(d);
      OnlyKernel(old(mem), mem, dirs, d);
    }

    /** The loop of setupkvm. */
    method MapFour(d: nat) returns (ok: bool)
      requires Core() && d in dirs && d < |mem| && mem[d] == Filled(0) && data < NFRAMES && |Missing(mem[d])| == 12
      modifies this`mem, this`freelist, this`owner, this`free
      ensures Core() && d < |mem| && (ok <==> |old(free)| >= 12)
      ensures if ok then Kernelled(data, mem, d) && |free| == |old(free)| - 12 else free == []
      ensures OnlyRange(old(mem), mem, dirs, d, NUSER, NPAGES) && Grew(old(owner), old(mem), owner, mem, d, NFRAMES)
    {
      ghost var mem0, owner0 := mem, owner;
      ok := MapRange(d, NUSER, EXTMEM, PTE_W, owner0, mem0);
      ghost var mem1 := mem;
      OnlyOn(mem0, mem0, mem1, dirs, d, NUSER, EXTMEM);
      if !ok { return; }
      StillAbsent(mem0, mem1, dirs, d, NUSER, EXTMEM, NUSER, PTE_W + PTE_P, EXTMEM, NPAGES);
      AbsentPart(mem, d, EXTMEM, NPAGES, EXTMEM, data);
      ok := MapRange(d, EXTMEM, data, 0, owner0, mem0);
      ghost var mem2 := mem;
      OnlyOn(mem0, mem1, mem2, dirs, d, EXTMEM, data);
      if !ok { return; }
      StillAbsent(mem1, mem2, dirs, d, EXTMEM, data, EXTMEM, PTE_P, data, NPAGES);
      AbsentPart(mem, d, data, NPAGES, data, NFRAMES);
      ok := MapRange(d, data, NFRAMES, PTE_W, owner0, mem0);
      ghost var mem3 := mem;
      OnlyOn(mem0, mem2, mem3, dirs, d, data, NFRAMES);
      if !ok { return; }
      StillAbsent(mem2, mem3, dirs, d, data, NFRAMES, data, PTE_W + PTE_P, NFRAMES, NPAGES);
      AbsentPart(mem, d, NFRAMES, NPAGES, DEVSPACE, NPAGES);
      ok := MapRange(d, DEVSPACE, NPAGES, PTE_W, owner0, mem0);
      OnlyOn(mem0, mem3, mem, dirs, d, DEVSPACE, NPAGES);
      if !ok { return; }
      FourRanges(data, mem0, mem1, mem2, mem3, mem, dirs, d);
      NoneMissing(data, mem, d);
    }

    /** setupkvm; 0 when there is no frame at all. */
    method SetupKvm() returns (d: nat)
      requires Valid() && data < NFRAMES
      modifies this`mem, this`freelist, this`owner, this`free, this`dirs
      ensures Valid() && (d != 0 <==> |old(free)| >= 13)
      ensures d == 0 ==> dirs == old(dirs) && free == [] && Leaked(old(owner), old(mem), owner, mem)
      ensures d != 0 ==>
                && d !in old(dirs) && dirs == old(dirs) + {d} && d < |mem| && NoUser(mem, d, 0, NUSER)
                && |free| == |old(free)| - 13
                && Isolated(old(owner), old(mem), owner, mem, d) && NobodyYet(old(owner), d)
      ensures SamePtes(old(mem), mem, old(dirs))
    {
      d := NewDir();
      if d == 0 { return; }
      ghost var mem1, owner1 := mem, owner;
      var ok := MapKernel(d);
      if !ok {
        LeakedAll(kend, old(owner), old(mem), owner1, mem1, owner, mem, d);
        DirRemoved(kend, mem, owner, dirs, free, d);
        owner, dirs := HeldBack(owner, d), dirs - {d};
      }
      forall e: nat | e in old(dirs)
        ensures Kernelled(data, mem, e)
      {
        assert Kernelled(data, old(mem), e);
        StillKernelled(data, old(mem), mem, old(dirs), e);
      }
      if !ok { d := 0; }
    }

    /** A zeroed frame as a directory. */
    method NewDir() returns (d: nat)
      requires Core()
      modifies this`mem, this`freelist, this`owner, this`free, this`dirs
      ensures Core() && (d == 0 <==> old(free) == [])
      ensures d == 0 ==> mem == old(mem) && owner == old(owner) && dirs == old(dirs) && free == old(free)
      ensures d != 0 ==>
                && d < |mem| && old(owner)[d] == Free && owner == old(owner)[d := Dir] && d !in old(dirs)
                && dirs == old(dirs) + {d} && |free| == |old(free)| - 1 && mem == old(mem)[d := Filled(0)]
                && NobodyYet(old(owner), d)
      ensures SamePtes(old(mem), mem, old(dirs))
    {
      d := KAlloc();
      if d == 0 { return; }
      Overwritten(kend, mem, owner, dirs, free, freelist, d, Filled(0));
      mem := mem[d := Filled(0)];
      DirAdded(kend, mem, owner, dirs, free, d);
      owner, dirs := owner[d := Dir], dirs + {d};
      NotYet(kend, old(mem), old(owner), old(dirs), old(free), d);
    }

    /** The body of deallocuvm for a page that is there. */
    method FreeUserPage(d: nat, j: nat, t: nat)
      requires Core() && d in dirs && d < |mem| && j < NUSER && Present(mem[d][0]) && t == FrameOf(mem[d][0]) < |mem|
      requires Present(Pte(mem, d, 0, j))
      modifies this`mem, this`freelist, this`owner, this`free
      ensures Core() && Dropped(old(owner), old(mem), owner, mem, dirs, d, j, j + 1)
    {
      var pa := FrameOf(mem[t][j]);
      UserFreed(kend, mem, owner, dirs, free, d, j, pa, t, Filled(JUNK)[0 := freelist]);
      KFree(pa);
      ChainElsewhere(mem, freelist, free, t, mem[t][j := 0]);
      mem := mem[t := mem[t][j := 0]];
    }

    /** A round of deallocuvm. */
    method DropPage(d: nat, a: nat, ghost j: nat)
      requires Core() && d in dirs && d < |mem| && Present(mem[d][0]) && a == j * PGSIZE && j < NUSER
      modifies this`mem, this`freelist, this`owner, this`free
      ensures Core() && Dropped(old(owner), old(mem), owner, mem, dirs, d, j, j + 1)
    {
      PageIndex(a);
      var t := WalkPgDir(d, a, false);
      if t != 0 && Present(mem[t][Ptx(a)]) {
        FreeUserPage(d, Ptx(a), t);
      } else {
        DroppedNone(kend, mem, owner, dirs, free, d, j, j + 1);
      }
    }

    /** deallocuvm */
    method DeallocUvm(d: nat, oldsz: nat, newsz: nat) returns (r: nat)
      requires Core() && d in dirs && d < |mem| && Kernelled(data, mem, d) && oldsz <= USERTOP
      modifies this`mem, this`freelist, this`owner, this`free
      ensures Core() && r == if newsz >= oldsz then oldsz else newsz
      ensures newsz >= oldsz ==> mem == old(mem) && owner == old(owner) && free == old(free)
      ensures newsz < oldsz ==> Dropped(old(owner), old(mem), owner, mem, dirs, d, PageUp(newsz), PageUp(oldsz))
    {
      if newsz >= oldsz { return oldsz; }
      var a := PageUp(newsz) * PGSIZE;
      ghost var from, j := PageUp(newsz), PageUp(newsz);
      DroppedNone(kend, mem, owner, dirs, free, d, from, from);
      while a < oldsz
        invariant Core() && d < |mem| && a == j * PGSIZE && from <= j <= PageUp(oldsz) <= NUSER
        invariant Dropped(old(owner), old(mem), owner, mem, dirs, d, from, j)
      {
        ghost var mem1, owner1 := mem, owner;
        DroppedKernelled(data, old(owner), old(mem), owner, mem, dirs, d, from, j, d);
        TableThere(data, mem, d);
        DropPage(d, a, j);
        DroppedOn(old(owner), old(mem), owner1, mem1, owner, mem, dirs, d, from, j, j + 1);
        a, j := a + PGSIZE, j + 1;
      }
      r := newsz;
    }

    /** kalloc, and then memset or memmove. */
    method TakeFilled(page: Page) returns (f: nat)
      requires Core()
      modifies this`mem, this`freelist, this`owner, this`free
      ensures Core() && SamePtes(old(mem), mem, dirs) && (f == 0 <==> old(free) == [])
      ensures f == 0 ==> mem == old(mem) && owner == old(owner) && free == old(free)
      ensures f != 0 ==>
                && kend <= f < NFRAMES && old(owner)[f] == Free && owner == old(owner)[f := Held]
                && mem == old(mem)[f := page] && |free| == |old(free)| - 1
    {
      f := KAlloc();
      if f == 0 { return; }
      Overwritten(kend, mem, owner, dirs, free, freelist, f, page);
      mem := mem[f := page];
    }

    /** A page with the given contents for page j of the user: kalloc, memset or memmove, mappages. */
    method GiveUserPage(d: nat, a: nat, page: Page, ghost owner0: seq<Owner>, ghost mem0: seq<Page>, ghost from: nat,
                        ghost j: nat, ghost pages: seq<Page>)
      returns (ok: bool)
      requires Core() && d in dirs && d < |mem| && Present(mem[d][0]) && a == j * PGSIZE && from <= j < NUSER
      requires Raised(owner0, mem0, owner, mem, dirs, d, from, j, pages) && NoUser(mem, d, j, j + 1) && j < |pages|
               && page == pages[j]
      modifies this`mem, this`freelist, this`owner, this`free
      ensures Core() && (ok <==> old(free) != [])
      ensures !ok ==> mem == old(mem) && owner == old(owner) && free == old(free)
      ensures ok ==>
                Raised(owner0, mem0, owner, mem, dirs, d, from, j + 1, pages) && |free| == |old(free)| - 1
    {
      PageIndex(a);
      assert !Present(Pte(mem, d, 0, j));
      var f := TakeFilled(page);
      if f == 0 { return false; }
      assert SpaceOk(kend, mem, owner, d);
      MapHeld(d, a, f);
      RaisedOn(kend, owner0, mem0, old(owner), old(mem), owner, mem, dirs, old(free), d, from, j, f, pages);
      ok := true;
    }

    /** mappages(pgdir, a, PGSIZE, PADDR(mem), PTE_W|PTE_U) */
    method MapHeld(d: nat, a: nat, f: nat)
      requires Core() && d in dirs && d < |mem| && a < USERTOP && a % PGSIZE == 0 && Present(mem[d][0])
      requires kend <= f < NFRAMES && owner[f] == Held && Ptx(a) < NENT && !Present(Pte(mem, d, 0, Ptx(a)))
      modifies this`mem, this`freelist, this`owner, this`free
      ensures Core() && free == old(free) && owner == old(owner)[f := User(d, Ptx(a))]
      ensures OnePte(old(mem), mem, dirs, d, 0, Ptx(a), Word(f, PTE_P + PTE_W + PTE_U))
      ensures FrameOf(old(mem)[d][0]) < NFRAMES && old(owner)[FrameOf(old(mem)[d][0])] == Table(d, 0)
      ensures |mem| == |old(mem)| && forall g: nat {:trigger mem[g]} | g < |mem| && g != FrameOf(old(mem)[d][0]) ::
              mem[g] == old(mem)[g]
    {
      PageIndex(a);
      EntryWritten(kend, mem, owner, dirs, free, d, 0, Ptx(a), Word(f, PTE_P + PTE_W + PTE_U));
      var _ := MapPages(d, a, PGSIZE, f * PGSIZE, PTE_W + PTE_U);
    }

    /** allocuvm; 0 when the size is too large or there are not enough frames. */
    method AllocUvm(d: nat, oldsz: nat, newsz: nat) returns (r: nat)
      requires Valid() && d in dirs && d < |mem| && NoUser(mem, d, PageUp(oldsz), NUSER)
      modifies this`mem, this`freelist, this`owner, this`free
      ensures Valid()
      ensures newsz > USERTOP || newsz < oldsz ==>
                r == (if newsz > USERTOP then 0 else oldsz) && mem == old(mem) && owner == old(owner)
                    && free == old(free)
      ensures oldsz <= newsz <= USERTOP ==>
                var from, upto := PageUp(oldsz), PageUp(newsz);
                var pages := seq(NUSER, _ => Filled(0));
                if |old(free)| >= upto - from
                then r == newsz && |free| == |old(free)| - (upto - from)
                    && Raised(old(owner), old(mem), owner, mem, dirs, d, from, upto, pages)
                else r == 0 && Restored(old(owner), old(mem), owner, mem, dirs, d, from, upto)
    {
      if newsz > USERTOP { return 0; }
      if newsz < oldsz { return oldsz; }
      ghost var from, upto, pages := PageUp(oldsz), PageUp(newsz), seq(NUSER, _ => Filled(0));
      ghost var j := from;
      var a := PageUp(oldsz) * PGSIZE;
      RaisedNone(owner, mem, dirs, d, from, pages);
      while a < newsz
        invariant Core() && d < |mem| && a == j * PGSIZE && from <= j <= upto <= NUSER
        invariant Raised(old(owner), old(mem), owner, mem, dirs, d, from, j, pages)
                  && |free| == |old(free)| - (j - from)
      {
        RaisedKernelled(data, old(owner), old(mem), owner, mem, dirs, d, from, j, pages, d);
        RaisedRest(old(owner), old(mem), owner, mem, dirs, d, from, j, pages);
        TableThere(data, mem, d);
        var ok := GiveUserPage(d, a, Filled(0), old(owner), old(mem), from, j, pages);
        if !ok {
          ghost var owner1, mem1 := owner, mem;
          var _ := DeallocUvm(d, newsz, oldsz);
          GivenBack(kend, old(owner), old(mem), owner1, mem1, owner, mem, dirs, old(free), d, from, j, upto, pages);
          forall e: nat | e in dirs ensures Kernelled(data, mem, e) {
            assert Kernelled(data, old(mem), e);
            StillKernelled(data, old(mem), mem, dirs, e);
          }
          return 0;
        }
        a, j := a + PGSIZE, j + 1;
      }
      AllKernelled(data, old(owner), old(mem), owner, mem, dirs, d, from, upto, pages);
      r := newsz;
    }

    /** kfree of a frame nobody uses any more. */
    method Release(f: nat)
      requires Core() && kend <= f < NFRAMES && owner[f] == Held
      modifies this`mem, this`freelist, this`owner, this`free
      ensures Core() && owner == old(owner)[f := Free] && SamePtes(old(mem), mem, dirs)
      ensures forall g: nat {:trigger mem[g]} | g < |mem| && g != f :: mem[g] == old(mem)[g]
    {
      Given(kend, mem, owner, dirs, free, f, Filled(JUNK)[0 := freelist]);
      KFree(f);
    }

    /** The loop of freevm over the page tables, and the directory itself. */
    method FreeTables(d: nat, ghost owner0: seq<Owner>)
      requires Core() && |owner0| == NFRAMES && d < NFRAMES && kend <= d && owner0[d] == Dir
               && Emptying(owner0, owner, d, 0)
      requires forall k: nat {:trigger mem[d][k]} | k < NENT && Present(mem[d][k]) ::
                 kend <= FrameOf(mem[d][k]) < NFRAMES && owner0[FrameOf(mem[d][k])] == Table(d, k)
      requires forall f: nat {:trigger owner0[f]} | f < NFRAMES && owner0[f].Table? && owner0[f].d == d ::
                 owner0[f].k < NENT && Present(mem[d][owner0[f].k]) && FrameOf(mem[d][owner0[f].k]) == f
      requires forall f: nat {:trigger owner0[f]} | f < NFRAMES && owner0[f].User? :: owner0[f].d != d
      modifies this`mem, this`freelist, this`owner, this`free
      ensures Core() && Emptied(owner0, owner, d) && SamePtes(old(mem), mem, dirs)
      ensures forall g: nat {:trigger mem[g]} | g < |mem| && owner[g] != Free :: mem[g] == old(mem)[g]
    {
      ghost var dir := mem[d];
      var i := 0;
      while i < NENT
        invariant Core() && d < |mem| && mem[d] == dir && i <= NENT && Emptying(owner0, owner, d, i)
                  && SamePtes(old(mem), mem, dirs)
        invariant forall g: nat {:trigger mem[g]} | g < |mem| && owner[g] != Free :: mem[g] == old(mem)[g]
      {
        if Present(mem[d][i]) { Release(FrameOf(mem[d][i])); }
        i := i + 1;
      }
      Release(d);
    }

    /** freevm */
    method FreeVm(d: nat)
      requires Core() && d in dirs && d < |mem| && forall e: nat {:trigger Kernelled(data, mem, e)} | e in dirs ::
               Kernelled(data, mem, e)
      modifies this`mem, this`freelist, this`owner, this`free, this`dirs
      ensures Valid() && dirs == old(dirs) - {d} && Gone(old(owner), old(mem), owner, mem, d)
              && OtherPtes(old(mem), mem, old(dirs), d)
    {
      UserNumbers(kend, mem, owner, dirs, free);
      assert Kernelled(data, mem, d);
      var _ := DeallocUvm(d, USERTOP, 0);
      ghost var owner1, mem1 := owner, mem;
      DirRemoved(kend, mem, owner, dirs, free, d);
      owner, dirs := HeldBack(owner, d), dirs - {d};
      FreeTables(d, owner1);
      GoneOn(old(owner), old(mem), owner1, mem1, owner, mem, old(dirs), d);
      forall e: nat, k: nat, j: nat | e in dirs && e < |mem| && k < NENT && j < NENT
        ensures Pte(mem, e, k, j) == Pte(old(mem), e, k, j)
      {
        assert Pte(mem, e, k, j) == Pte(mem1, e, k, j);
      }
      forall e: nat | e in dirs ensures Kernelled(data, mem, e) {
        assert Kernelled(data, old(mem), e);
        StillKernelled(data, old(mem), mem, dirs, e);
      }
    }

    /** copyuvm: a new address space with the same bytes in frames of its own; 0 without enough frames. */
    method CopyUvm(d: nat, sz: nat) returns (r: nat)
      requires Valid() && data < NFRAMES && d in dirs && d < |mem| && sz <= USERTOP
      requires forall j: nat {:trigger Pte(mem, d, 0, j)} | j < PageUp(sz) :: Present(Pte(mem, d, 0, j))
      modifies this`mem, this`freelist, this`owner, this`free, this`dirs
      ensures Valid() && (r != 0 <==> |old(free)| >= 13 + PageUp(sz))
      ensures r != 0 ==>
              && dirs == old(dirs) + {r} && r !in old(dirs)
              && Copied(old(owner), old(mem), owner, mem, d, r, PageUp(sz))
      ensures r == 0 ==> dirs == old(dirs)
      ensures r == 0 ==>
                if |old(free)| >= 13 then owner == old(owner) && Kept(owner, old(mem), mem)
                else free == [] && Leaked(old(owner), old(mem), owner, mem)
      ensures forall e: nat, k: nat, j: nat {:trigger Pte(mem, e, k, j)} | e in old(dirs) && e < |mem| && k < NENT
              && j < NENT ::
                Pte(mem, e, k, j) == Pte(old(mem), e, k, j)
    {
      ghost var n, parent := PageUp(sz), ParentPages(mem, d, PageUp(sz));
      UserFrames(kend, mem, owner, dirs, free, d, n);
      r := SetupKvm();
      if r == 0 { return; }
      ghost var mem1, owner1 := mem, owner;
      ghost var j;
      var ok;
      ok, j := CopyPages(d, r, sz, old(owner), old(mem), old(dirs), old(free), parent);
      AllKernelled(data, owner1, mem1, owner, mem, dirs, r, 0, j, parent);
      if !ok {
        ghost var owner2, mem2 := owner, mem;
        RaisedIsolated(owner1, mem1, owner, mem, dirs, r, j, parent);
        IsolatedOn(old(owner), old(mem), owner1, mem1, owner, mem, r);
        FreeVm(r);
        Undone(old(owner), old(mem), owner2, mem2, owner, mem, r);
        return 0;
      }
      CopyDone(kend, old(mem), old(owner), owner1, mem1, owner, mem, dirs, free, d, r, n);
    }

    /** The loop of copyuvm; j pages are copied. */
    method CopyPages(d: nat, r: nat, sz: nat, ghost owner0: seq<Owner>, ghost mem0: seq<Page>, ghost dirs0: set<nat>,
                     ghost free0: seq<nat>,
                     ghost pages: seq<Page>)
      returns (ok: bool, ghost j: nat)
      requires Core() && Inv(kend, mem0, owner0, dirs0, free0) && d in dirs0 && d < |mem0| && sz <= USERTOP
               && r !in dirs0 && dirs == dirs0 + {r}
      requires forall i: nat {:trigger Pte(mem0, d, 0, i)} | i < PageUp(sz) :: Present(Pte(mem0, d, 0, i))
      requires r < |mem| && Isolated(owner0, mem0, owner, mem, r) && OtherPtes(mem0, mem, dirs0, r)
               && NoUser(mem, r, 0, NUSER)
      requires Kernelled(data, mem, r) && d < |mem| && Kernelled(data, mem, d)
               && pages == ParentPages(mem0, d, PageUp(sz))
      modifies this`mem, this`freelist, this`owner, this`free
      ensures Core() && j <= PageUp(sz) && Raised(old(owner), old(mem), owner, mem, dirs, r, 0, j, pages)
      ensures |free| == |old(free)| - j && (ok <==> j == PageUp(sz)) && (!ok ==> free == [])
    {
      j := 0;
      var i := 0;
      RaisedNone(owner, mem, dirs, r, 0, pages);
      while i < sz
        invariant Core() && i == j * PGSIZE && j <= PageUp(sz)
        invariant Raised(old(owner), old(mem), owner, mem, dirs, r, 0, j, pages) && |free| == |old(free)| - j
      {
        CopyingOn(kend, mem0, owner0, dirs0, free0, old(owner), old(mem), owner, mem, d, r, j, pages);
        ok := CopyPage(d, r, i, old(owner), old(mem), j, pages);
        if !ok { return; }
        i, j := i + PGSIZE, j + 1;
      }
      ok := true;
    }

    /** A round of copyuvm. */
    method CopyPage(d: nat, r: nat, i: nat, ghost owner0: seq<Owner>, ghost mem0: seq<Page>, ghost j: nat,
                    ghost pages: seq<Page>) returns (ok: bool)
      requires Core() && d in dirs && r in dirs && d < |mem| && r < |mem| && i == j * PGSIZE && j < NUSER && j < |pages|
      requires Raised(owner0, mem0, owner, mem, dirs, r, 0, j, pages) && Kernelled(data, mem0, r)
               && Kernelled(data, mem0, d)
      requires NoUser(mem0, r, 0, NUSER) && Present(Pte(mem, d, 0, j))
      requires FrameOf(Pte(mem, d, 0, j)) < |mem| && pages[j] == mem[FrameOf(Pte(mem, d, 0, j))]
      modifies this`mem, this`freelist, this`owner, this`free
      ensures Core() && (ok <==> old(free) != [])
      ensures !ok ==> mem == old(mem) && owner == old(owner) && free == old(free)
      ensures ok ==> Raised(owner0, mem0, owner, mem, dirs, r, 0, j + 1, pages) && |free| == |old(free)| - 1
    {
      RaisedKernelled(data, owner0, mem0, owner, mem, dirs, r, 0, j, pages, r);
      RaisedKernelled(data, owner0, mem0, owner, mem, dirs, r, 0, j, pages, d);
      RaisedRest(owner0, mem0, owner, mem, dirs, r, 0, j, pages);
      var page := ReadPage(d, i);
      TableThere(data, mem, r);
      ok := GiveUserPage(r, i, page, owner0, mem0, 0, j, pages);
    }

    /** The page of d that holds va, as copyuvm finds it. */
    method ReadPage(d: nat, va: nat) returns (page: Page)
      requires Core() && d in dirs && d < |mem| && va < USERTOP && Kernelled(data, mem, d)
      requires va % PGSIZE == 0 && Present(Pte(mem, d, 0, va / PGSIZE))
      modifies this`mem, this`freelist, this`owner, this`free
      ensures Core() && mem == old(mem) && owner == old(owner) && free == old(free)
      ensures FrameOf(Pte(mem, d, 0, va / PGSIZE)) < |mem| && page == mem[FrameOf(Pte(mem, d, 0, va / PGSIZE))]
    {
      PageIndex(va);
      TableThere(data, mem, d);
      assert SpaceOk(kend, mem, owner, d);
      var t := WalkPgDir(d, va, false);
      page := mem[FrameOf(mem[t][Ptx(va)])];
    }
  }
}
