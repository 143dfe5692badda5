/** The user-space memory allocator of p2/xv6/user/umalloc.c: the circular,
    address-ordered, coalescing free list of Kernighan and Ritchie.

    Addresses count headers (the unit of the C code, `sizeof(Header)` bytes), so
    `p + 1` is the unit after `p`.  The headers in raw memory are two maps, `ptr` and
    `size`, one for each field.  The ghost value `Heap` describes that memory: `free`
    are the blocks on the free list (the static header `base` among them), `live` the
    blocks handed out, and `owner` tells for every unit ever obtained from `sbrk`
    which block it is in. */
module Umalloc {

  import opened Sets

  datatype Heap = Heap(free: set<int>, live: map<int, nat>, owner: map<int, int>)

  // ----- The shape of the free list

  /** s is the next member above a; base when there is none. */
  ghost predicate IsNext(free: set<int>, base: int, a: int, s: int) {
    && s in free
    && (a < s || s == base)
    && (forall c: int | c in free :: c <= a || a < s <= c)
  }

  /** Each header on the list points to the next higher one; the highest to base. */
  ghost predicate Ring(free: set<int>, ptr: map<int, int>, base: int) {
    && base in free
    && (forall a: int {:trigger a in ptr} | a in free :: a in ptr)
    && (forall a: int {:trigger a in free} | a in free :: a >= base)
    && (forall a: int {:trigger ptr[a]} | a in free :: IsNext(free, base, a, ptr[a]))
  }

  /** List members in ascending order do not overlap; at most those in `touch` end
      where the next one begins. */
  ghost predicate Apart(free: set<int>, size: map<int, nat>, touch: set<int>) {
    && (forall a: int {:trigger a in free} | a in free :: a in size)
    && (forall a: int, c: int {:trigger a in free, c in free} | a in free && c in free && a < c ::
          a + size[a] < c || (a in touch && a + size[a] == c))
  }

  // ----- Blocks tile the units obtained from sbrk

  ghost predicate IsBlock(h: Heap, a: int) {
    a in h.free || a in h.live
  }

  ghost predicate Tiled(h: Heap, size: map<int, nat>, base: int) {
    && (forall a: int {:trigger IsBlock(h, a)} | IsBlock(h, a) :: a in size && (size[a] == 0 <==> a == base))
    && (forall u: int {:trigger h.owner[u]} | u in h.owner ::
          IsBlock(h, h.owner[u]) && h.owner[u] <= u < h.owner[u] + size[h.owner[u]])
    && (forall a: int, u: int {:trigger IsBlock(h, a), u in h.owner} | IsBlock(h, a) && a <= u < a + size[a] ::
          u in h.owner && h.owner[u] == a)
  }

  ghost predicate LiveOk(h: Heap, size: map<int, nat>, base: int) {
    forall a: int {:trigger a in h.live} | a in h.live ::
      a in size && size[a] == h.live[a] && a > base && a !in h.free
  }

  /** The allocator's invariant while the members of `touch` may touch their successors ... */
  ghost predicate Almost(h: Heap, ptr: map<int, int>, size: map<int, nat>, base: int, touch: set<int>) {
    && Ring(h.free, ptr, base)
    && Apart(h.free, size, touch)
    && LiveOk(h, size, base)
    && Tiled(h, size, base)
  }

  /** ... and between calls. */
  ghost predicate Inv(h: Heap, ptr: map<int, int>, size: map<int, nat>, base: int) {
    Almost(h, ptr, size, base, {})
  }

  /** Blocks are pairwise disjoint: the first consequence of the tiling. */
  lemma BlocksDisjoint(h: Heap, size: map<int, nat>, base: int, a: int, b: int)
    requires Tiled(h, size, base) && IsBlock(h, a) && IsBlock(h, b) && base <= a < b
    ensures a + size[a] <= b
  {
    assert IsBlock(h, a) && IsBlock(h, b);
    assert b in h.owner && h.owner[b] == b;
  }

  /** Steps the walk from p still has to the end of the list. */
  ghost function Above(free: set<int>, p: int): set<int> {
    set c: int | c in free && c > p
  }

  lemma StepUp(free: set<int>, ptr: map<int, int>, base: int, p: int)
    requires Ring(free, ptr, base) && p in free && p < ptr[p]
    ensures Above(free, ptr[p]) < Above(free, p)
  {
    assert IsNext(free, base, p, ptr[p]);
    assert ptr[p] in Above(free, p) && ptr[p] !in Above(free, ptr[p]);
  }

  /** The list from a on, in the order the pointers give. */
  ghost function ListFrom(free: set<int>, ptr: map<int, int>, base: int, a: int): (s: seq<int>)
    requires Ring(free, ptr, base) && a in free
    ensures |s| > 0 && s[0] == a
    decreases Above(free, a)
  {
    assert IsNext(free, base, a, ptr[a]);
    if ptr[a] <= a then [a] else StepUp(free, ptr, base, a); [a] + ListFrom(free, ptr, base, ptr[a])
  }

  ghost predicate Ascending(s: seq<int>) {
    forall i, j | 0 <= i < j < |s| :: s[i] < s[j]
  }

  lemma Prepended(a: int, rest: seq<int>, s: seq<int>)
    requires s == [a] + rest && Ascending(rest) && forall c: int | c in rest :: c > a
    ensures Ascending(s) && forall c: int :: c in s <==> c == a || c in rest
  {
    assert forall i | 0 <= i < |rest| :: rest[i] in rest;
  }

  lemma {:induction false} ListMembers(free: set<int>, ptr: map<int, int>, base: int, a: int)
    requires Ring(free, ptr, base) && a in free
    ensures forall c: int :: c in ListFrom(free, ptr, base, a) <==> c in free && c >= a
    ensures Ascending(ListFrom(free, ptr, base, a))
    decreases Above(free, a)
  {
    assert IsNext(free, base, a, ptr[a]);
    if ptr[a] > a {
      StepUp(free, ptr, base, a);
      ListMembers(free, ptr, base, ptr[a]);
      Prepended(a, ListFrom(free, ptr, base, ptr[a]), ListFrom(free, ptr, base, a));
    }
  }

  ghost predicate Chained(ptr: map<int, int>, s: seq<int>) {
    forall i | 0 <= i < |s| - 1 :: s[i] in ptr && ptr[s[i]] == s[i + 1]
  }

  lemma {:induction false} ListChained(free: set<int>, ptr: map<int, int>, base: int, a: int)
    requires Ring(free, ptr, base) && a in free
    ensures var s := ListFrom(free, ptr, base, a);
            Chained(ptr, s) && s[|s| - 1] in ptr && ptr[s[|s| - 1]] == base
    decreases Above(free, a)
  {
    assert IsNext(free, base, a, ptr[a]);
    if ptr[a] > a {
      StepUp(free, ptr, base, a);
      ListChained(free, ptr, base, ptr[a]);
      assert ListFrom(free, ptr, base, a) == [a] + ListFrom(free, ptr, base, ptr[a]);
    }
  }

  /** One circular, address-ordered list: following the pointers from base meets every
      free block once, in ascending order and with a gap after each, and ends at base. */
  lemma OneOrderedRing(h: Heap, ptr: map<int, int>, size: map<int, nat>, base: int)
    requires Inv(h, ptr, size, base)
    ensures var s := ListFrom(h.free, ptr, base, base);
            && (forall c: int :: c in s <==> c in h.free)
            && (forall i, j | 0 <= i < j < |s| :: s[i] in size && s[i] + size[s[i]] < s[j])
            && Chained(ptr, s) && s[|s| - 1] in ptr && ptr[s[|s| - 1]] == base
  {
    var s := ListFrom(h.free, ptr, base, base);
    ListMembers(h.free, ptr, base, base);
    ListChained(h.free, ptr, base, base);
    forall i, j | 0 <= i < j < |s|
      ensures s[i] in size && s[i] + size[s[i]] < s[j]
    {
      assert s[i] in s && s[j] in s;
      assert s[i] in h.free && s[j] in h.free;
    }
  }

  // ----- free, first half: link the block in between p and its successor

  /** p is the list member the search loop of free stops at. */
  ghost predicate Precedes(free: set<int>, p: int, bp: int) {
    p in free && p < bp && forall c: int | c in free :: c <= p || c > bp
  }

  ghost function Inserted(h: Heap, bp: int): Heap {
    Heap(h.free + {bp}, h.live - {bp}, h.owner)
  }

  lemma InsertRing(free: set<int>, ptr: map<int, int>, base: int, p: int, bp: int)
    requires Ring(free, ptr, base) && Precedes(free, p, bp) && bp !in free
    ensures Ring(free + {bp}, ptr[bp := ptr[p]][p := bp], base)
  {
  }

  lemma InsertApart(h: Heap, size: map<int, nat>, base: int, p: int, bp: int)
    requires Apart(h.free, size, {}) && Tiled(h, size, base) && LiveOk(h, size, base)
    requires bp in h.live && Precedes(h.free, p, bp) && (forall c: int | c in h.free :: c >= base)
    ensures Apart(h.free + {bp}, size, {p, bp})
  {
    forall c: int | c in h.free
      ensures c < bp ==> c + size[c] < bp || (c == p && c + size[c] == bp)
      ensures bp < c ==> bp + size[bp] <= c
    {
      assert IsBlock(h, c) && IsBlock(h, bp);
      if c < bp { BlocksDisjoint(h, size, base, c, bp); }
      if bp < c { BlocksDisjoint(h, size, base, bp, c); }
    }
  }

  lemma InsertTiled(h: Heap, size: map<int, nat>, base: int, bp: int)
    requires Tiled(h, size, base) && LiveOk(h, size, base) && bp in h.live
    ensures Tiled(Inserted(h, bp), size, base)
    ensures LiveOk(Inserted(h, bp), size, base)
  {
    var h1 := Inserted(h, bp);
    assert forall a: int {:trigger IsBlock(h1, a)} :: IsBlock(h1, a) <==> IsBlock(h, a);
  }

  lemma InsertKeeps(h: Heap, ptr: map<int, int>, size: map<int, nat>, base: int, p: int, bp: int)
    requires Inv(h, ptr, size, base) && bp in h.live && Precedes(h.free, p, bp)
    ensures Almost(Inserted(h, bp), ptr[bp := ptr[p]][p := bp], size, base, {p, bp})
  {
    InsertRing(h.free, ptr, base, p, bp);
    InsertApart(h, size, base, p, bp);
    InsertTiled(h, size, base, bp);
  }

  // ----- free, second half: merge a list member with a successor it touches

  ghost function Reown(owner: map<int, int>, from: int, to: int): map<int, int> {
    map u: int | u in owner :: if owner[u] == from then to else owner[u]
  }

  ghost function Merged(h: Heap, p: int, q: int): Heap {
    Heap(h.free - {q}, h.live, Reown(h.owner, q, p))
  }

  /** Distinct members have distinct successors. */
  lemma OnePredecessor(free: set<int>, ptr: map<int, int>, base: int, a: int, b: int)
    requires Ring(free, ptr, base) && a in free && b in free && a < b
    ensures ptr[a] != ptr[b]
  {
    assert ptr[a] <= b;
    assert b < ptr[b] || ptr[b] == base;
  }

  lemma MergeRing(free: set<int>, ptr: map<int, int>, base: int, p: int, q: int)
    requires Ring(free, ptr, base) && p in free && ptr[p] == q > p
    ensures Ring(free - {q}, ptr[p := ptr[q]], base)
  {
    forall a: int | a in free && a != q
      ensures IsNext(free - {q}, base, a, ptr[p := ptr[q]][a])
    {
      if a < p { OnePredecessor(free, ptr, base, a, p); }
      if a > p { OnePredecessor(free, ptr, base, p, a); }
    }
  }

  lemma MergeApart(free: set<int>, size: map<int, nat>, touch: set<int>, p: int, q: int)
    requires Apart(free, size, touch)
    requires p in free && q in free && p + size[p] == q
    requires forall c: int | c in free :: c <= p || c >= q
    ensures Apart(free - {q}, size[p := size[p] + size[q]], if q in touch then touch else touch - {p})
  {
  }

  lemma MergeOwned(h: Heap, size: map<int, nat>, base: int, p: int, q: int, u: int)
    requires Tiled(h, size, base) && p in h.free && q in h.free && IsBlock(h, p) && IsBlock(h, q) && u in h.owner
    requires p + size[p] == q && p < q
    ensures var h1, size1 := Merged(h, p, q), size[p := size[p] + size[q]];
            && IsBlock(h1, h1.owner[u]) && h1.owner[u] in size1
            && h1.owner[u] <= u < h1.owner[u] + size1[h1.owner[u]]
  {
    assert IsBlock(h, h.owner[u]);
  }

  lemma MergeCovers(h: Heap, size: map<int, nat>, base: int, p: int, q: int, a: int, u: int)
    requires Tiled(h, size, base) && p in h.free && q in h.free && IsBlock(h, p) && IsBlock(h, q) && IsBlock(h, a)
    requires p + size[p] == q && p < q && a != q && a <= u < a + size[p := size[p] + size[q]][a]
    ensures u in h.owner && Merged(h, p, q).owner[u] == a
  {
    assert u in h.owner;
  }

  lemma MergeTiled(h: Heap, size: map<int, nat>, base: int, p: int, q: int)
    requires Tiled(h, size, base) && LiveOk(h, size, base) && IsBlock(h, p) && IsBlock(h, q)
    requires p in h.free && q in h.free && p + size[p] == q && p < q
    ensures Tiled(Merged(h, p, q), size[p := size[p] + size[q]], base)
  {
    var h1, size1 := Merged(h, p, q), size[p := size[p] + size[q]];
    forall a: int | IsBlock(h1, a)
      ensures a in size1 && (size1[a] == 0 <==> a == base)
      ensures forall u: int {:trigger u in h1.owner} | a <= u < a + size1[a] :: u in h1.owner && h1.owner[u] == a
    {
      assert IsBlock(h, a) && a != q;
      forall u: int | a <= u < a + size1[a] { MergeCovers(h, size, base, p, q, a, u); }
    }
    forall u: int | u in h1.owner
      ensures IsBlock(h1, h1.owner[u]) && h1.owner[u] <= u < h1.owner[u] + size1[h1.owner[u]]
    {
      MergeOwned(h, size, base, p, q, u);
    }
  }

  lemma MergeKeeps(h: Heap, ptr: map<int, int>, size: map<int, nat>, base: int, touch: set<int>, p: int, q: int)
    requires Almost(h, ptr, size, base, touch)
    requires p in h.free && p != base && q in h.free && p + size[p] == q
    ensures ptr[p] == q
    ensures Almost(Merged(h, p, q), ptr[p := ptr[q]], size[p := size[p] + size[q]], base,
                   if q in touch then touch else touch - {p})
  {
    assert IsBlock(h, p) && IsBlock(h, q);
    assert IsNext(h.free, base, p, ptr[p]);
    MergeRing(h.free, ptr, base, p, q);
    MergeApart(h.free, size, touch, p, q);
    assert LiveOk(Merged(h, p, q), size[p := size[p] + size[q]], base);
    MergeTiled(h, size, base, p, q);
  }

  /** A member that touches nothing need not be in touch. */
  lemma DropTouch(h: Heap, ptr: map<int, int>, size: map<int, nat>, base: int, touch: set<int>, a: int)
    requires Almost(h, ptr, size, base, touch) && a in h.free && a + size[a] != ptr[a]
    ensures Almost(h, ptr, size, base, touch - {a})
  {
    assert IsNext(h.free, base, a, ptr[a]);
  }

  /** The first test of free: bp swallows its successor if it ends there ... */
  ghost function SwallowNext(h: Heap, ptr: map<int, int>, size: map<int, nat>, bp: int): (Heap, map<int, int>,
            map<int, nat>)
    requires bp in ptr && bp in size && ptr[bp] in ptr && ptr[bp] in size
  {
    var q := ptr[bp];
    if bp + size[bp] == q then (Merged(h, bp, q), ptr[bp := ptr[q]], size[bp := size[bp] + size[q]])
    else (h, ptr, size)
  }

  /** ... after which a member that was allowed to touch its successor does not. */
  lemma SwallowKeeps(h: Heap, ptr: map<int, int>, size: map<int, nat>, base: int, touch: set<int>, p: int)
    requires Almost(h, ptr, size, base, touch) && p in h.free
    requires (p < ptr[p] ==> ptr[p] !in touch) && (p == base ==> p < ptr[p])
    ensures ptr[p] in ptr && ptr[p] in size
    ensures var (h1, ptr1, size1) := SwallowNext(h, ptr, size, p);
            && p in h1.free
            && Almost(h1, ptr1, size1, base, touch - {p})
  {
    assert IsBlock(h, p) && IsNext(h.free, base, p, ptr[p]);
    if p + size[p] == ptr[p] {
      MergeKeeps(h, ptr, size, base, touch, p, ptr[p]);
    } else {
      DropTouch(h, ptr, size, base, touch, p);
    }
  }

  /** What holds of the block that was at bp after each half of free. */
  ghost predicate Absorbed(h: Heap, size: map<int, nat>, bp: int, n: nat) {
    bp in h.owner && h.owner[bp] in h.free && h.owner[bp] in size && size[h.owner[bp]] >= n
  }

  /** Up to the second test of free: bp is linked in, and only p may touch its successor. */
  lemma LinkKeeps(h: Heap, ptr: map<int, int>, size: map<int, nat>, base: int, p: int, bp: int)
      returns (h2: Heap, ptr2: map<int, int>, size2: map<int, nat>)
    requires Inv(h, ptr, size, base) && bp in h.live && Precedes(h.free, p, bp)
    ensures p in ptr && p in size && bp in size && p < bp && ptr[p] in ptr && ptr[p] in size
    ensures var q := ptr[p];
            if bp + size[bp] == q
            then ptr2 == ptr[bp := ptr[q]][p := bp] && size2 == size[bp := size[bp] + size[q]]
            else ptr2 == ptr[bp := q][p := bp] && size2 == size
    ensures Almost(h2, ptr2, size2, base, {p}) && p in h2.free && bp in h2.free && ptr2[p] == bp
    ensures h2.live == h.live - {bp} && h2.owner.Keys == h.owner.Keys
    ensures Absorbed(h2, size2, bp, size[bp])
  {
    assert IsBlock(h, p) && IsBlock(h, bp) && IsNext(h.free, base, p, ptr[p]);
    var h1, ptr1 := Inserted(h, bp), ptr[bp := ptr[p]][p := bp];
    InsertKeeps(h, ptr, size, base, p, bp);
    SwallowKeeps(h1, ptr1, size, base, {p, bp}, bp);
    assert bp in h.owner;
    var s2 := SwallowNext(h1, ptr1, size, bp);
    h2, ptr2, size2 := s2.0, s2.1, s2.2;
  }

  /** After the second test. */
  lemma FreeKeeps(h: Heap, ptr: map<int, int>, size: map<int, nat>, base: int, p: int, bp: int, n: nat)
      returns (h3: Heap, ptr3: map<int, int>, size3: map<int, nat>)
    requires Almost(h, ptr, size, base, {p}) && p in h.free && bp in h.free && p < bp == ptr[p]
             && Absorbed(h, size, bp, n)
    ensures p in size && bp in size && bp in ptr
    ensures (h3, ptr3, size3) == SwallowNext(h, ptr, size, p)
    ensures Inv(h3, ptr3, size3, base) && p in h3.free
    ensures h3.live == h.live && h3.owner.Keys == h.owner.Keys
    ensures Absorbed(h3, size3, bp, n)
  {
    assert IsBlock(h, p) && IsBlock(h, bp);
    SwallowKeeps(h, ptr, size, base, {p}, p);
    var s3 := SwallowNext(h, ptr, size, p);
    h3, ptr3, size3 := s3.0, s3.1, s3.2;
  }

  // ----- malloc: take a whole block, or the tail of one

  ghost function Taken(h: Heap, p: int, n: nat): Heap {
    Heap(h.free - {p}, h.live[p := n], h.owner)
  }

  lemma TakeTiled(h: Heap, size: map<int, nat>, base: int, p: int)
    requires Tiled(h, size, base) && LiveOk(h, size, base) && p in h.free && IsBlock(h, p) && p > base
    ensures Tiled(Taken(h, p, size[p]), size, base)
    ensures LiveOk(Taken(h, p, size[p]), size, base)
  {
    var h1 := Taken(h, p, size[p]);
    assert forall a: int {:trigger IsBlock(h1, a)} :: IsBlock(h1, a) <==> IsBlock(h, a);
  }

  lemma TakeKeeps(h: Heap, ptr: map<int, int>, size: map<int, nat>, base: int, prevp: int, p: int)
    requires Inv(h, ptr, size, base) && prevp in h.free && p in h.free && ptr[prevp] == p && size[p] > 0
    ensures Inv(Taken(h, p, size[p]), ptr[prevp := ptr[p]], size, base)
    ensures prevp != p && p !in h.live
  {
    assert IsBlock(h, p);
    assert IsNext(h.free, base, prevp, p);
    MergeRing(h.free, ptr, base, prevp, p);
    TakeTiled(h, size, base, p);
  }

  ghost function Split(h: Heap, p: int, tail: int, n: nat): Heap {
    Heap(h.free, h.live[tail := n], map u: int | u in h.owner ::
         if h.owner[u] == p && tail <= u then tail else h.owner[u])
  }

  lemma SplitTiled(h: Heap, size: map<int, nat>, base: int, p: int, n: nat)
    requires Tiled(h, size, base) && LiveOk(h, size, base) && p in h.free && IsBlock(h, p) && p >= base
             && 0 < n < size[p]
    ensures var tail := p + size[p] - n;
            && !IsBlock(h, tail)
            && Tiled(Split(h, p, tail, n), size[p := size[p] - n][tail := n], base)
            && LiveOk(Split(h, p, tail, n), size[p := size[p] - n][tail := n], base)
  {
    var tail := p + size[p] - n;
    if IsBlock(h, tail) { BlocksDisjoint(h, size, base, p, tail); }
    SplitOwners(h, size, base, p, tail, n);
  }

  lemma SplitOwned(h: Heap, size: map<int, nat>, base: int, p: int, tail: int, n: nat, u: int)
    requires Tiled(h, size, base) && p in h.free && IsBlock(h, p) && u in h.owner
    requires 0 < n < size[p] && tail == p + size[p] - n && !IsBlock(h, tail)
    ensures var h1, size1 := Split(h, p, tail, n), size[p := size[p] - n][tail := n];
            && IsBlock(h1, h1.owner[u]) && h1.owner[u] in size1
            && h1.owner[u] <= u < h1.owner[u] + size1[h1.owner[u]]
  {
    assert IsBlock(h, h.owner[u]);
  }

  lemma SplitCovers(h: Heap, size: map<int, nat>, base: int, p: int, tail: int, n: nat, a: int, u: int)
    requires Tiled(h, size, base) && p in h.free && IsBlock(h, p) && p >= base && IsBlock(Split(h, p, tail, n), a)
    requires 0 < n < size[p] && tail == p + size[p] - n && !IsBlock(h, tail)
    requires var size1 := size[p := size[p] - n][tail := n]; a in size1 && a <= u < a + size1[a]
    ensures u in h.owner && Split(h, p, tail, n).owner[u] == a
  {
    assert IsBlock(h, if a == tail then p else a);
    assert u in h.owner;
  }

  lemma SplitOwners(h: Heap, size: map<int, nat>, base: int, p: int, tail: int, n: nat)
    requires Tiled(h, size, base) && LiveOk(h, size, base) && p in h.free && IsBlock(h, p) && p >= base
    requires 0 < n < size[p] && tail == p + size[p] - n && !IsBlock(h, tail)
    ensures Tiled(Split(h, p, tail, n), size[p := size[p] - n][tail := n], base)
  {
    var h1, size1 := Split(h, p, tail, n), size[p := size[p] - n][tail := n];
    forall u: int | u in h1.owner
      ensures IsBlock(h1, h1.owner[u]) && h1.owner[u] <= u < h1.owner[u] + size1[h1.owner[u]]
    {
      SplitOwned(h, size, base, p, tail, n, u);
    }
    forall a: int | IsBlock(h1, a)
      ensures a in size1 && (size1[a] == 0 <==> a == base)
      ensures forall u: int {:trigger u in h1.owner} | a <= u < a + size1[a] :: u in h1.owner && h1.owner[u] == a
    {
      assert a == tail || IsBlock(h, a);
      forall u: int | a <= u < a + size1[a] { SplitCovers(h, size, base, p, tail, n, a, u); }
    }
  }

  lemma SplitKeeps(h: Heap, ptr: map<int, int>, size: map<int, nat>, base: int, p: int, n: nat)
    requires Inv(h, ptr, size, base) && p in h.free && 0 < n < size[p]
    ensures var tail := p + size[p] - n;
            && !IsBlock(h, tail)
            && Inv(Split(h, p, tail, n), ptr, size[p := size[p] - n][tail := n], base)
  {
    assert IsBlock(h, p);
    SplitTiled(h, size, base, p, n);
  }

  /** Splitting a block loses no unit. */
  lemma SplitCount(h: Heap, p: int, tail: int, n: nat)
    ensures Split(h, p, tail, n).owner.Keys == h.owner.Keys && |Split(h, p, tail, n).owner| == |h.owner|
  {
    assert |h.owner.Keys| == |h.owner|;
    assert Split(h, p, tail, n).owner.Keys == h.owner.Keys;
  }

  // ----- morecore: a fresh block above everything obtained so far

  ghost predicate Below(h: Heap, base: int, brk: int) {
    base < brk && forall u: int | u in h.owner :: base < u < brk
  }

  ghost function Grown(h: Heap, hp: int, nu: nat): Heap {
    Heap(h.free, h.live[hp := nu], h.owner + map u: int | u in Units(hp, nu) :: hp)
  }

  ghost function Units(a: int, n: nat): (s: set<int>)
    ensures forall u: int :: u in s <==> a <= u < a + n
    ensures |s| == n
  {
    if n == 0 then {} else Units(a, n - 1) + {a + n - 1}
  }

  lemma GrowOwned(h: Heap, size: map<int, nat>, base: int, hp: int, nu: nat, u: int)
    requires Tiled(h, size, base) && Below(h, base, hp) && nu > 0 && !IsBlock(h, hp) && u in Grown(h, hp, nu).owner
    ensures var h1, size1 := Grown(h, hp, nu), size[hp := nu];
            IsBlock(h1, h1.owner[u]) && h1.owner[u] in size1 && h1.owner[u] <= u < h1.owner[u] + size1[h1.owner[u]]
  {
    if u in h.owner { assert IsBlock(h, h.owner[u]); }
  }

  lemma GrowCovers(h: Heap, size: map<int, nat>, base: int, hp: int, nu: nat, a: int, u: int)
    requires Tiled(h, size, base) && Below(h, base, hp) && nu > 0 && !IsBlock(h, hp) && IsBlock(Grown(h, hp, nu), a)
    requires a in size[hp := nu] && a <= u < a + size[hp := nu][a]
    ensures u in Grown(h, hp, nu).owner && Grown(h, hp, nu).owner[u] == a
  {
    if a != hp {
      assert IsBlock(h, a);
      assert u in h.owner;
    }
  }

  lemma GrowTiled(h: Heap, size: map<int, nat>, base: int, hp: int, nu: nat)
    requires Tiled(h, size, base) && Below(h, base, hp) && nu > 0 && !IsBlock(h, hp)
    ensures Tiled(Grown(h, hp, nu), size[hp := nu], base)
  {
    var h1, size1 := Grown(h, hp, nu), size[hp := nu];
    forall a: int | IsBlock(h1, a)
      ensures a in size1 && (size1[a] == 0 <==> a == base)
      ensures forall u: int {:trigger u in h1.owner} | a <= u < a + size1[a] :: u in h1.owner && h1.owner[u] == a
    {
      assert a == hp || IsBlock(h, a);
      forall u: int | a <= u < a + size1[a] { GrowCovers(h, size, base, hp, nu, a, u); }
    }
    forall u: int | u in h1.owner
      ensures IsBlock(h1, h1.owner[u]) && h1.owner[u] <= u < h1.owner[u] + size1[h1.owner[u]]
    {
      GrowOwned(h, size, base, hp, nu, u);
    }
  }

  lemma GrowKeeps(h: Heap, ptr: map<int, int>, size: map<int, nat>, base: int, hp: int, nu: nat)
    requires Inv(h, ptr, size, base) && Below(h, base, hp) && nu > 0
    ensures Inv(Grown(h, hp, nu), ptr, size[hp := nu], base)
    ensures Below(Grown(h, hp, nu), base, hp + nu)
    ensures !IsBlock(h, hp) && hp !in h.live
  {
    assert IsBlock(h, hp) ==> hp in h.owner;
    GrowTiled(h, size, base, hp, nu);
    assert Apart(h.free, size[hp := nu], {});
  }

  lemma GrowCount(h: Heap, base: int, hp: int, nu: nat)
    requires Below(h, base, hp)
    ensures |Grown(h, hp, nu).owner| == |h.owner| + nu
  {
    assert Grown(h, hp, nu).owner.Keys == h.owner.Keys + Units(hp, nu);
  }

  lemma GrowLive(h: Heap, hp: int, nu: nat)
    requires hp !in h.live
    ensures Grown(h, hp, nu).live - {hp} == h.live
  {
  }

  lemma GrowAll(h: Heap, ptr: map<int, int>, size: map<int, nat>, base: int, hp: int, nu: nat)
    returns (h1: Heap, size1: map<int, nat>)
    requires Inv(h, ptr, size, base) && Below(h, base, hp) && nu > 0
    ensures size1 == size[hp := nu] && Inv(h1, ptr, size1, base) && Below(h1, base, hp + nu) && h1.free == h.free
    ensures hp in h1.live && h1.live[hp] == nu && h1.live - {hp} == h.live && |h1.owner| == |h.owner| + nu
  {
    GrowKeeps(h, ptr, size, base, hp, nu);
    GrowCount(h, base, hp, nu);
    GrowLive(h, hp, nu);
    h1, size1 := Grown(h, hp, nu), size[hp := nu];
  }

  lemma FirstKeeps(base: int)
    ensures Inv(Heap({base}, map[], map[]), map[base := base], map[base := 0], base)
  {
  }

  /** The part of the ring malloc has still to visit when it stands at p and last
      stopped at freep: from p up to freep, going around. */
  ghost predicate Ahead(p: int, freep: int, w: int) {
    if p <= freep then p <= w <= freep else p <= w || w <= freep
  }

  lemma AheadStep(free: set<int>, base: int, p: int, next: int, freep: int, w: int)
    requires IsNext(free, base, p, next) && w in free && freep in free && base <= w
    requires p == freep || (Ahead(p, freep, w) && p != w)
    ensures Ahead(next, freep, w)
  {
  }

  /** No member of the list has n units. */
  ghost predicate NoneFits(free: set<int>, size: map<int, nat>, n: nat) {
    forall a: int {:trigger a in free} | a in free && a in size :: size[a] < n
  }

  /** The members the walk from freep has passed before it comes to p are too small. */
  ghost predicate NonePassed(free: set<int>, size: map<int, nat>, p: int, freep: int, n: nat) {
    forall a: int {:trigger a in free} | a in free && a in size :: size[a] < n || Ahead(p, freep, a)
  }

  lemma PassStep(free: set<int>, size: map<int, nat>, base: int, p: int, next: int, freep: int, n: nat)
    requires IsNext(free, base, p, next) && freep in free && forall a: int {:trigger a in free} | a in free :: a >= base
    requires p == freep || (NonePassed(free, size, p, freep, n) && p in size && size[p] < n)
    ensures NonePassed(free, size, next, freep, n)
  {
    forall a: int | a in free && a in size && size[a] >= n
      ensures Ahead(next, freep, a)
    {
      AheadStep(free, base, p, next, freep, a);
    }
  }

  // ----- Conservation: the blocks' sizes add up to the units obtained from sbrk

  ghost function TotalSize(blocks: set<int>, size: map<int, nat>): nat
    requires forall a: int | a in blocks :: a in size
  {
    if blocks == {} then 0 else var a := Pick(blocks); size[a] + TotalSize(blocks - {a}, size)
  }

  ghost function UnitsOf(h: Heap, blocks: set<int>): set<int> {
    set u: int | u in h.owner && h.owner[u] in blocks
  }

  lemma UnitsWithout(h: Heap, blocks: set<int>, a: int)
    requires a in blocks
    ensures |UnitsOf(h, blocks)| == |UnitsOf(h, blocks - {a})| + |UnitsOf(h, {a})|
  {
    assert UnitsOf(h, blocks) == UnitsOf(h, blocks - {a}) + UnitsOf(h, {a});
    assert UnitsOf(h, blocks - {a}) !! UnitsOf(h, {a});
  }

  lemma BlockUnits(h: Heap, size: map<int, nat>, base: int, a: int)
    requires Tiled(h, size, base) && IsBlock(h, a)
    ensures UnitsOf(h, {a}) == Units(a, size[a])
  {
    forall u: int
      ensures u in Units(a, size[a]) <==> u in h.owner && h.owner[u] == a
    {
      if u in Units(a, size[a]) { assert u in h.owner; }
    }
  }

  lemma {:induction false} UnitsOfBlocks(h: Heap, size: map<int, nat>, base: int, blocks: set<int>)
    requires Tiled(h, size, base) && forall a: int | a in blocks :: IsBlock(h, a)
    ensures forall a: int | a in blocks :: a in size
    ensures |UnitsOf(h, blocks)| == TotalSize(blocks, size)
  {
    assert forall a: int | a in blocks :: IsBlock(h, a);
    if blocks == {} {
      assert UnitsOf(h, blocks) == {};
    } else {
      var a := Pick(blocks);
      UnitsOfBlocks(h, size, base, blocks - {a});
      BlockUnits(h, size, base, a);
      UnitsWithout(h, blocks, a);
    }
  }

  /** Free units plus allocated units are the units obtained. */
  lemma UnitsConserved(h: Heap, ptr: map<int, int>, size: map<int, nat>, base: int)
    requires Inv(h, ptr, size, base)
    ensures forall a: int | a in h.free + h.live.Keys :: a in size
    ensures TotalSize(h.free, size) + TotalSize(h.live.Keys, size) == |h.owner|
  {
    assert forall a: int | a in h.free + h.live.Keys :: IsBlock(h, a);
    UnitsOfBlocks(h, size, base, h.free);
    UnitsOfBlocks(h, size, base, h.live.Keys);
    assert h.owner.Keys == UnitsOf(h, h.free) + UnitsOf(h, h.live.Keys) by {
      forall u: int | u in h.owner ensures u in UnitsOf(h, h.free) + UnitsOf(h, h.live.Keys) {
        assert IsBlock(h, h.owner[u]);
      }
    }
    assert forall a: int | a in h.live.Keys :: a in h.live && a !in h.free;
    assert UnitsOf(h, h.free) !! UnitsOf(h, h.live.Keys);
  }

  // ----- The allocator itself

  const HEADER_BYTES := 8
  const MORECORE_UNITS := 4096
  const SBRK_LIMIT := 0x8000_0000 // sbrk takes a signed 32-bit byte count

  /** Units a request of nbytes needs, its header included. */
  function UnitsFor(nbytes: nat): (n: nat)
    ensures n > 0 && nbytes <= (n - 1) * HEADER_BYTES < nbytes + HEADER_BYTES
  {
    (nbytes + HEADER_BYTES - 1) / HEADER_BYTES + 1
  }

  /** Units that morecore asks for. */
  function MoreUnits(nunits: nat): (m: nat)
    ensures m >= nunits && m >= MORECORE_UNITS && (m == nunits || m == MORECORE_UNITS)
  {
    if nunits < MORECORE_UNITS then MORECORE_UNITS else nunits
  }

  class Allocator {
    const base: int
    var freep: int // 0 until the first call of malloc
    var ptr: map<int, int>
    var size: map<int, nat>
    var brk: int
    ghost var heap: Heap
    ghost var obtained: nat // how many units sbrk has handed out

    ghost predicate Valid()
      reads this
    {
      Shaped() && |heap.owner| == obtained
    }

    ghost predicate Shaped()
      reads this
    {
      && 0 < base
      && Below(heap, base, brk)
      && if freep == 0 then heap == Heap({}, map[], map[])
         else freep in heap.free && Inv(heap, ptr, size, base)
    }

    constructor (base: int, brk: int)
      requires 0 < base < brk
      ensures Valid() && heap.live == map[] && heap.owner == map[] && this.base == base && this.brk == brk
    {
      this.base := base;
      this.brk := brk;
      freep := 0;
      ptr := map[];
      size := map[];
      heap, obtained := Heap({}, map[], map[]), 0;
    }

    /** Valid() from its parts, once the fields hold their final values. */
    lemma Establish(h: Heap, ptr: map<int, int>, size: map<int, nat>)
      requires this.heap == h && this.ptr == ptr && this.size == size
      requires 0 < base && Below(h, base, brk) && freep != 0 && freep in h.free && Inv(h, ptr, size, base)
      requires |h.owner| == obtained
      ensures Valid()
    {
    }

    /** The search loop of free: where the block at bp belongs. */
    method FindPlace(bp: int) returns (p: int)
      requires Valid() && bp in heap.live
      ensures Precedes(heap.free, p, bp)
    {
      p := freep;
      assert IsBlock(heap, bp) && bp !in heap.free && bp > base;
      while !(bp > p && bp < ptr[p])
        invariant p in heap.free
        decreases if p > bp then 1 else 0, Above(heap.free, p)
      {
        assert IsNext(heap.free, base, p, ptr[p]);
        if p >= ptr[p] && (bp > p || bp < ptr[p]) {
          break;
        }
        if p < ptr[p] { StepUp(heap.free, ptr, base, p); }
        p := ptr[p];
      }
      assert IsNext(heap.free, base, p, ptr[p]);
    }

    /** The first half of free: bp takes its place after p, which still has to point to it. */
    method LinkBlock(p: int, bp: int)
      requires Valid() && bp in heap.live && Precedes(heap.free, p, bp)
      modifies this`ptr, this`size, this`heap
      ensures Almost(heap, ptr[p := bp], size, base, {p}) && p in heap.free && bp in heap.free && p < bp
      ensures heap.live == old(heap.live) - {bp} && heap.owner.Keys == old(heap.owner.Keys)
      ensures Absorbed(heap, size, bp, old(heap.live[bp])) && brk == old(brk)
    {
      ghost var h2, ptr2, size2 := LinkKeeps(heap, ptr, size, base, p, bp);
      var q := ptr[p];
      if bp + size[bp] == q {
        size := size[bp := size[bp] + size[q]];
        ptr := ptr[bp := ptr[q]];
      } else {
        ptr := ptr[bp := q];
      }
      heap := h2;
      assert ptr[p := bp] == ptr2 && size == size2;
    }

    method Free(ap: int) returns (ghost bigBlock: int)
      requires Valid() && ap - 1 in heap.live
      modifies this`ptr, this`size, this`heap, this`freep
      ensures Valid() && brk == old(brk) && freep != 0
      ensures heap.live == old(heap.live) - {ap - 1}
      ensures heap.owner.Keys == old(heap.owner.Keys)
      ensures bigBlock in heap.free && bigBlock in size && size[bigBlock] >= old(heap.live[ap - 1])
    {
      var bp := ap - 1;
      var p := FindPlace(bp);
      ghost var n := heap.live[bp];
      LinkBlock(p, bp);
      ghost var h3, ptr3, size3 := FreeKeeps(heap, ptr[p := bp], size, base, p, bp, n);
      if p + size[p] == bp {
        size := size[p := size[p] + size[bp]];
        ptr := ptr[p := ptr[bp]];
      } else {
        ptr := ptr[p := bp];
      }
      freep := p;
      heap := h3;
      Establish(h3, ptr3, size3);
      bigBlock := h3.owner[bp];
    }

    /** Address space growth: fails, or hands out n units no lower than the old break. */
    method Sbrk(n: nat) returns (p: int)
      requires n * HEADER_BYTES < SBRK_LIMIT
      modifies this`brk, this`obtained
      ensures p == -1 ==> brk == old(brk) && obtained == old(obtained)
      ensures p != -1 ==> old(brk) <= p && brk == p + n && obtained == old(obtained) + n
    {
      var failed: bool, gap: nat := *, *;
      if failed || brk < 0 {
        return -1;
      }
      p := brk + gap;
      brk, obtained := p + n, obtained + n;
    }

    /** The header morecore writes on fresh memory: a live block until free takes it. */
    method AddBlock(hp: int, nu: nat)
      requires Shaped() && freep != 0 && nu > 0 && Below(heap, base, hp) && brk == hp + nu
      requires obtained == |heap.owner| + nu
      modifies this`size, this`heap
      ensures Valid() && hp in heap.live && heap.live[hp] == nu
      ensures heap.live - {hp} == old(heap.live) && |heap.owner| == |old(heap.owner)| + nu
    {
      ghost var h1, size1 := GrowAll(heap, ptr, size, base, hp, nu);
      size := size[hp := nu];
      heap := h1;
      Establish(h1, ptr, size1);
    }

    method MoreCore(nunits: nat) returns (p: int, ghost bigBlock: int)
      requires Valid() && freep != 0 && nunits > 0 && nunits * HEADER_BYTES < SBRK_LIMIT
      modifies this
      ensures Valid() && freep != 0 && heap.live == old(heap.live)
      ensures p == 0 ==>
              && heap == old(heap) && ptr == old(ptr) && size == old(size) && freep == old(freep)
              && brk == old(brk)
      ensures p != 0 ==> p == freep && bigBlock in heap.free && bigBlock in size && size[bigBlock] >= nunits
      ensures p != 0 ==> |heap.owner| == |old(heap.owner)| + MoreUnits(nunits)
    {
      bigBlock := 0;
      var nu := MoreUnits(nunits);
      var hp := Sbrk(nu);
      if hp == -1 {
        return 0, 0;
      }
      AddBlock(hp, nu);
      bigBlock := Free(hp + 1);
      p := freep;
    }

    /** The first call puts the empty header base on the list. */
    method Initialise()
      requires Valid() && freep == 0
      modifies this`ptr, this`size, this`heap, this`freep
      ensures Valid() && freep == base && brk == old(brk)
      ensures heap == Heap({base}, old(heap.live), old(heap.owner)) && size == map[base := 0]
    {
      FirstKeeps(base);
      ptr := map[base := base];
      size := map[base := 0];
      freep := base;
      heap := Heap({base}, map[], map[]);
      Establish(heap, ptr, size);
    }

    /** malloc found a block p of more than nunits: cut off its tail. */
    method CutTail(prevp: int, found: int, nunits: nat) returns (p: int)
      requires Valid() && freep != 0 && found in heap.free && found in size && 0 < nunits < size[found]
               && prevp in heap.free
      modifies this`size, this`heap, this`freep
      ensures Valid() && p > base && p !in old(heap.live) && heap.live == old(heap.live)[p := nunits]
      ensures heap.owner.Keys == old(heap.owner.Keys) && freep == prevp
    {
      p := found;
      ghost var tail := p + size[p] - nunits;
      ghost var h, size1 := Split(heap, p, tail, nunits), size[p := size[p] - nunits][tail := nunits];
      SplitKeeps(heap, ptr, size, base, p, nunits);
      SplitCount(heap, p, tail, nunits);
      size := size[p := size[p] - nunits];
      p := p + size[p];
      size := size[p := nunits];
      heap := h;
      freep := prevp;
      Establish(h, ptr, size1);
    }

    /** malloc found a block of the right size: unlink it. */
    method Unlink(prevp: int, p: int)
      requires Valid() && freep != 0
      requires prevp in heap.free && p in heap.free && prevp in ptr && ptr[prevp] == p && p in size && size[p] > 0
      modifies this`ptr, this`heap, this`freep
      ensures Valid() && freep == prevp && brk == old(brk)
      ensures p > base && p !in old(heap.live) && heap.live == old(heap.live)[p := old(size[p])]
      ensures heap.owner.Keys == old(heap.owner.Keys)
    {
      TakeKeeps(heap, ptr, size, base, prevp, p);
      ghost var h, ptr1 := Taken(heap, p, size[p]), ptr[prevp := ptr[p]];
      ptr := ptr[prevp := ptr[p]];
      heap := h;
      freep := prevp;
      Establish(h, ptr1, size);
    }

    /** A null pointer comes back exactly when no free block is large enough and sbrk fails;
        memory grows exactly when none is large enough and sbrk succeeds. */
    method Malloc(nbytes: nat) returns (r: int)
      requires Valid() && UnitsFor(nbytes) * HEADER_BYTES < SBRK_LIMIT
      modifies this
      ensures Valid()
      ensures r == 0 ==>
              && heap.live == old(heap.live) && brk == old(brk)
              && NoneFits(old(heap.free), old(size), UnitsFor(nbytes))
      ensures r != 0 ==> r - 1 !in old(heap.live) && heap.live == old(heap.live)[r - 1 := UnitsFor(nbytes)]
      ensures |heap.owner| == |old(heap.owner)| +
                if r != 0 && NoneFits(old(heap.free), old(size), UnitsFor(nbytes)) then MoreUnits(UnitsFor(nbytes))
                else 0
    {
      var nunits := UnitsFor(nbytes);
      if freep == 0 {
        Initialise();
      }
      r := Search(nunits);
    }

    /** malloc found a block p of enough units. */
    method TakeFrom(prevp: int, found: int, nunits: nat) returns (r: int)
      requires Valid() && freep != 0 && nunits > 0 && found in size && size[found] >= nunits
      requires prevp in heap.free && found in heap.free && prevp in ptr && ptr[prevp] == found
      modifies this`ptr, this`size, this`heap, this`freep
      ensures Valid() && r > 1 && r - 1 !in old(heap.live) && heap.live == old(heap.live)[r - 1 := nunits]
      ensures |heap.owner| == |old(heap.owner)|
    {
      var p := found;
      if size[p] == nunits {
        Unlink(prevp, p);
      } else {
        p := CutTail(prevp, p, nunits);
      }
      r := p + 1;
      assert |heap.owner.Keys| == |old(heap.owner.Keys)|;
    }

    /** What the walk of malloc knows of the block after p. */
    lemma Advance(p: int, grown: bool, big: int, nunits: nat)
      requires Valid() && freep != 0 && p in heap.free
      requires grown ==> big in heap.free && (p == freep || (Ahead(p, freep, big) && p != big))
      requires !grown ==> p == freep || (NonePassed(heap.free, size, p, freep, nunits) && p in size && size[p] < nunits)
      ensures p in ptr && ptr[p] in heap.free && ptr[p] in size
      ensures p != freep ==>
                (p > freep && ptr[p] <= freep) || ((p > freep <==> ptr[p] > freep)
                                                   && Above(heap.free, ptr[p]) < Above(heap.free, p))
      ensures if grown then Ahead(ptr[p], freep, big) else NonePassed(heap.free, size, ptr[p], freep, nunits)
    {
      assert IsNext(heap.free, base, p, ptr[p]) && IsBlock(heap, ptr[p]);
      if p < ptr[p] { StepUp(heap.free, ptr, base, p); }
      if grown {
        AheadStep(heap.free, base, p, ptr[p], freep, big);
      } else {
        PassStep(heap.free, size, base, p, ptr[p], freep, nunits);
      }
    }

    /** The loop of malloc. */
    method Search(nunits: nat) returns (r: int)
      requires Valid() && freep != 0 && nunits > 0 && nunits * HEADER_BYTES < SBRK_LIMIT
      modifies this
      ensures Valid()
      ensures r == 0 ==> heap.live == old(heap.live) && brk == old(brk) && NoneFits(old(heap.free), old(size), nunits)
      ensures r != 0 ==> r - 1 !in old(heap.live) && heap.live == old(heap.live)[r - 1 := nunits]
      ensures |heap.owner| == |old(heap.owner)| + if r != 0 && NoneFits(old(heap.free), old(size), nunits)
              then MoreUnits(nunits) else 0
    {
      var prevp := freep;
      Advance(prevp, false, 0, nunits);
      var p := ptr[prevp];
      ghost var grown, big := false, 0;
      while true
        invariant Valid() && freep != 0 && heap.live == old(heap.live)
        invariant prevp in heap.free && p in heap.free && p in size && prevp in ptr && ptr[prevp] == p
        invariant |heap.owner| == |old(heap.owner)| + if grown then MoreUnits(nunits) else 0
        invariant grown ==> NoneFits(old(heap.free), old(size), nunits)
        invariant !grown ==>
                  && heap == old(heap) && size == old(size) && brk == old(brk)
                  && NonePassed(heap.free, size, p, freep, nunits)
        invariant grown ==> big in heap.free && big in size && size[big] >= nunits && Ahead(p, freep, big)
        decreases if grown then 0 else 1, if p > freep then 1 else 0, Above(heap.free, p)
      {
        if size[p] >= nunits {
          r := TakeFrom(prevp, p, nunits);
          return;
        }
        if p == freep {
          p, big := MoreCore(nunits);
          if p == 0 {
            return 0;
          }
          grown := true;
        }
        Advance(p, grown, big, nunits);
        prevp := p;
        p := ptr[p];
      }
    }
  }
}
