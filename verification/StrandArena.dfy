/**
 The per-strand arena allocator of psiber: a first-fit free list that is sorted
 and coalesced on every allocation, a stack of blocks returned by other threads,
 and a bump pointer.  A block is named by its offset in the region and the size
 word in its header; a linked list of blocks is the sequence of its blocks.
 */
module StrandArena {
  import opened Common

  /** sizeof(Block): a 32-bit size and a pointer, 16-aligned. */
  const HEADER: nat := 16

  datatype Block = Block(addr: nat, size: nat) {
    function End(): nat { addr + size }
  }

  /** The block size for a request, in 32-bit arithmetic: (16 + bytes + 15) & ~15. */
  function TotalFor(bytes: nat): (total: nat)
    ensures HEADER + bytes + 15 < TWO32 ==> HEADER + bytes <= total < HEADER + bytes + 16
    ensures total % 16 == 0 && total < TWO32
  {
    var n := (HEADER + bytes + 15) % TWO32;
    n - n % 16
  }

  // ------------------------------------------------------------------ tiling

  ghost predicate Apart(b: Block, c: Block) {
    b.End() <= c.addr || c.End() <= b.addr
  }

  /** The blocks tile [0, hi): none is empty, none sticks out, no two overlap, no byte is missed. */
  ghost predicate Tiles(blocks: set<Block>, hi: nat) {
    && (forall b :: b in blocks ==> 0 < b.size && b.End() <= hi && b.size % 16 == 0)
    && (forall b, c :: b in blocks && c in blocks && b != c ==> Apart(b, c))
    && (forall a: nat :: a < hi ==> Covered(blocks, a))
  }

  ghost predicate Covered(blocks: set<Block>, a: nat) {
    exists b :: b in blocks && b.addr <= a < b.End()
  }

  /** Replacing two neighbours by their union keeps the tiling. */
  lemma MergeTiles(rest: set<Block>, a: Block, b: Block, hi: nat)
    requires Tiles(rest + {a, b}, hi) && a.End() == b.addr && a !in rest && b !in rest
    ensures Tiles(rest + {Block(a.addr, a.size + b.size)}, hi)
    ensures Block(a.addr, a.size + b.size) !in rest
  {
    hide Covered;
    var ab := Block(a.addr, a.size + b.size);
    MergeApart(rest, a, b, hi);
    forall x: nat | x < hi ensures Covered(rest + {ab}, x) {
      MergeCovers(rest, a, b, x);
    }
  }

  lemma MergeApart(rest: set<Block>, a: Block, b: Block, hi: nat)
    requires Tiles(rest + {a, b}, hi) && a.End() == b.addr && a !in rest && b !in rest
    ensures var ab := Block(a.addr, a.size + b.size);
      ab !in rest && 0 < ab.size && ab.End() <= hi && ab.size % 16 == 0 && forall c :: c in rest ==> Apart(c, ab)
  {
    hide Covered;
    var prev, ab := rest + {a, b}, Block(a.addr, a.size + b.size);
    assert a in prev && b in prev;
    forall c | c in rest ensures Apart(c, ab) && c != ab {
      assert c in prev;
      assert Apart(c, a) && Apart(c, b);
    }
  }

  lemma MergeCovers(rest: set<Block>, a: Block, b: Block, x: nat)
    requires a.End() == b.addr && Covered(rest + {a, b}, x)
    ensures Covered(rest + {Block(a.addr, a.size + b.size)}, x)
  {
    var ab := Block(a.addr, a.size + b.size);
    var c :| c in rest + {a, b} && c.addr <= x < c.End();
    var d := if c == a || c == b then ab else c;
    assert d in rest + {ab};
  }

  /** Carving a new block at the end extends the tiling. */
  lemma BumpTiles(blocks: set<Block>, hi: nat, size: nat)
    requires Tiles(blocks, hi) && size > 0 && size % 16 == 0
    ensures Tiles(blocks + {Block(hi, size)}, hi + size)
  {
    var b := Block(hi, size);
    forall x: nat | x < hi + size ensures Covered(blocks + {b}, x) {
      if x < hi {
        assert Covered(blocks, x);
        var c :| c in blocks && c.addr <= x < c.End();
        assert c in blocks + {b};
      } else {
        assert b in blocks + {b};
      }
    }
  }

  // --------------------------------------------------------------- free list

  ghost function Elems(s: seq<Block>): set<Block> {
    set b | b in s
  }

  predicate SortedByAddr(s: seq<Block>) {
    forall i, j :: 0 <= i < j < |s| ==> s[i].addr < s[j].addr
  }

  /** Address-ordered, disjoint, and no two blocks adjacent. */
  predicate Coalesced(s: seq<Block>) {
    forall i, j :: 0 <= i < j < |s| ==> s[i].End() < s[j].addr
  }

  /** The blocks follow one another without gap or overlap from lo to hi. */
  ghost predicate Chain(run: seq<Block>, lo: nat, hi: nat) {
    if run == [] then lo == hi
    else run[0].addr == lo && run[0].size > 0 && Chain(run[1..], run[0].End(), hi)
  }

  /** A non-empty run of adjacent blocks of xs that fills [lo, hi). */
  ghost predicate IsRun(run: seq<Block>, xs: set<Block>, lo: nat, hi: nat) {
    run != [] && Chain(run, lo, hi) && forall b :: b in run ==> b in xs
  }

  /** Some run of adjacent free blocks is at least total bytes long. */
  ghost predicate RunFits(blocks: set<Block>, total: nat) {
    exists run: seq<Block>, lo: nat, hi: nat :: IsRun(run, blocks, lo, hi) && total <= hi - lo
  }

  ghost predicate InSome(ys: seq<Block>, b: Block) {
    exists c :: c in ys && c.addr <= b.addr && b.End() <= c.End()
  }

  ghost predicate IsMade(xs: set<Block>, c: Block) {
    exists run: seq<Block> :: IsRun(run, xs, c.addr, c.End())
  }

  /** The blocks of ys are the blocks of xs joined into longer runs, none lost. */
  ghost predicate Joins(ys: seq<Block>, xs: set<Block>) {
    (forall b :: b in xs ==> InSome(ys, b)) && (forall c :: c in ys ==> IsMade(xs, c))
  }

  lemma {:induction false} ChainAppend(a: seq<Block>, b: seq<Block>, lo: nat, mid: nat, hi: nat)
    requires Chain(a, lo, mid) && Chain(b, mid, hi)
    ensures Chain(a + b, lo, hi)
  {
    if a == [] {
      assert a + b == b;
    } else {
      ChainAppend(a[1..], b, a[0].End(), mid, hi);
      assert (a + b)[1..] == a[1..] + b;
    }
  }

  lemma {:induction false} ChainGrows(run: seq<Block>, lo: nat, hi: nat)
    requires Chain(run, lo, hi)
    ensures lo <= hi && (run != [] ==> lo < hi)
  {
    if run != [] { ChainGrows(run[1..], run[0].End(), hi); }
  }

  /** A run of adjacent free blocks ends up inside a single coalesced block. */
  lemma {:induction false} RunInOne(s: seq<Block>, blocks: set<Block>, run: seq<Block>, lo: nat, hi: nat)
    returns (k: nat)
    requires Coalesced(s) && Joins(s, blocks) && IsRun(run, blocks, lo, hi)
    ensures k < |s| && s[k].addr <= lo && hi <= s[k].End()
  {
    assert run[0] in blocks;
    assert InSome(s, run[0]);
    var c :| c in s && c.addr <= run[0].addr && run[0].End() <= c.End();
    k :| 0 <= k < |s| && s[k] == c;
    if |run| > 1 {
      var m := RunInOne(s, blocks, run[1..], run[0].End(), hi);
      ChainGrows(run[1..], run[0].End(), hi);
      assert k == m;
    } else {
      assert run[1..] == [] && Chain(run[1..], run[0].End(), hi);
    }
  }

  /** First fit on the coalesced list succeeds exactly when some run of free blocks is long enough. */
  lemma FitIffRun(s: seq<Block>, blocks: set<Block>, total: nat)
    requires Coalesced(s) && Joins(s, blocks)
    ensures RunFits(blocks, total) <==> exists i :: 0 <= i < |s| && total <= s[i].size
  {
    if RunFits(blocks, total) {
      var run: seq<Block>, lo: nat, hi: nat :| IsRun(run, blocks, lo, hi) && total <= hi - lo;
      var k := RunInOne(s, blocks, run, lo, hi);
      assert total <= s[k].size;
    }
    if i :| 0 <= i < |s| && total <= s[i].size {
      assert IsMade(blocks, s[i]);
      var run: seq<Block> :| IsRun(run, blocks, s[i].addr, s[i].End());
    }
  }

  /** No run of adjacent blocks that is long enough starts below addr. */
  ghost predicate Lowest(blocks: set<Block>, total: nat, addr: nat) {
    forall run: seq<Block>, lo: nat, hi: nat :: IsRun(run, blocks, lo, hi) && total <= hi - lo ==> addr <= lo
  }

  /** The first block of the coalesced list that fits is a run of free blocks, and no run that fits starts below it. */
  lemma FirstIsLowest(s: seq<Block>, blocks: set<Block>, total: nat, k: nat)
    requires Coalesced(s) && Joins(s, blocks) && k < |s| && forall i :: 0 <= i < k ==> s[i].size < total
    ensures IsMade(blocks, s[k]) && Lowest(blocks, total, s[k].addr)
  {
    hide IsMade;
    forall run: seq<Block>, lo: nat, hi: nat | IsRun(run, blocks, lo, hi) && total <= hi - lo
      ensures s[k].addr <= lo
    {
      var m := RunInOne(s, blocks, run, lo, hi);
      assert s[m].size >= total;
      assert m > k ==> s[k].End() < s[m].addr;
    }
    assert s[k] in s;
  }

  /** No block goes on where a block of the coalesced list ends. */
  ghost predicate EndsRun(blocks: set<Block>, hi: nat) {
    forall b :: b in blocks ==> b.addr != hi
  }

  lemma WholeRun(s: seq<Block>, blocks: set<Block>, k: nat)
    requires Coalesced(s) && Joins(s, blocks) && k < |s| && forall b :: b in blocks ==> b.size > 0
    ensures EndsRun(blocks, s[k].End())
  {
    forall b | b in blocks ensures b.addr != s[k].End() {
      assert InSome(s, b);
      var c :| c in s && c.addr <= b.addr && b.End() <= c.End();
      var m :| 0 <= m < |s| && s[m] == c;
      if m < k { assert s[m].End() < s[k].addr; }
      if m > k { assert s[k].End() < s[m].addr; }
    }
  }

  lemma NoneEmpty(live: map<nat, nat>, free: seq<Block>, hi: nat)
    requires Partition(live, free, hi)
    ensures forall b :: b in Elems(free) ==> b.size > 0
  {
    hide Held;
    assert forall b :: b in Elems(free) ==> b in Held(live) + Elems(free);
  }

  lemma SortedNone()
    ensures SortedByAddr([])
  {
  }

  /** A block put between those below it and those above it. */
  function Inserted(sorted: seq<Block>, cur: Block, p: nat): seq<Block>
    requires p <= |sorted|
  {
    sorted[..p] + [cur] + sorted[p..]
  }

  lemma InsertedAt(sorted: seq<Block>, cur: Block, p: nat, i: nat)
    requires p <= |sorted| && i <= |sorted|
    ensures |Inserted(sorted, cur, p)| == |sorted| + 1
    ensures Inserted(sorted, cur, p)[i] == if i < p then sorted[i] else if i == p then cur else sorted[i - 1]
  {
  }

  lemma InsertedSorted(sorted: seq<Block>, cur: Block, p: nat)
    requires SortedByAddr(sorted) && p <= |sorted|
    requires (p > 0 ==> sorted[p - 1].addr < cur.addr) && (p < |sorted| ==> cur.addr < sorted[p].addr)
    ensures SortedByAddr(Inserted(sorted, cur, p))
  {
    hide Inserted;
    var r := Inserted(sorted, cur, p);
    InsertedAt(sorted, cur, p, 0);
    forall i, j | 0 <= i < j < |r|
      ensures r[i].addr < r[j].addr
    {
      InsertedAt(sorted, cur, p, i);
      InsertedAt(sorted, cur, p, j);
    }
  }

  lemma InsertedElems(sorted: seq<Block>, cur: Block, p: nat, b: Block)
    requires p <= |sorted|
    ensures b in Inserted(sorted, cur, p) <==> b == cur || b in sorted
  {
    assert sorted == sorted[..p] + sorted[p..];
  }

  /** Links a block in at its place. */
  method Put(sorted: seq<Block>, cur: Block, p: nat) returns (r: seq<Block>)
    requires SortedByAddr(sorted) && p <= |sorted|
    requires (p > 0 ==> sorted[p - 1].addr < cur.addr) && (p < |sorted| ==> cur.addr < sorted[p].addr)
    ensures SortedByAddr(r) && forall b :: b in r <==> b == cur || b in sorted
  {
    hide SortedByAddr;
    InsertedSorted(sorted, cur, p);
    forall b: Block
      ensures b in Inserted(sorted, cur, p) <==> b == cur || b in sorted
    {
      InsertedElems(sorted, cur, p, b);
    }
    r := sorted[..p] + [cur] + sorted[p..];
  }

  /** The insertion sort of the free list (the first loop of step 2). */
  method SortFreeList(list: seq<Block>) returns (sorted: seq<Block>)
    requires forall i, j :: 0 <= i < j < |list| ==> list[i].addr != list[j].addr
    ensures SortedByAddr(sorted)
    ensures Elems(sorted) == Elems(list)
  {
    hide SortedByAddr, Inserted;
    sorted := [];
    SortedNone();
    var i := 0;
    while i < |list|
      invariant 0 <= i <= |list|
      invariant forall b :: b in sorted <==> b in list[..i]
      invariant SortedByAddr(sorted)
    {
      var cur := list[i];
      assert list[..i + 1] == list[..i] + [cur];
      forall k | 0 <= k < |sorted|
        ensures sorted[k].addr != cur.addr
      {
        assert sorted[k] in list[..i];
      }
      if sorted == [] || cur.addr < sorted[0].addr {
        sorted := Put(sorted, cur, 0);
      } else {
        var s := 0;
        while s + 1 < |sorted| && sorted[s + 1].addr < cur.addr
          invariant 0 <= s < |sorted|
          invariant sorted[s].addr < cur.addr
        {
          s := s + 1;
        }
        sorted := Put(sorted, cur, s + 1);
      }
      i := i + 1;
    }
    assert list[..i] == list;
  }

  /** What the merge loop keeps: blocks before cur are final, the list is sorted and still tiles with the rest. */
  ghost predicate Merging(s: seq<Block>, cur: nat, rest: set<Block>, hi: nat, xs: set<Block>) {
    && (cur < |s| || s == [])
    && SortedByAddr(s) && rest !! Elems(s)
    && Tiles(rest + Elems(s), hi)
    && (forall i :: 0 <= i < cur < |s| ==> s[i].End() < s[i + 1].addr)
    && Joins(s, xs)
  }

  /** The merge of adjacent blocks (the second loop of step 2). */
  method MergeFreeList(sorted: seq<Block>, ghost rest: set<Block>, ghost hi: nat) returns (s: seq<Block>)
    requires SortedByAddr(sorted) && rest !! Elems(sorted)
    requires Tiles(rest + Elems(sorted), hi)
    ensures Coalesced(s) && rest !! Elems(s)
    ensures Tiles(rest + Elems(s), hi)
    ensures Joins(s, Elems(sorted))
  {
    hide Tiles, Joins, Merging, Coalesced;
    s := sorted;
    var cur := 0;
    MergeBegins(s, rest, hi);
    while cur + 1 < |s|
      invariant Merging(s, cur, rest, hi, Elems(sorted))
      decreases |s| - cur
    {
      if s[cur].End() == s[cur + 1].addr {
        var t := s[..cur] + [Block(s[cur].addr, s[cur].size + s[cur + 1].size)] + s[cur + 2..];
        MergeStep(s, t, cur, rest, hi, Elems(sorted));
        s := t;
      } else {
        GapStep(s, cur, rest, hi, Elems(sorted));
        cur := cur + 1;
      }
    }
    MergeEnds(s, cur, rest, hi, Elems(sorted));
  }

  lemma MergeBegins(s: seq<Block>, rest: set<Block>, hi: nat)
    requires SortedByAddr(s) && rest !! Elems(s) && Tiles(rest + Elems(s), hi)
    ensures Merging(s, 0, rest, hi, Elems(s))
  {
    SingletonRuns(s, rest, hi);
  }

  lemma SingletonRuns(s: seq<Block>, rest: set<Block>, hi: nat)
    requires Tiles(rest + Elems(s), hi)
    ensures Joins(s, Elems(s))
  {
    forall c | c in s ensures IsMade(Elems(s), c) && InSome(s, c) {
      assert c in rest + Elems(s);
      assert Chain([c][1..], c.End(), c.End());
      assert IsRun([c], Elems(s), c.addr, c.End());
    }
  }

  lemma MergeStep(s: seq<Block>, t: seq<Block>, cur: nat, rest: set<Block>, hi: nat, xs: set<Block>)
    requires Merging(s, cur, rest, hi, xs) && cur + 1 < |s| && s[cur].End() == s[cur + 1].addr
    requires t == s[..cur] + [Block(s[cur].addr, s[cur].size + s[cur + 1].size)] + s[cur + 2..]
    ensures Merging(t, cur, rest, hi, xs)
  {
    MergeKeepsTiles(s, t, cur, rest, hi);
    MergeJoins(s, t, cur, xs);
    hide Tiles, Joins;
  }

  lemma MergeKeepsTiles(s: seq<Block>, t: seq<Block>, cur: nat, rest: set<Block>, hi: nat)
    requires cur + 1 < |s| && s[cur].End() == s[cur + 1].addr
    requires t == s[..cur] + [Block(s[cur].addr, s[cur].size + s[cur + 1].size)] + s[cur + 2..]
    requires SortedByAddr(s) && rest !! Elems(s) && Tiles(rest + Elems(s), hi)
    ensures rest !! Elems(t) && Tiles(rest + Elems(t), hi)
  {
    var a, b, pre, post := s[cur], s[cur + 1], s[..cur], s[cur + 2..];
    var ab := Block(a.addr, a.size + b.size);
    var others := rest + Elems(pre) + Elems(post);
    hide Tiles;
    assert s == pre + [a, b] + post;
    ElemsConcat(pre, [a, b], post);
    ElemsConcat(pre, [ab], post);
    PairApart(s, cur);
    hide SortedByAddr, Elems;
    assert Elems([a, b]) == {a, b} && Elems([ab]) == {ab} by { ElemsFew(a, b); ElemsFew(ab, ab); }
    assert a !in others && b !in others;
    assert rest + Elems(s) == others + {a, b};
    MergeTiles(others, a, b, hi);
    assert rest + Elems(t) == others + {ab};
  }

  lemma ElemsFew(a: Block, b: Block)
    ensures Elems([a, b]) == {a, b} && Elems([a]) == {a}
  {
  }

  /** Two neighbours of a sorted list are not among the rest of it. */
  lemma PairApart(s: seq<Block>, cur: nat)
    requires SortedByAddr(s) && cur + 1 < |s|
    ensures s[cur] in Elems(s) && s[cur + 1] in Elems(s)
    ensures s[cur] !in Elems(s[..cur]) && s[cur] !in Elems(s[cur + 2..])
    ensures s[cur + 1] !in Elems(s[..cur]) && s[cur + 1] !in Elems(s[cur + 2..])
  {
  }

  lemma ElemsConcat(pre: seq<Block>, mid: seq<Block>, post: seq<Block>)
    ensures Elems(pre + mid + post) == Elems(pre) + Elems(mid) + Elems(post)
  {
  }

  lemma MergeJoins(s: seq<Block>, t: seq<Block>, cur: nat, xs: set<Block>)
    requires cur + 1 < |s| && s[cur].End() == s[cur + 1].addr
    requires t == s[..cur] + [Block(s[cur].addr, s[cur].size + s[cur + 1].size)] + s[cur + 2..]
    requires Joins(s, xs)
    ensures Joins(t, xs)
  {
    var a, b := s[cur], s[cur + 1];
    forall x | x in xs ensures InSome(t, x) {
      assert InSome(s, x);
      var c :| c in s && c.addr <= x.addr && x.End() <= c.End();
      var k :| 0 <= k < |s| && s[k] == c;
      var m := if k <= cur then k else k - 1;
      assert t[m] in t && t[m].addr <= x.addr && x.End() <= t[m].End();
    }
    assert IsMade(xs, a) && IsMade(xs, b);
    var r: seq<Block> :| IsRun(r, xs, a.addr, a.End());
    var q: seq<Block> :| IsRun(q, xs, b.addr, b.End());
    ChainAppend(r, q, a.addr, a.End(), b.End());
    assert IsRun(r + q, xs, a.addr, b.End());
    forall m | 0 <= m < |t| ensures IsMade(xs, t[m]) {
      if m == cur {
        assert t[m].End() == b.End();
      } else {
        assert t[m] == s[if m < cur then m else m + 1];
      }
    }
  }

  lemma GapStep(s: seq<Block>, cur: nat, rest: set<Block>, hi: nat, xs: set<Block>)
    requires Merging(s, cur, rest, hi, xs) && cur + 1 < |s| && s[cur].End() != s[cur + 1].addr
    ensures Merging(s, cur + 1, rest, hi, xs)
  {
    assert s[cur] in rest + Elems(s) && s[cur + 1] in rest + Elems(s);
    assert Apart(s[cur], s[cur + 1]);
  }

  lemma MergeEnds(s: seq<Block>, cur: nat, rest: set<Block>, hi: nat, xs: set<Block>)
    requires Merging(s, cur, rest, hi, xs) && cur + 1 >= |s|
    ensures Coalesced(s) && rest !! Elems(s) && Tiles(rest + Elems(s), hi) && Joins(s, xs)
  {
    GapsMeanCoalesced(s);
  }

  lemma GapsMeanCoalesced(s: seq<Block>)
    requires forall i :: 0 <= i < |s| - 1 ==> s[i].End() < s[i + 1].addr
    ensures Coalesced(s)
  {
    var j := 0;
    while j < |s|
      invariant 0 <= j <= |s|
      invariant forall i, k :: 0 <= i < k < j ==> s[i].End() < s[k].addr
    {
      forall i | 0 <= i < j ensures s[i].End() < s[j].addr {
        if i < j - 1 { assert s[i].End() < s[j - 1].addr && s[j - 1].End() < s[j].addr; }
      }
      j := j + 1;
    }
  }

  // ------------------------------------------------------------------- arena

  class StrandArena {
    const capacity: nat
    var bump: nat
    var freeList: seq<Block>
    /** Blocks freed since the last allocation, newest first. */
    var returned: seq<Block>
    /** The size words in the headers of the blocks now held by callers. */
    var live: map<nat, nat>

    ghost function FreeBlocks(): set<Block>
      reads this
    {
      Elems(returned + freeList)
    }

    /** Live, free and returned blocks tile [0, bump) exactly, each in one place only. */
    ghost predicate Valid()
      reads this
    {
      bump <= capacity < TWO32 && Partition(live, returned + freeList, bump)
    }

    constructor (arenaBytes: nat)
      requires arenaBytes < TWO32
      ensures Valid() && capacity == arenaBytes && live == map[] && FreeBlocks() == {} && bump == 0
    {
      capacity := arenaBytes;
      bump, freeList, returned, live := 0, [], [], map[];
    }

    /** Neither 32-bit sum of the allocation wraps on the path it takes. */
    ghost predicate AllocSound(bytes: nat)
      reads this
    {
      HEADER + bytes + 15 < TWO32 && (RunFits(FreeBlocks(), TotalFor(bytes)) || bump + TotalFor(bytes) < TWO32)
    }

    /**
     Fails exactly when no run of adjacent free blocks is long enough and the
     (32-bit) bump test fails, and then nothing a caller holds has changed.  A
     grant adds one block to the live ones; it is large enough and the tiling
     survives if and only if the 32-bit sums did not wrap.  If a run of free
     blocks fits, the block is the whole of the lowest such run.
     */
    method Alloc(bytes: nat) returns (ptr: Option<nat>)
      requires Valid() && bytes < TWO32
      modifies this
      ensures ptr.None? <==>
                && !old(RunFits(FreeBlocks(), TotalFor(bytes)))
                && (old(bump) + TotalFor(bytes)) % TWO32 > capacity
      ensures ptr.None? ==> Valid() && live == old(live) && bump == old(bump)
      ensures ptr.Some? ==>
                && ptr.value >= HEADER && ptr.value - HEADER !in old(live)
                && live.Keys == old(live).Keys + {ptr.value - HEADER}
                && (forall a :: a in old(live) ==> live[a] == old(live)[a])
      ensures ptr.Some? ==> (Valid() && HEADER + bytes <= live[ptr.value - HEADER] <==> old(AllocSound(bytes)))
      ensures ptr.Some? && old(RunFits(FreeBlocks(), TotalFor(bytes))) ==>
                var addr := ptr.value - HEADER;
                && bump == old(bump) && TotalFor(bytes) <= live[addr]
                && IsMade(old(FreeBlocks()), Block(addr, live[addr]))
                && Lowest(old(FreeBlocks()), TotalFor(bytes), addr) && EndsRun(old(FreeBlocks()), addr + live[addr])
      ensures ptr.Some? && !old(RunFits(FreeBlocks(), TotalFor(bytes))) ==>
                ptr.value == old(bump) + HEADER && live == old(live)[old(bump) := TotalFor(bytes)]
      ensures returned == [] && Coalesced(freeList)
    {
      hide Joins, Coalesced, Partition, RunFits, Elems, TotalFor, IsMade, Lowest, EndsRun;
      var total := TotalFor(bytes);
      ghost var was := FreeBlocks();
      NoneEmpty(live, returned + freeList, bump);
      var merged := Coalesce();
      FitIffRun(merged, was, total);
      freeList, returned := merged, [];
      var k := FirstFit(freeList, total);
      if k < |freeList| {
        FirstIsLowest(merged, was, total, k);
        WholeRun(merged, was, k);
        var addr := TakeFree(k, bytes);
        ptr := Some(addr + HEADER);
      } else {
        ptr := Carve(bytes);
      }
    }

    /** Step 3: unlink the fitting block from the coalesced list. */
    method TakeFree(k: nat, ghost bytes: nat) returns (addr: nat)
      requires returned == [] && Coalesced(freeList) && Partition(live, freeList, bump) && bump <= capacity < TWO32
      requires bytes < TWO32 && k < |freeList| && freeList[k].size >= TotalFor(bytes)
      modifies this`freeList, this`live
      ensures Valid() && Coalesced(freeList)
      ensures addr !in old(live) && addr == old(freeList)[k].addr && live == old(live)[addr := old(freeList)[k].size]
      ensures freeList == old(freeList)[..k] + old(freeList)[k + 1..]
      ensures HEADER + bytes <= live[addr] <==> HEADER + bytes + 15 < TWO32
    {
      var b := freeList[k];
      Grant(live, freeList, k, bump);
      LargeEnough(bytes, b.size, bump);
      hide Tiles, Coalesced, Partition, Held, Elems;
      freeList := freeList[..k] + freeList[k + 1..];
      assert returned + freeList == freeList;
      live := live[b.addr := b.size];
      addr := b.addr;
    }

    /** Step 4: carve a block at the bump pointer. */
    method Carve(bytes: nat) returns (ptr: Option<nat>)
      requires returned == [] && Partition(live, freeList, bump) && bump <= capacity < TWO32 && bytes < TWO32
      modifies this`bump, this`live
      ensures ptr.None? <==> (old(bump) + TotalFor(bytes)) % TWO32 > capacity
      ensures ptr.None? ==> Valid() && live == old(live) && bump == old(bump)
      ensures ptr.Some? ==>
                && ptr.value == old(bump) + HEADER && old(bump) !in old(live)
                && live == old(live)[old(bump) := TotalFor(bytes)]
                && (Valid() && HEADER + bytes <= TotalFor(bytes)
                    <==> HEADER + bytes + 15 < TWO32 && old(bump) + TotalFor(bytes) < TWO32)
    {
      LargeEnough(bytes, TotalFor(bytes), TWO32 - 1);
      hide TotalFor, Tiles, Partition, Held, Elems;
      var total := TotalFor(bytes);
      assert returned + freeList == freeList;
      if (bump + total) % TWO32 > capacity {
        ptr := None;
        return;
      }
      CarveAtEnd(live, freeList, bump, total);
      live := live[bump := total];
      ptr := Some(bump + HEADER);
      bump := (bump + total) % TWO32;
    }

    /** Steps 1 and 2: the returned blocks and the free list, sorted and merged. */
    method Coalesce() returns (merged: seq<Block>)
      requires Valid()
      ensures Coalesced(merged) && Partition(live, merged, bump)
      ensures Joins(merged, FreeBlocks())
    {
      var list := returned + freeList;
      if list == [] {
        merged := [];
        return;
      }
      forall i, j | 0 <= i < j < |list| ensures list[i].addr != list[j].addr {
        assert list[i] in Elems(list) && list[j] in Elems(list);
        assert Apart(list[i], list[j]);
      }
      var sorted := SortFreeList(list);
      merged := MergeFreeList(sorted, Held(live), bump);
    }

    /** Hands a block back: it moves from the live blocks to the returned stack. */
    method Free(ptr: Option<nat>)
      requires Valid()
      requires ptr.Some? ==> ptr.value >= HEADER && ptr.value - HEADER in live
      modifies this
      ensures Valid() && bump == old(bump) && freeList == old(freeList)
      ensures ptr.None? ==> live == old(live) && returned == old(returned)
      ensures ptr.Some? ==>
                var a := ptr.value - HEADER;
                live == old(live) - {a} && returned == [Block(a, old(live)[a])] + old(returned)
    {
      if ptr.None? { return; }
      var a := ptr.value - HEADER;
      var b := Block(a, live[a]);
      HeldSplit(live, a);
      assert b !in returned + freeList by { assert b in Held(live); }
      returned := [b] + returned;
      assert returned + freeList == [b] + (old(returned) + freeList);
      live := live - {a};
      assert FreeBlocks() == old(FreeBlocks()) + {b};
      assert Held(live) + FreeBlocks() == old(Held(live) + FreeBlocks());
    }
  }

  /** The blocks described by the headers of the granted blocks. */
  ghost function Held(live: map<nat, nat>): set<Block> {
    set a | a in live :: Block(a, live[a])
  }

  lemma HeldSplit(live: map<nat, nat>, a: nat)
    requires a in live
    ensures Held(live) == Held(live - {a}) + {Block(a, live[a])}
    ensures Block(a, live[a]) !in Held(live - {a})
  {
    var rest := live - {a};
    forall b | b in Held(live) && b != Block(a, live[a]) ensures b in Held(rest) {
      assert b.addr in rest && rest[b.addr] == b.size;
    }
  }

  lemma HeldAdd(live: map<nat, nat>, b: Block)
    requires b.addr !in live
    ensures Held(live[b.addr := b.size]) == Held(live) + {b}
  {
    HeldSplit(live[b.addr := b.size], b.addr);
    assert live[b.addr := b.size] - {b.addr} == live;
  }

  /** The live blocks and the listed free blocks tile [0, hi), no block in two places. */
  ghost predicate Partition(live: map<nat, nat>, free: seq<Block>, hi: nat) {
    NoDup(free) && Held(live) !! Elems(free) && Tiles(Held(live) + Elems(free), hi)
  }

  method FirstFit(free: seq<Block>, total: nat) returns (k: nat)
    ensures k <= |free|
    ensures forall i :: 0 <= i < k ==> free[i].size < total
    ensures k < |free| ==> free[k].size >= total
  {
    k := 0;
    while k < |free| && free[k].size < total
      invariant k <= |free|
      invariant forall i :: 0 <= i < k ==> free[i].size < total
    {
      k := k + 1;
    }
  }

  /** Moving a free block to the live ones keeps the partition. */
  lemma Grant(live: map<nat, nat>, free: seq<Block>, k: nat, hi: nat)
    requires k < |free| && Partition(live, free, hi) && Coalesced(free)
    ensures var b, rest := free[k], free[..k] + free[k + 1..];
            && b.addr !in live && b.End() <= hi && b.size % 16 == 0
            && Coalesced(rest)
            && Partition(live[b.addr := b.size], rest, hi)
  {
    var b, rest := free[k], free[..k] + free[k + 1..];
    assert b in Held(live) + Elems(free);
    FreeIsNotLive(live, Held(live) + Elems(free), b, hi);
    HeldAdd(live, b);
    TakeOut(free, k);
    hide Tiles, Held, Elems;
    assert Held(live[b.addr := b.size]) + Elems(rest) == Held(live) + Elems(free);
  }

  /** A tile that is not live starts where no live one does. */
  lemma FreeIsNotLive(live: map<nat, nat>, blocks: set<Block>, b: Block, hi: nat)
    requires Tiles(blocks, hi) && Held(live) <= blocks && b in blocks && b !in Held(live)
    ensures b.addr !in live
  {
    assert forall c :: c in Held(live) ==> c in blocks && Apart(b, c);
    assert forall a :: a in live ==> Block(a, live[a]) in Held(live);
  }

  lemma TakeOut(free: seq<Block>, k: nat)
    requires k < |free| && NoDup(free) && Coalesced(free)
    ensures var b, rest := free[k], free[..k] + free[k + 1..];
      NoDup(rest) && Coalesced(rest) && b !in Elems(rest) && Elems(free) == Elems(rest) + {b}
  {
    var b, rest := free[k], free[..k] + free[k + 1..];
    assert free == free[..k] + [b] + free[k + 1..];
    assert forall i :: 0 <= i < |rest| ==> rest[i] == free[if i < k then i else i + 1];
  }

  /** A block of at least the computed size holds the request unless the size computation wrapped. */
  lemma LargeEnough(bytes: nat, size: nat, hi: nat)
    requires bytes < TWO32 && TotalFor(bytes) <= size <= hi < TWO32 && size % 16 == 0
    ensures HEADER + bytes <= size <==> HEADER + bytes + 15 < TWO32
  {
  }

  /** Carving a block at the bump pointer keeps the partition exactly when the sums do not wrap. */
  lemma CarveAtEnd(live: map<nat, nat>, free: seq<Block>, hi: nat, total: nat)
    requires Partition(live, free, hi) && total % 16 == 0 && total < TWO32
    ensures hi !in live
    ensures hi + total < TWO32 && total > 0 ==> Partition(live[hi := total], free, hi + total)
    ensures hi + total >= TWO32 ==> !Partition(live[hi := total], free, (hi + total) % TWO32)
  {
    var b := Block(hi, total);
    var before := Held(live) + Elems(free);
    assert forall a :: a in live ==> Block(a, live[a]) in before;
    HeldAdd(live, b);
    var after := Held(live[hi := total]) + Elems(free);
    assert after == before + {b};
    if hi + total < TWO32 && total > 0 {
      BumpTiles(before, hi, total);
      assert b !in before;
    } else if hi + total >= TWO32 {
      assert b in after && (hi + total) % TWO32 < b.End();
    }
  }

  lemma NoRun(total: nat)
    ensures !RunFits({}, total)
  {
    forall run: seq<Block>, lo: nat, hi: nat
      ensures !IsRun(run, {}, lo, hi)
    {
      assert run != [] ==> run[0] in run;
    }
  }

  /** A request for 2^32 - 26 bytes in a fresh arena of 4096 bytes is granted a block of 0 bytes: its total wraps. */
  method WrappedRequest() returns (arena: StrandArena, ptr: Option<nat>)
    ensures arena.capacity == 4096 && ptr == Some(HEADER) && arena.live == map[0 := 0]
  {
    arena := new StrandArena(4096);
    assert TotalFor(0xFFFF_FFE6) == 0;
    NoRun(0);
    ptr := arena.Alloc(0xFFFF_FFE6);
  }
}
