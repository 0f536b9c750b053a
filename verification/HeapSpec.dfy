/**
 suba_alloc and suba_free as functions on tilings, whole runs of them, and what
 every run keeps.
 */
module HeapSpec {
  import opened Options
  import opened HeapTiling

  datatype Heap = Heap(
    blocks: seq<Block>,
    mincell: nat,
    end: nat,
    allocatedSize: nat,
    allocatedCount: nat,
    allocatedPeak: nat
  )

  ghost predicate Valid(h: Heap) {
    && WellFormed(h.blocks, h.end)
    && h.mincell % 8 == 0 && 8 <= h.mincell
    && h.allocatedSize == LiveSize(h.blocks)
    && h.allocatedCount == |Live(h.blocks)|
    && h.allocatedSize <= h.allocatedPeak
  }

  ghost function Init(size: nat, mincell: nat): Heap
    requires HDRSIZ + POFF + REFSIZ <= size
  {
    Heap([Block(HDRSIZ, size - (HDRSIZ + POFF), true)], if mincell > 8 then Align(mincell) else 8, size, 0, 0, 0)
  }

  /** The first free block that holds the request, in address order. */
  ghost function FirstFit(b: seq<Block>, req: nat): nat {
    if b == [] then 0 else if b[0].free && req <= b[0].size then 0 else 1 + FirstFit(b[1..], req)
  }

  /** The blocks after taking request bytes out of block i, and the live block obtained. */
  ghost function Split(b: seq<Block>, i: nat, req: nat): seq<Block>
    requires i < |b| && POFF + req <= b[i].size
  {
    b[..i]
    + [Block(b[i].off, req, false), Block(b[i].off + POFF + req, b[i].size - (req + POFF), true)]
    + b[i + 1..]
  }

  ghost function TakeWhole(b: seq<Block>, i: nat): seq<Block>
    requires i < |b|
  {
    b[..i] + [b[i].(free := false)] + b[i + 1..]
  }

  ghost function Carve(b: seq<Block>, mincell: nat, req: nat): Option<seq<Block>> {
    var i := FirstFit(b, req);
    if i >= |b| then None
    else if b[i].size > POFF + req + mincell then Some(Split(b, i, req))
    else if i == |b| - 1 then None
    else Some(TakeWhole(b, i))
  }

  ghost function Max(a: nat, b: nat): nat {
    if a < b then b else a
  }

  /** The heap after a request for n bytes, and the live block that serves it. */
  ghost function Alloc(h: Heap, n: nat): (Heap, Option<Block>) {
    var req := Request(h.mincell, n);
    var i := FirstFit(h.blocks, req);
    match Carve(h.blocks, h.mincell, req)
    case None => (h, None)
    case Some(b) =>
      var size := if h.blocks[i].size > POFF + req + h.mincell then req else h.blocks[i].size;
      (h.(blocks := b,
          allocatedSize := h.allocatedSize + POFF + size,
          allocatedCount := h.allocatedCount + 1,
          allocatedPeak := Max(h.allocatedPeak, h.allocatedSize + POFF + size)),
       Some(Block(h.blocks[i].off, size, false)))
  }

  // ---- allocation ----------------------------------------------------------

  lemma {:induction false} FirstFitIs(b: seq<Block>, req: nat)
    ensures FirstFit(b, req) <= |b|
    ensures FirstFit(b, req) < |b| ==> b[FirstFit(b, req)].free && req <= b[FirstFit(b, req)].size
    ensures forall j :: 0 <= j < FirstFit(b, req) ==> !(b[j].free && req <= b[j].size)
  {
    if b != [] && !(b[0].free && req <= b[0].size) {
      FirstFitIs(b[1..], req);
      forall j | 0 <= j < FirstFit(b, req)
        ensures !(b[j].free && req <= b[j].size)
      {
        assert j > 0 ==> b[j] == b[1..][j - 1];
      }
    }
  }

  lemma {:induction false} LiveMember(b: seq<Block>, i: nat)
    requires i < |b| && !b[i].free
    ensures b[i] in Live(b)
    ensures 0 < |Live(b)|
    ensures POFF + b[i].size <= LiveSize(b)
  {
    assert b[i] in Live(b);
    assert |Live(b)| >= |{b[i]}| by {
      SubsetSize({b[i]}, Live(b));
    }
    assert b == b[..i] + ([b[i]] + b[i + 1..]);
    SizesConcat(b[..i], [b[i]] + b[i + 1..]);
  }

  lemma {:induction false} SubsetSize<T>(a: set<T>, b: set<T>)
    requires a <= b
    ensures |a| <= |b|
  {
    assert b == a + (b - a);
  }

  lemma Decompose(b: seq<Block>, i: nat)
    requires i < |b|
    ensures b == b[..i] + [b[i]] + b[i + 1..]
  {
  }

  lemma PairParts(x: Block, y: Block)
    requires !x.free && y.free
    ensures Live([x, y]) == {x} && LiveSize([x, y]) == POFF + x.size && FreeOffs([x, y]) == [y.off]
  {
    assert [x, y] == [x] + [y] + [];
    Parts([x], [y], []);
    LiveOne(x);
    LiveOne(y);
  }

  /** Splitting makes exactly the carved block live. */
  lemma SplitLive(b: seq<Block>, i: nat, req: nat)
    requires i < |b| && b[i].free && POFF + req <= b[i].size
    ensures Live(Split(b, i, req)) == Live(b) + {Block(b[i].off, req, false)}
  {
    hide Live, FreeOffs, FreeSize, LiveSize;
    var x, y := Block(b[i].off, req, false), Block(b[i].off + POFF + req, b[i].size - (req + POFF), true);
    Decompose(b, i);
    Parts(b[..i], [b[i]], b[i + 1..]);
    Parts(b[..i], [x, y], b[i + 1..]);
    PairParts(x, y);
    LiveOne(b[i]);
  }

  /** Splitting puts the remainder in the carved cell's place in the free list. */
  lemma SplitList(b: seq<Block>, i: nat, req: nat)
    requires i < |b| && b[i].free && POFF + req <= b[i].size
    ensures LiveSize(Split(b, i, req)) == LiveSize(b) + POFF + req
    ensures FreeOffs(Split(b, i, req)) == FreeOffs(b[..i]) + [b[i].off + POFF + req] + FreeOffs(b[i + 1..])
  {
    hide Live, FreeOffs, FreeSize, LiveSize;
    var x, y := Block(b[i].off, req, false), Block(b[i].off + POFF + req, b[i].size - (req + POFF), true);
    Decompose(b, i);
    Parts(b[..i], [b[i]], b[i + 1..]);
    Parts(b[..i], [x, y], b[i + 1..]);
    PairParts(x, y);
    LiveOne(b[i]);
    assert Split(b, i, req) == b[..i] + [x, y] + b[i + 1..];
  }

  lemma WholeLive(b: seq<Block>, i: nat)
    requires i < |b| && b[i].free
    ensures Live(TakeWhole(b, i)) == Live(b) + {b[i].(free := false)}
  {
    hide Live, FreeOffs, FreeSize, LiveSize;
    var x := b[i].(free := false);
    Decompose(b, i);
    Parts(b[..i], [b[i]], b[i + 1..]);
    Parts(b[..i], [x], b[i + 1..]);
    LiveOne(x);
    LiveOne(b[i]);
  }

  lemma WholeList(b: seq<Block>, i: nat)
    requires i < |b| && b[i].free
    ensures LiveSize(TakeWhole(b, i)) == LiveSize(b) + POFF + b[i].size
    ensures FreeOffs(TakeWhole(b, i)) == FreeOffs(b[..i]) + FreeOffs(b[i + 1..])
  {
    hide Live, FreeOffs, FreeSize, LiveSize;
    var x := b[i].(free := false);
    Decompose(b, i);
    Parts(b[..i], [b[i]], b[i + 1..]);
    Parts(b[..i], [x], b[i + 1..]);
    LiveOne(x);
    LiveOne(b[i]);
  }

  lemma FreeListAt(b: seq<Block>, i: nat)
    requires i < |b| && b[i].free
    ensures FreeOffs(b) == FreeOffs(b[..i]) + [b[i].off] + FreeOffs(b[i + 1..])
  {
    hide Live, FreeOffs, FreeSize, LiveSize;
    Decompose(b, i);
    Parts(b[..i], [b[i]], b[i + 1..]);
    LiveOne(b[i]);
  }

  /** A live block never starts where a free one does. */
  lemma OffsetsDiffer(b: seq<Block>, i: nat, x: Block, lo: nat, hi: nat)
    requires Tiles(b, lo, hi) && i < |b| && b[i].free && x in Live(b)
    ensures x.off != b[i].off
  {
    TilesAll(b, lo, hi);
    var k :| 0 <= k < |b| && b[k] == x;
    assert k < i || i < k;
  }

  lemma SplitTiles(b: seq<Block>, i: nat, req: nat, hi: nat)
    requires Tiles(b, HDRSIZ, hi) && i < |b| && POFF + req <= b[i].size
    ensures Tiles(Split(b, i, req), HDRSIZ, hi)
  {
    var x, y := Block(b[i].off, req, false), Block(b[i].off + POFF + req, b[i].size - (req + POFF), true);
    assert b == b[..i] + [b[i]] + b[i + 1..];
    assert Tiles([x, y], x.off, y.End()) by {
      assert [x, y][1..] == [y];
      assert [y][1..] == [];
    }
    TilesReplace(b[..i], [b[i]], [x, y], b[i + 1..], HDRSIZ, hi);
  }

  lemma SplitWellFormed(b: seq<Block>, i: nat, req: nat, mincell: nat, hi: nat)
    requires WellFormed(b, hi) && i < |b| && b[i].free && req % 8 == 0 && 8 <= req && 8 <= mincell
    requires b[i].size > POFF + req + mincell
    ensures WellFormed(Split(b, i, req), hi)
  {
    SplitTiles(b, i, req, hi);
    var s := Split(b, i, req);
    assert forall k :: 0 <= k < i ==> s[k] == b[k];
    assert forall k :: i + 2 <= k < |s| ==> s[k] == b[k - 1];
    forall k | 0 <= k < |s| - 1
      ensures Separated(s, k)
    {
      if k < i - 1 {
        assert Separated(b, k);
      } else if k > i {
        assert Separated(b, k - 1);
      }
    }
  }

  lemma WholeWellFormed(b: seq<Block>, i: nat, hi: nat)
    requires WellFormed(b, hi) && i < |b| - 1 && b[i].free
    ensures WellFormed(TakeWhole(b, i), hi)
  {
    var x := b[i].(free := false);
    assert b == b[..i] + [b[i]] + b[i + 1..];
    assert Tiles([x], x.off, x.End()) by {
      assert [x][1..] == [];
    }
    TilesReplace(b[..i], [b[i]], [x], b[i + 1..], HDRSIZ, hi);
    var s := TakeWhole(b, i);
    assert s == b[i := x];
    forall k | 0 <= k < |s| - 1
      ensures Separated(s, k)
    {
      assert Separated(b, k);
    }
  }

  /** Some free cell other than the last holds the request, or the last has room to spare. */
  ghost predicate Fits(b: seq<Block>, mincell: nat, req: nat)
    requires b != []
  {
    || (exists i :: 0 <= i < |b| - 1 && b[i].free && req <= b[i].size)
    || b[|b| - 1].size > POFF + req + mincell
  }

  /** Allocation succeeds if and only if the request fits, and otherwise changes nothing. */
  lemma AllocSucceedsIff(h: Heap, n: nat, req: nat)
    requires Valid(h) && Least(n, h.mincell, req)
    ensures Alloc(h, n).1.Some? <==> Fits(h.blocks, h.mincell, req)
    ensures Alloc(h, n).1 == None ==> Alloc(h, n).0 == h
  {
    RequestIs(h.mincell, n, req);
    var b := h.blocks;
    var i := FirstFit(b, req);
    FirstFitIs(b, req);
    if i >= |b| || b[i].size > POFF + req + h.mincell {
    } else if i == |b| - 1 {
      assert Carve(b, h.mincell, req) == None;
    } else {
      assert b[i].free && req <= b[i].size;
    }
  }

  /** A request for n bytes is served exactly when its rounded size fits. */
  ghost predicate Served(h: Heap, n: nat, served: bool)
    requires h.blocks != []
  {
    forall req :: Least(n, h.mincell, req) ==> (served <==> Fits(h.blocks, h.mincell, req))
  }

  lemma AllocServed(h: Heap, n: nat)
    requires Valid(h)
    ensures Served(h, n, Alloc(h, n).1.Some?)
  {
    hide Alloc, Fits, Least;
    forall req | Least(n, h.mincell, req)
      ensures Alloc(h, n).1.Some? <==> Fits(h.blocks, h.mincell, req)
    {
      AllocSucceedsIff(h, n, req);
    }
  }

  lemma ServedIff(h: Heap, n: nat)
    requires Valid(h)
    ensures Served(h, n, true) <==> Alloc(h, n).1.Some?
  {
    hide Alloc, Fits;
    AllocServed(h, n);
    RequestIs(h.mincell, n, Request(h.mincell, n));
  }

  lemma AllocValid(h: Heap, n: nat)
    requires Valid(h)
    ensures Valid(Alloc(h, n).0)
    ensures Alloc(h, n).1.Some? ==> Live(Alloc(h, n).0.blocks) == Live(h.blocks) + {Alloc(h, n).1.value}
    ensures Alloc(h, n).1.Some? ==> forall y :: y in Live(h.blocks) ==> y.off != Alloc(h, n).1.value.off
  {
    hide Live, FreeOffs, FreeSize, LiveSize;
    var req, b := Request(h.mincell, n), h.blocks;
    var i := FirstFit(b, req);
    FirstFitIs(b, req);
    if Alloc(h, n).1.Some? {
      forall y | y in Live(b)
        ensures y.off != b[i].off
      {
        OffsetsDiffer(b, i, y, HDRSIZ, h.end);
      }
      if b[i].size > POFF + req + h.mincell {
        SplitLive(b, i, req);
        SplitList(b, i, req);
        SplitWellFormed(b, i, req, h.mincell, h.end);
      } else {
        WholeLive(b, i);
        WholeList(b, i);
        WholeWellFormed(b, i, h.end);
      }
    }
  }

  /** x is what a request of req bytes takes of the free cell c. */
  predicate TakenFrom(c: Block, mincell: nat, req: nat, x: Block) {
    c.free && c.off == x.off && req <= c.size && x.size == if c.size > POFF + req + mincell then req else c.size
  }

  /**
   The block a request gets, whose rounded size is req: the whole of the lowest-addressed
   free cell that holds the request, or its first req bytes when the rest makes a cell;
   aligned, at least as large as asked for, with at most POFF + mincell bytes wasted.
   */
  lemma AllocTakesFirstFit(h: Heap, n: nat, req: nat)
    requires Valid(h) && Alloc(h, n).1.Some? && Least(n, h.mincell, req)
    ensures var x := Alloc(h, n).1.value;
            && n <= req <= x.size <= req + POFF + h.mincell
            && (x.off + POFF) % 8 == 0 && !x.free
            && (exists c :: c in h.blocks && TakenFrom(c, h.mincell, req, x))
            && (forall c :: c in h.blocks && c.free && req <= c.size ==> x.off <= c.off)
  {
    RequestIs(h.mincell, n, req);
    var (x, b) := (Alloc(h, n).1.value, h.blocks);
    var i := FirstFit(b, req);
    FirstFitIs(b, req);
    assert b[i] in b && TakenFrom(b[i], h.mincell, req, x);
    forall c | c in b && c.free && req <= c.size
      ensures x.off <= c.off
    {
      TilesAll(b, HDRSIZ, h.end);
      var k :| 0 <= k < |b| && b[k] == c;
      assert i <= k;
    }
  }

  // ---- freeing ---------------------------------------------------------------

  ghost function MergeLo(b: seq<Block>, i: nat): nat
    requires i < |b|
  {
    if i > 0 && b[i - 1].free then i - 1 else i
  }

  ghost function MergeHi(b: seq<Block>, i: nat): nat
    requires i < |b|
  {
    if i + 1 < |b| && b[i + 1].free then i + 2 else i + 1
  }

  /** The payload of one cell spanning all of b. */
  ghost function SpanSize(b: seq<Block>): nat {
    if |b| == 0 then 0 else if |b| == 1 then b[0].size else b[0].size + POFF + SpanSize(b[1..])
  }

  ghost function Merged(b: seq<Block>, i: nat): Block
    requires i < |b|
  {
    Block(b[MergeLo(b, i)].off, SpanSize(b[MergeLo(b, i)..MergeHi(b, i)]), true)
  }

  /** The block at i becomes free and joins its free neighbours. */
  ghost function Merge(b: seq<Block>, i: nat): seq<Block>
    requires i < |b|
  {
    b[..MergeLo(b, i)] + [Merged(b, i)] + b[MergeHi(b, i)..]
  }

  ghost function Free(h: Heap, i: nat): Heap
    requires i < |h.blocks| && !h.blocks[i].free
  {
    h.(blocks := Merge(h.blocks, i),
       allocatedSize := if h.allocatedSize < POFF + h.blocks[i].size then 0 else h.allocatedSize - (POFF + h.blocks[i].size),
       allocatedCount := if h.allocatedCount == 0 then 0 else h.allocatedCount - 1)
  }

  lemma {:induction false} SpanCovers(b: seq<Block>, lo: nat, hi: nat)
    requires Tiles(b, lo, hi) && b != []
    ensures Block(lo, SpanSize(b), true).End() == hi
  {
    if |b| > 1 {
      SpanCovers(b[1..], b[0].End(), hi);
    }
  }

  /** The run of cells that a freed block joins: all free but the block itself. */
  lemma MergeRun(b: seq<Block>, i: nat)
    requires i < |b| && !b[i].free
    ensures Live(b[MergeLo(b, i)..MergeHi(b, i)]) == {b[i]}
    ensures LiveSize(b[MergeLo(b, i)..MergeHi(b, i)]) == POFF + b[i].size
    ensures FreeOffs(b[MergeLo(b, i)..MergeHi(b, i)])
         == (if MergeLo(b, i) < i then [b[i - 1].off] else []) + (if MergeHi(b, i) > i + 1 then [b[i + 1].off] else [])
  {
    hide Live, FreeOffs, LiveSize;
    LiveNone();
    var l := if MergeLo(b, i) < i then [b[i - 1]] else [];
    var r := if MergeHi(b, i) > i + 1 then [b[i + 1]] else [];
    assert b[MergeLo(b, i)..MergeHi(b, i)] == l + [b[i]] + r;
    Parts(l, [b[i]], r);
    LiveOne(b[i]);
    if l != [] {
      LiveOne(b[i - 1]);
    }
    if r != [] {
      LiveOne(b[i + 1]);
    }
  }

  lemma Regroup(b: seq<Block>, lo: nat, hi: nat)
    requires lo <= hi <= |b|
    ensures b == b[..lo] + b[lo..hi] + b[hi..]
  {
  }

  lemma MergeTiles(b: seq<Block>, i: nat, end: nat)
    requires Tiles(b, HDRSIZ, end) && i < |b|
    ensures Tiles(Merge(b, i), HDRSIZ, end)
  {
    var lo, hi := MergeLo(b, i), MergeHi(b, i);
    var m, x := b[lo..hi], Merged(b, i);
    Regroup(b, lo, hi);
    assert b == b[..lo] + (m + b[hi..]);
    TilesSplit(b[..lo], m + b[hi..], HDRSIZ, end);
    TilesSplit(m, b[hi..], m[0].off, end);
    var mid := if hi == |b| then end else b[hi].off;
    TilesEnd(m, m[0].off, mid);
    SpanCovers(m, m[0].off, mid);
    assert Tiles([x], x.off, x.End()) by {
      assert [x][1..] == [];
    }
    TilesReplace(b[..lo], m, [x], b[hi..], HDRSIZ, end);
  }

  lemma MergeSeparated(b: seq<Block>, i: nat)
    requires NoFreeNeighbours(b) && i < |b| && !b[i].free
    ensures NoFreeNeighbours(Merge(b, i))
  {
    hide SpanSize;
    var lo, hi, s := MergeLo(b, i), MergeHi(b, i), Merge(b, i);
    assert forall k :: 0 <= k < lo ==> s[k] == b[k];
    assert forall k :: lo < k < |s| ==> s[k] == b[k - lo - 1 + hi];
    forall k | 0 <= k < |s| - 1
      ensures Separated(s, k)
    {
      if k < lo {
        assert Separated(b, k);
      } else if k > lo {
        assert Separated(b, k - lo - 1 + hi);
      } else {
        assert hi < |b| ==> Separated(b, hi - 1);
      }
    }
  }

  lemma MergeSized(b: seq<Block>, i: nat)
    requires Sized(b) && i < |b| && !b[i].free
    ensures Sized(Merge(b, i))
  {
    var lo, hi, s := MergeLo(b, i), MergeHi(b, i), Merge(b, i);
    assert REFSIZ <= SpanSize(b[lo..hi]);
    hide SpanSize;
    assert forall k :: 0 <= k < lo ==> s[k] == b[k];
    assert forall k :: lo < k < |s| ==> s[k] == b[k - lo - 1 + hi];
  }

  lemma MergeWellFormed(b: seq<Block>, i: nat, end: nat)
    requires WellFormed(b, end) && i < |b| && !b[i].free
    ensures WellFormed(Merge(b, i), end)
  {
    hide Tiles, NoFreeNeighbours, Sized, SpanSize;
    MergeTiles(b, i, end);
    MergeSeparated(b, i);
    MergeSized(b, i);
  }

  /** Merging takes one block out of the live ones and leaves one list entry for the run. */
  lemma MergeLive(b: seq<Block>, i: nat, end: nat)
    requires Tiles(b, HDRSIZ, end) && i < |b| && !b[i].free
    ensures Live(Merge(b, i)) == Live(b) - {b[i]}
  {
    var lo, hi := MergeLo(b, i), MergeHi(b, i);
    var a, c := b[..lo], b[hi..];
    assert b[i] !in Live(a) && b[i] !in Live(c) by {
      TilesAll(b, HDRSIZ, end);
    }
    hide Live, FreeOffs, FreeSize, LiveSize;
    Regroup(b, lo, hi);
    MergeRun(b, i);
    Parts(a, b[lo..hi], c);
    Parts(a, [Merged(b, i)], c);
    LiveOne(Merged(b, i));
  }

  lemma MergeList(b: seq<Block>, i: nat)
    requires i < |b| && !b[i].free
    ensures LiveSize(Merge(b, i)) + POFF + b[i].size == LiveSize(b)
    ensures FreeOffs(Merge(b, i)) == FreeOffs(b[..MergeLo(b, i)]) + [b[MergeLo(b, i)].off] + FreeOffs(b[MergeHi(b, i)..])
    ensures FreeOffs(b) == FreeOffs(b[..MergeLo(b, i)]) + FreeOffs(b[MergeLo(b, i)..MergeHi(b, i)]) + FreeOffs(b[MergeHi(b, i)..])
  {
    hide Live, FreeOffs, FreeSize, LiveSize;
    var lo, hi := MergeLo(b, i), MergeHi(b, i);
    var a, c := b[..lo], b[hi..];
    Regroup(b, lo, hi);
    MergeRun(b, i);
    Parts(a, b[lo..hi], c);
    Parts(a, [Merged(b, i)], c);
    LiveOne(Merged(b, i));
  }

  /** Freeing removes the one block from the live ones and keeps every invariant. */
  lemma FreeExact(h: Heap, i: nat)
    requires Valid(h) && i < |h.blocks| && !h.blocks[i].free
    ensures Valid(Free(h, i))
    ensures Live(Free(h, i).blocks) == Live(h.blocks) - {h.blocks[i]}
    ensures Free(h, i).allocatedSize + POFF + h.blocks[i].size == h.allocatedSize
    ensures Free(h, i).allocatedCount + 1 == h.allocatedCount
  {
    LiveMember(h.blocks, i);
    MergeWellFormed(h.blocks, i, h.end);
    MergeLive(h.blocks, i, h.end);
    MergeList(h.blocks, i);
  }

  /** The tail cell ends the chunk, so a live block always lies below it. */
  lemma LiveBelowTail(h: Heap, x: Block)
    requires Valid(h) && x in Live(h.blocks)
    ensures var tail := h.blocks[|h.blocks| - 1];
            tail.End() == h.end && x.End() <= tail.off
  {
    TilesAll(h.blocks, HDRSIZ, h.end);
    var k :| 0 <= k < |h.blocks| && h.blocks[k] == x;
    assert k < |h.blocks| - 1;
  }

  ghost function IndexOf(b: seq<Block>, x: Block): (i: nat)
    requires x in b
    ensures i < |b| && b[i] == x
  {
    if b[0] == x then 0 else 1 + IndexOf(b[1..], x)
  }

  /** Freeing the block that was just allocated restores the previous blocks and free list. */
  lemma AllocThenFree(h: Heap, n: nat)
    requires Valid(h) && Alloc(h, n).1.Some?
    ensures var (h', x) := (Alloc(h, n).0, Alloc(h, n).1.value);
            x in Live(h'.blocks) && Free(h', IndexOf(h'.blocks, x)).blocks == h.blocks
  {
    var (h', x) := (Alloc(h, n).0, Alloc(h, n).1.value);
    AllocValid(h, n);
    assert x in Live(h'.blocks);
    FreeExact(h', IndexOf(h'.blocks, x));
    Canonical(Free(h', IndexOf(h'.blocks, x)).blocks, h.blocks, HDRSIZ, h.end);
  }

  // ---- runs ------------------------------------------------------------------

  datatype Op = Malloc(n: nat) | Release(x: Block)

  /** The caller obligation: only live blocks are released. */
  ghost predicate Legal(h: Heap, op: Op) {
    op.Release? ==> op.x in Live(h.blocks)
  }

  ghost function Apply(h: Heap, op: Op): Heap
    requires Legal(h, op)
  {
    match op
    case Malloc(n) => Alloc(h, n).0
    case Release(x) => Free(h, IndexOf(h.blocks, x))
  }

  /** hs[0] is a fresh heap and each later one comes from its predecessor by one legal call. */
  ghost predicate Run(hs: seq<Heap>, ops: seq<Op>, size: nat, mincell: nat) {
    && HDRSIZ + POFF + REFSIZ <= size
    && |hs| == |ops| + 1
    && hs[0] == Init(size, mincell)
    && forall i :: 0 <= i < |ops| ==> Legal(hs[i], ops[i]) && hs[i + 1] == Apply(hs[i], ops[i])
  }

  lemma InitValid(size: nat, mincell: nat)
    requires HDRSIZ + POFF + REFSIZ <= size
    ensures Valid(Init(size, mincell)) && Live(Init(size, mincell).blocks) == {}
    ensures FreeOffs(Init(size, mincell).blocks) == [HDRSIZ] && FreeSize(Init(size, mincell).blocks) == size - HDRSIZ - POFF
    ensures Least(8, mincell, Init(size, mincell).mincell)
  {
    var x := Block(HDRSIZ, size - (HDRSIZ + POFF), true);
    LiveOne(x);
    assert Tiles([x], HDRSIZ, size) by {
      assert [x][1..] == [];
    }
  }

  lemma ApplyValid(h: Heap, op: Op)
    requires Valid(h) && Legal(h, op)
    ensures Valid(Apply(h, op)) && Apply(h, op).end == h.end && Apply(h, op).mincell == h.mincell
    ensures Apply(h, op).allocatedPeak == Max(h.allocatedPeak, Apply(h, op).allocatedSize)
  {
    match op
    case Malloc(n) => AllocValid(h, n);
    case Release(x) => FreeExact(h, IndexOf(h.blocks, x));
  }

  ghost predicate Peak(hs: seq<Heap>, i: nat)
    requires i < |hs|
  {
    && (forall j :: 0 <= j <= i ==> hs[j].allocatedSize <= hs[i].allocatedPeak)
    && (exists j :: 0 <= j <= i && hs[j].allocatedSize == hs[i].allocatedPeak)
  }

  /**
   In every run of calls, at every moment: the heap is well formed, the free and live
   bytes account for the whole chunk, and allocated_peak is the largest allocated_size
   so far.
   */
  lemma {:induction false} RunInvariant(hs: seq<Heap>, ops: seq<Op>, size: nat, mincell: nat, i: nat)
    requires Run(hs, ops, size, mincell) && i < |hs|
    ensures Valid(hs[i]) && hs[i].end == size && Least(8, mincell, hs[i].mincell)
    ensures FreeSize(hs[i].blocks) + POFF * |FreeOffs(hs[i].blocks)| + hs[i].allocatedSize == size - HDRSIZ
    ensures Peak(hs, i)
  {
    if i == 0 {
      InitValid(size, mincell);
    } else {
      RunInvariant(hs, ops, size, mincell, i - 1);
      ApplyValid(hs[i - 1], ops[i - 1]);
    }
    Conservation(hs[i].blocks, HDRSIZ, size);
  }

  /** Whenever nothing is live, in whatever order it was freed, the heap is as it was made. */
  lemma RunEmpty(hs: seq<Heap>, ops: seq<Op>, size: nat, mincell: nat, i: nat)
    requires Run(hs, ops, size, mincell) && i < |hs| && Live(hs[i].blocks) == {}
    ensures hs[i].blocks == hs[0].blocks && hs[i].allocatedSize == 0 && hs[i].allocatedCount == 0
  {
    RunInvariant(hs, ops, size, mincell, i);
    InitValid(size, mincell);
    Canonical(hs[i].blocks, hs[0].blocks, HDRSIZ, size);
  }

  /** Any two moments of any two runs with the same live blocks have the same free list. */
  lemma RunsAgree(hs: seq<Heap>, ops: seq<Op>, i: nat, gs: seq<Heap>, ps: seq<Op>, j: nat, size: nat, mincell: nat)
    requires Run(hs, ops, size, mincell) && i < |hs|
    requires Run(gs, ps, size, mincell) && j < |gs|
    requires Live(hs[i].blocks) == Live(gs[j].blocks)
    ensures hs[i].blocks == gs[j].blocks
  {
    RunInvariant(hs, ops, size, mincell, i);
    RunInvariant(gs, ps, size, mincell, j);
    Canonical(hs[i].blocks, gs[j].blocks, HDRSIZ, size);
  }
}
