/**
 The suba heap without its pointers: the chunk of memory seen as a sequence of
 adjacent blocks, some live and some free.  Suba.dfy proves that the in-place
 linked list computes exactly the functions defined here.
 */
module HeapTiling {
  /** Distance from a cell to its payload: the payload starts at the "next" field. */
  const POFF: nat := 8
  /** The allocator record at the start of the chunk, rounded up. */
  const HDRSIZ: nat := 40
  /** Bytes taken by one reference. */
  const REFSIZ: nat := 4

  function Align(n: nat): nat {
    (n + 7) / 8 * 8
  }

  function Request(mincell: nat, n: nat): nat {
    if n < mincell then mincell else Align(n)
  }

  /** r is the least multiple of 8 that is at least n and at least mincell. */
  ghost predicate Least(n: nat, mincell: nat, r: nat) {
    r % 8 == 0 && n <= r && mincell <= r && (r < n + 8 || r < mincell + 8)
  }

  /** The bytes that a request is rounded up to. */
  lemma RequestIs(mincell: nat, n: nat, r: nat)
    requires mincell % 8 == 0
    ensures Least(n, mincell, r) <==> r == Request(mincell, n)
  {
  }

  lemma LeastIsLeast(n: nat, mincell: nat, r: nat, x: nat)
    requires Least(n, mincell, r) && x % 8 == 0 && n <= x && mincell <= x
    ensures r <= x
  {
  }

  datatype Block = Block(off: nat, size: nat, free: bool) {
    function End(): nat {
      off + POFF + size
    }
  }

  // ---- shape -------------------------------------------------------------

  ghost predicate Tiles(b: seq<Block>, lo: nat, hi: nat) {
    if b == [] then lo == hi else b[0].off == lo && Tiles(b[1..], b[0].End(), hi)
  }

  /** Blocks i and i + 1 are not both free. */
  ghost predicate Separated(b: seq<Block>, i: nat)
    requires i + 1 < |b|
  {
    !(b[i].free && b[i + 1].free)
  }

  ghost predicate NoFreeNeighbours(b: seq<Block>) {
    forall i :: 0 <= i < |b| - 1 ==> Separated(b, i)
  }

  /** Every cell can hold its list reference; every cell but the last is aligned. */
  ghost predicate Sized(b: seq<Block>) {
    && (forall i :: 0 <= i < |b| ==> b[i].off % 8 == 0)
    && (forall i :: 0 <= i < |b| ==> REFSIZ <= b[i].size)
  }

  ghost predicate WellFormed(b: seq<Block>, hi: nat) {
    && Tiles(b, HDRSIZ, hi)
    && NoFreeNeighbours(b)
    && Sized(b)
    && b != []
    && b[|b| - 1].free
  }

  ghost function Live(b: seq<Block>): set<Block> {
    set x | x in b && !x.free
  }

  /** The free list in address order; its last element is the tail. */
  ghost function FreeOffs(b: seq<Block>): seq<nat> {
    if b == [] then [] else (if b[0].free then [b[0].off] else []) + FreeOffs(b[1..])
  }

  ghost function FreeSize(b: seq<Block>): nat {
    if b == [] then 0 else (if b[0].free then b[0].size else 0) + FreeSize(b[1..])
  }

  ghost function LiveSize(b: seq<Block>): nat {
    if b == [] then 0 else (if b[0].free then 0 else POFF + b[0].size) + LiveSize(b[1..])
  }

  // ---- lemmas about tilings ----------------------------------------------

  lemma {:induction false} TilesSplit(a: seq<Block>, b: seq<Block>, lo: nat, hi: nat)
    requires Tiles(a + b, lo, hi)
    ensures Tiles(a, lo, if b == [] then hi else b[0].off)
    ensures Tiles(b, if b == [] then hi else b[0].off, hi)
  {
    if a == [] {
      assert a + b == b;
    } else {
      assert (a + b)[1..] == a[1..] + b;
      TilesSplit(a[1..], b, a[0].End(), hi);
    }
  }

  lemma {:induction false} TilesJoin(a: seq<Block>, b: seq<Block>, lo: nat, mid: nat, hi: nat)
    requires Tiles(a, lo, mid) && Tiles(b, mid, hi)
    ensures Tiles(a + b, lo, hi)
  {
    if a == [] {
      assert a + b == b;
    } else {
      assert (a + b)[1..] == a[1..] + b;
      TilesJoin(a[1..], b, a[0].End(), mid, hi);
    }
  }

  /** Replacing a run of blocks by another run over the same addresses keeps the tiling. */
  lemma TilesReplace(a: seq<Block>, m: seq<Block>, m': seq<Block>, c: seq<Block>, lo: nat, hi: nat)
    requires Tiles(a + m + c, lo, hi)
    requires m != [] && m' != [] && m'[0].off == m[0].off && m'[|m'| - 1].End() == m[|m| - 1].End()
    requires Tiles(m', m'[0].off, m'[|m'| - 1].End())
    ensures Tiles(a + m' + c, lo, hi)
  {
    assert a + m + c == a + (m + c);
    TilesSplit(a, m + c, lo, hi);
    TilesSplit(m, c, m[0].off, hi);
    var mid := if c == [] then hi else c[0].off;
    TilesEnd(m, m[0].off, mid);
    TilesJoin(m', c, m'[0].off, mid, hi);
    TilesJoin(a, m' + c, lo, m[0].off, hi);
    assert a + m' + c == a + (m' + c);
  }

  lemma {:induction false} TilesEnd(b: seq<Block>, lo: nat, hi: nat)
    requires Tiles(b, lo, hi) && b != []
    ensures b[|b| - 1].End() == hi
  {
    if |b| > 1 {
      TilesEnd(b[1..], b[0].End(), hi);
    }
  }

  /** Blocks lie inside the chunk and each one starts where its predecessor ends. */
  lemma {:induction false} TilesAt(b: seq<Block>, lo: nat, hi: nat, i: nat)
    requires Tiles(b, lo, hi) && i < |b|
    ensures lo <= b[i].off && b[i].End() <= hi
    ensures i + 1 < |b| ==> b[i + 1].off == b[i].End()
    ensures i + 1 == |b| ==> b[i].End() == hi
  {
    if i > 0 {
      TilesAt(b[1..], b[0].End(), hi, i - 1);
    } else {
      TilesHi(b[1..], b[0].End(), hi);
    }
  }

  lemma {:induction false} TilesHi(b: seq<Block>, lo: nat, hi: nat)
    requires Tiles(b, lo, hi)
    ensures lo <= hi
  {
    if b != [] {
      TilesHi(b[1..], b[0].End(), hi);
    }
  }

  /** Blocks are disjoint and in address order. */
  lemma {:induction false} TilesOrdered(b: seq<Block>, lo: nat, hi: nat, i: nat, j: nat)
    requires Tiles(b, lo, hi) && i < j < |b|
    ensures b[i].End() <= b[j].off
    decreases j - i
  {
    TilesAt(b, lo, hi, i);
    if i + 1 < j {
      TilesAt(b, lo, hi, i + 1);
      TilesOrdered(b, lo, hi, i + 1, j);
    }
  }

  lemma TilesAll(b: seq<Block>, lo: nat, hi: nat)
    requires Tiles(b, lo, hi)
    ensures forall i :: 0 <= i < |b| ==> lo <= b[i].off && b[i].End() <= hi
    ensures forall i, j :: 0 <= i < j < |b| ==> b[i].End() <= b[j].off
    ensures b != [] ==> b[0].off == lo && b[|b| - 1].End() == hi
  {
    forall i | 0 <= i < |b|
      ensures lo <= b[i].off && b[i].End() <= hi
    {
      TilesAt(b, lo, hi, i);
    }
    if b != [] {
      TilesEnd(b, lo, hi);
    }
    forall i, j | 0 <= i < j < |b|
      ensures b[i].End() <= b[j].off
    {
      TilesOrdered(b, lo, hi, i, j);
    }
  }

  lemma {:induction false} FreeOffsConcat(a: seq<Block>, b: seq<Block>)
    ensures FreeOffs(a + b) == FreeOffs(a) + FreeOffs(b)
  {
    if a == [] {
      assert a + b == b;
    } else {
      var x := if a[0].free then [a[0].off] else [];
      assert (a + b)[0] == a[0] && (a + b)[1..] == a[1..] + b;
      FreeOffsConcat(a[1..], b);
      assert x + (FreeOffs(a[1..]) + FreeOffs(b)) == x + FreeOffs(a[1..]) + FreeOffs(b);
    }
  }

  lemma LiveConcat(a: seq<Block>, b: seq<Block>)
    ensures Live(a + b) == Live(a) + Live(b)
  {
    forall x
      ensures x in Live(a + b) <==> x in Live(a) + Live(b)
    {
    }
  }

  lemma LiveNone()
    ensures Live([]) == {} && FreeOffs([]) == [] && FreeSize([]) == 0 && LiveSize([]) == 0
  {
  }

  lemma LiveOne(x: Block)
    ensures Live([x]) == if x.free then {} else {x}
    ensures FreeOffs([x]) == if x.free then [x.off] else []
    ensures FreeSize([x]) == if x.free then x.size else 0
    ensures LiveSize([x]) == if x.free then 0 else POFF + x.size
  {
    assert [x][1..] == [];
  }

  lemma {:induction false} SizesConcat(a: seq<Block>, b: seq<Block>)
    ensures FreeSize(a + b) == FreeSize(a) + FreeSize(b)
    ensures LiveSize(a + b) == LiveSize(a) + LiveSize(b)
  {
    if a == [] {
      assert a + b == b;
    } else {
      assert (a + b)[1..] == a[1..] + b;
      SizesConcat(a[1..], b);
    }
  }

  /** What a tiling a + m + c says, part by part. */
  lemma Parts(a: seq<Block>, m: seq<Block>, c: seq<Block>)
    ensures Live(a + m + c) == Live(a) + Live(m) + Live(c)
    ensures FreeOffs(a + m + c) == FreeOffs(a) + FreeOffs(m) + FreeOffs(c)
    ensures FreeSize(a + m + c) == FreeSize(a) + FreeSize(m) + FreeSize(c)
    ensures LiveSize(a + m + c) == LiveSize(a) + LiveSize(m) + LiveSize(c)
  {
    LiveConcat(a + m, c);
    LiveConcat(a, m);
    FreeOffsConcat(a + m, c);
    FreeOffsConcat(a, m);
    SizesConcat(a + m, c);
    SizesConcat(a, m);
  }

  /** Free bytes, free-cell headers and live bytes add up to the chunk. */
  lemma {:induction false} Conservation(b: seq<Block>, lo: nat, hi: nat)
    requires Tiles(b, lo, hi)
    ensures lo + FreeSize(b) + POFF * |FreeOffs(b)| + LiveSize(b) == hi
  {
    if b != [] {
      Conservation(b[1..], b[0].End(), hi);
    }
  }

  /**
   The live blocks determine the whole tiling, and so the free list: two
   well-formed heaps over the same chunk with the same live blocks are equal.
   */
  lemma {:induction false} Canonical(b: seq<Block>, c: seq<Block>, lo: nat, hi: nat)
    requires Tiles(b, lo, hi) && NoFreeNeighbours(b)
    requires Tiles(c, lo, hi) && NoFreeNeighbours(c)
    requires Live(b) == Live(c)
    ensures b == c
  {
    TilesAll(b, lo, hi);
    TilesAll(c, lo, hi);
    if b == [] || c == [] {
      TilesHi(b, lo, hi);
      TilesHi(c, lo, hi);
    } else {
      SameFirst(b, c, lo, hi);
      assert Live(b[1..]) == Live(c[1..]) by {
        LiveTail(b, lo, hi);
        LiveTail(c, lo, hi);
      }
      TailSeparated(b);
      TailSeparated(c);
      Canonical(b[1..], c[1..], b[0].End(), hi);
      assert b == [b[0]] + b[1..] && c == [c[0]] + c[1..];
    }
  }

  lemma TailSeparated(b: seq<Block>)
    requires NoFreeNeighbours(b) && b != []
    ensures NoFreeNeighbours(b[1..])
  {
    forall i | 0 <= i < |b[1..]| - 1
      ensures Separated(b[1..], i)
    {
      assert Separated(b, i + 1);
    }
  }

  lemma LiveTail(b: seq<Block>, lo: nat, hi: nat)
    requires Tiles(b, lo, hi) && b != []
    ensures Live(b[1..]) == Live(b) - {b[0]}
  {
    TilesAll(b, lo, hi);
  }

  lemma SameFirst(b: seq<Block>, c: seq<Block>, lo: nat, hi: nat)
    requires Tiles(b, lo, hi) && NoFreeNeighbours(b) && b != []
    requires Tiles(c, lo, hi) && NoFreeNeighbours(c) && c != []
    requires Live(b) == Live(c)
    ensures b[0] == c[0]
  {
    TilesAll(b, lo, hi);
    TilesAll(c, lo, hi);
    if !b[0].free {
      assert b[0] in Live(c);
    } else if !c[0].free {
      assert c[0] in Live(b);
    } else {
      NextStart(b, c, lo, hi);
      NextStart(c, b, lo, hi);
    }
  }

  lemma NextStart(b: seq<Block>, c: seq<Block>, lo: nat, hi: nat)
    requires Tiles(b, lo, hi) && NoFreeNeighbours(b) && b != []
    requires Tiles(c, lo, hi) && c != []
    requires Live(b) == Live(c) && b[0].free && c[0].free
    ensures c[0].End() <= b[0].End()
  {
    TilesAll(b, lo, hi);
    TilesAll(c, lo, hi);
    if |b| > 1 {
      assert Separated(b, 0);
      TilesAt(b, lo, hi, 0);
      assert b[1] in Live(c);
    }
  }
}
