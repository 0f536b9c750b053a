/**
 The suba allocator (core/suba.c): a first-fit allocator over one chunk of memory,
 with a circular free list kept in the free cells themselves.
 */
module SubaHeap {
  import opened Options
  import opened HeapTiling
  import opened HeapSpec
  import opened HeapMemory

  class Suba {
    /** Address of the chunk. */
    const base: nat
    /** mem[a] is the word that starts a bytes into the chunk. */
    const mem: array<int>
    var tail: nat
    var mincell: nat
    const size: nat
    const maxFree: nat
    var allocatedCount: nat
    var allocatedSize: nat
    var allocatedPeak: nat

    /** The chunk as a sequence of blocks. */
    ghost var blocks: seq<Block>

    ghost function State(): Heap
      reads this
    {
      Heap(blocks, mincell, size, allocatedSize, allocatedCount, allocatedPeak)
    }

    ghost predicate Valid()
      reads this, mem
    {
      && 0 < base
      && HeapSpec.Valid(State())
      && maxFree == size == mem.Length
      && InMemory(mem[..], blocks, tail)
    }

    constructor Reset(base: nat, mem: array<int>, mincell: nat)
      requires 0 < base && HDRSIZ + POFF + REFSIZ <= mem.Length
      modifies mem
      ensures Valid() && this.base == base && this.mem == mem
      ensures State() == HeapSpec.Init(mem.Length, mincell)
      ensures Live(blocks) == {} && Least(8, mincell, this.mincell)
    {
      this.base := base;
      this.mem := mem;
      this.size := mem.Length;
      this.maxFree := mem.Length;
      this.tail := HDRSIZ;
      this.mincell := if mincell > 8 then Align(mincell) else 8;
      allocatedCount, allocatedSize, allocatedPeak := 0, 0, 0;
      blocks := [Block(HDRSIZ, mem.Length - (HDRSIZ + POFF), true)];
      new;
      mem[HDRSIZ] := mem.Length - (HDRSIZ + POFF);
      mem[HDRSIZ + POFF] := tail;
      InitValid(mem.Length, mincell);
      assert LinkAt(mem[..], FreeOffs(blocks), 0);
    }

    /** A reference as a position in the chunk, if it is one. */
    function Addr(ref: int): Option<nat>
      reads this
    {
      if 0 < ref <= size then Some(ref) else None
    }

    /** An address as a reference, 0 for addresses outside the chunk. */
    function Ref(p: int): nat
      reads this
    {
      if 0 < p - base <= size then p - base else 0
    }

    /** The payload of a live block, by its address. */
    ghost predicate IsPayload(p: nat, x: Block)
      reads this
    {
      x in Live(blocks) && p == base + x.off + POFF
    }

    /** The state of a search that has reached entry k of the free list. */
    ghost predicate Found(i: nat, k: nat)
      reads this, mem
    {
      && Valid()
      && At(mem[..], blocks, tail, i, k)
    }

    /**
     The loop of suba_alloc: from the tail around the list to the first cell that
     holds req bytes.  c1 is the cell before c2.
     */
    method Search(req: nat) returns (found: bool, c1: nat, c2: nat, ghost i: nat, ghost k: nat)
      requires Valid()
      ensures i == FirstFit(blocks, req)
      ensures found <==> FirstFit(blocks, req) < |blocks|
      ensures found ==> c2 < mem.Length && req <= mem[c2] && c2 == blocks[FirstFit(blocks, req)].off
      ensures found ==> Found(i, k) && c2 == blocks[i].off && c1 == Prev(FreeOffs(blocks), k)
      ensures found ==> req <= blocks[i].size == mem[c2]
    {
      hide FreeOffs, WellFormed, InMemory, FirstFit;
      ghost var (m, f) := (mem[..], FreeOffs(blocks));
      k := 0;
      Start(m, blocks, tail);
      c1, c2 := tail, tail;
      while true
        invariant k < |f| && c2 == Prev(f, k)
        invariant Passed(m, blocks, tail, req, k)
        decreases |f| - k
      {
        c1 := c2;
        Follow(m, blocks, tail, k);
        match Addr(mem[c1 + POFF]) {
          case None => assert false;
          case Some(c) => c2 := c;
        }
        if mem[c2] >= req {
          break;
        }
        if mem[c1 + POFF] == tail {
          i := |blocks|;
          WalkIsFirstFit(m, blocks, tail, req, k + 1);
          return false, c1, c2, i, k;
        }
        k := k + 1;
      }
      found, i := true, FirstFit(blocks, req);
      Hit(m, blocks, tail, req, k);
    }

    /** Cut req bytes off the front of cell c2 and put the rest in its place in the list. */
    method SplitCell(c1: nat, c2: nat, req: nat, ghost i: nat, ghost k: nat)
      requires Found(i, k) && c2 == blocks[i].off && c1 == Prev(FreeOffs(blocks), k)
      requires 8 <= req && POFF + req + mincell < blocks[i].size
      modifies mem, `tail
      ensures InMemory(mem[..], Split(blocks, i, req), tail)
      ensures Preserved(old(mem[..]), mem[..], Live(blocks))
      ensures mem[c2] == req
    {
      hide FreeOffs, Tiles, WellFormed, InMemory, Split, TakeWhole, Live, Preserved;
      ghost var (m, b, f) := (mem[..], blocks, FreeOffs(blocks));
      var c3 := c2 + POFF + req;
      Follow(m, b, tail, k);
      PrevApart(m, b, tail, i, k);
      mem[c3] := mem[c2] - (req + POFF);
      var c := c1;
      if c == c2 {
        c := c3;
      } else {
        mem[c3 + POFF] := mem[c2 + POFF];
      }
      mem[c + POFF] := c3;
      mem[c2] := req;
      if c2 == tail {
        tail := c3;
      }
      assert SplitWrites(m, mem[..], b, old(tail), i, k, req);
      SplitInMemory(m, mem[..], b, old(tail), i, k, req);
      SplitPreserves(m, mem[..], b, old(tail), i, k, req);
    }
 
    /** Take cell c2 off the list whole. */
    method UnlinkCell(c1: nat, c2: nat, ghost i: nat, ghost k: nat)
      requires Found(i, k) && c2 == blocks[i].off && c1 == Prev(FreeOffs(blocks), k) && c2 != tail
      modifies mem
      ensures InMemory(mem[..], TakeWhole(blocks, i), tail)
      ensures Preserved(old(mem[..]), mem[..], Live(blocks))
      ensures mem[c2] == blocks[i].size
    {
      hide FreeOffs, Tiles, WellFormed, InMemory, Split, TakeWhole, Live, Preserved;
      ghost var (m, b, f) := (mem[..], blocks, FreeOffs(blocks));
      Follow(m, b, tail, k);
      PrevApart(m, b, tail, i, k);
      mem[c1 + POFF] := mem[c2 + POFF];
      assert mem[..] == m[c1 + POFF := Next(f, k)];
      WholeInMemory(m, b, tail, i, k);
      WholePreserves(m, b, tail, i, k);
    }

    /** memset over the first n bytes of the payload of live block x. */
    method Clear(c: nat, n: nat, ghost x: Block)
      requires Valid() && x in Live(blocks) && c == x.off && n <= x.size
      modifies mem
      ensures Valid()
      ensures Zeroed(mem[..], c + POFF, n)
      ensures forall a :: 0 <= a < mem.Length && !(c + POFF <= a && a + REFSIZ <= c + POFF + n) ==> mem[a] == old(mem[a])
    {
      hide FreeOffs, Tiles, InMemory;
      ghost var m := mem[..];
      TilesAll(blocks, HDRSIZ, size);
      forall a | c + POFF <= a && a + REFSIZ <= c + POFF + n {
        mem[a] := 0;
      }
      PayloadIsTheCallers(m, mem[..], blocks, tail, x);
    }

    /** suba_alloc up to the return statement: the cell taken, if there is one. */
    method Take(n: nat) returns (found: bool, c2: nat)
      requires Valid()
      modifies this, mem
      ensures Valid() && unchanged(`mincell)
      ensures State() == HeapSpec.Alloc(old(State()), n).0
      ensures found <==> HeapSpec.Alloc(old(State()), n).1.Some?
      ensures !found ==> mem[..] == old(mem[..])
      ensures found ==> c2 == HeapSpec.Alloc(old(State()), n).1.value.off
      ensures Preserved(old(mem[..]), mem[..], old(Live(blocks)))
    {
      hide FreeOffs, Tiles, WellFormed, InMemory, FirstFit, Live, LiveSize, Split, TakeWhole;
      var req := if n < mincell then mincell else Align(n);
      ghost var (h, m) := (State(), mem[..]);
      AllocValid(h, n);
      FirstFitIs(blocks, req);
      var c1: nat;
      ghost var i, k;
      found, c1, c2, i, k := Search(req);
      if !found {
        return;
      }
      TailIsLast(m, blocks, tail);
      Follow(m, blocks, tail, k);
      if mem[c2] > POFF + req + mincell {
        SplitCell(c1, c2, req, i, k);
      } else if mem[c1 + POFF] == tail {
        return false, c2;
      } else {
        UnlinkCell(c1, c2, i, k);
      }
      blocks := HeapSpec.Alloc(h, n).0.blocks;
      allocatedSize := allocatedSize + POFF + mem[c2];
      allocatedCount := allocatedCount + 1;
      if allocatedSize > allocatedPeak {
        allocatedPeak := allocatedSize;
      }
    }

    /**
     suba_alloc: the address of a payload of at least n bytes, or 0.  No live block is
     written to.
     */
    method Alloc(n: nat, zero: bool) returns (p: nat)
      requires Valid()
      modifies this, mem
      ensures Valid() && unchanged(`mincell)
      ensures State() == HeapSpec.Alloc(old(State()), n).0
      ensures HeapSpec.Alloc(old(State()), n).1 == None ==> p == 0 && mem[..] == old(mem[..])
      ensures HeapSpec.Alloc(old(State()), n).1.Some? ==> IsPayload(p, HeapSpec.Alloc(old(State()), n).1.value)
      ensures Served(old(State()), n, p != 0)
      ensures p != 0 && zero ==> forall req :: Least(n, mincell, req) ==> Zeroed(mem[..], p - base, req)
      ensures Preserved(old(mem[..]), mem[..], old(Live(blocks)))
    {
      hide FreeOffs, Tiles, InMemory, Live, HeapSpec.Alloc, Zeroed, Served;
      ghost var (h, m) := (State(), mem[..]);
      AllocValid(h, n);
      var req := if n < mincell then mincell else Align(n);
      RequestIs(mincell, n, req);
      AllocServed(h, n);
      var found, c2 := Take(n);
      if !found {
        return 0;
      }
      p := base + c2 + POFF;
      if zero {
        ghost var x := HeapSpec.Alloc(h, n).1.value;
        ghost var m1 := mem[..];
        AllocTakesFirstFit(h, n, req);
        Clear(c2, req, x);
        ClearPreserves(m, m1, mem[..], blocks, Live(h.blocks), x);
      }
    }
 
    /** The loop of suba_free: the last cell of the list below block i, or the tail. */
    method FindInsertion(ref: nat, ghost i: nat, ghost k: nat) returns (c1: nat)
      requires Below(mem[..], blocks, tail, i, k) && ref == blocks[i].off
      ensures c1 == Prev(FreeOffs(blocks), k)
    {
      hide FreeOffs, Tiles, InMemory, WellFormed;
      ghost var (m, f) := (mem[..], FreeOffs(blocks));
      ghost var q := 0;
      Start(m, blocks, tail);
      c1 := tail;
      Follow(m, blocks, tail, 0);
      BeforeInsertion(m, blocks, tail, i, k, 0);
      while mem[c1 + POFF] < ref
        invariant q <= k && c1 == Prev(f, q) && c1 + POFF < mem.Length && mem[c1 + POFF] == f[q]
        invariant mem[c1 + POFF] < ref <==> q < k
        decreases k - q
      {
        if mem[c1 + POFF] < POFF {
          Follow(m, blocks, tail, q);
          assert false;
        }
        c1 := mem[c1 + POFF];
        q := q + 1;
        Follow(m, blocks, tail, q);
        BeforeInsertion(m, blocks, tail, i, k, q);
      }
    }

    /** Splice block i back into the list after cell c1, joining it to the cells it touches. */
    method Splice(c1: nat, c2: nat, ghost i: nat, ghost k: nat)
      requires Below(mem[..], blocks, tail, i, k)
      requires c1 == Prev(FreeOffs(blocks), k) && c2 == blocks[i].off
      modifies mem, `tail
      ensures InMemory(mem[..], Merge(blocks, i), tail)
      ensures Preserved(old(mem[..]), mem[..], Live(blocks) - {blocks[i]})
    {
      hide FreeOffs, Tiles, InMemory, WellFormed, SpanSize, Merge, Live, Preserved;
      ghost var (m, b, f) := (mem[..], blocks, FreeOffs(blocks));
      ReadNext(m, b, tail, i, k);
      ReadPrev(m, b, tail, i, k);
      var c3 := mem[c1 + POFF];
      var j1 := c1 + POFF + mem[c1] == c2;
      var j2 := c2 + POFF + mem[c2] == c3;
      if j1 {
        if j2 {
          if c3 == tail {
            tail := c1;
          }
          mem[c1 + POFF] := mem[c3 + POFF];
          mem[c1] := mem[c1] + POFF + mem[c3];
        }
        mem[c1] := mem[c1] + POFF + mem[c2];
        assert FreeWrites(m, mem[..], b, old(tail), i, k);
      } else {
        if j2 {
          if c3 == tail {
            tail := c2;
          }
          mem[c2 + POFF] := if mem[c3 + POFF] == c3 then c2 else mem[c3 + POFF];
          mem[c2] := mem[c2] + POFF + mem[c3];
        } else {
          mem[c2 + POFF] := mem[c1 + POFF];
        }
        mem[c1 + POFF] := c2;
        assert FreeWrites(m, mem[..], b, old(tail), i, k);
      }
      FreeInMemory(m, mem[..], b, old(tail), i, k);
      FreePreserves(m, mem[..], b, old(tail), i, k);
    }
 
    /** An address suba_free may be given: null, outside the chunk, or a live payload. */
    ghost predicate Freeable(p: nat)
      reads this
    {
      p == 0 || Ref(p) == 0 || exists x :: IsPayload(p, x)
    }

    /** A payload address belongs to one live block and is an address inside the chunk. */
    lemma OnePayload(p: nat, x: Block)
      requires Valid() && IsPayload(p, x)
      ensures p != 0 && Ref(p) == x.off + POFF && 0 < Ref(p - POFF) == x.off
      ensures x.size <= maxFree && x in blocks && !x.free
      ensures forall y :: IsPayload(p, y) ==> y == x
    {
      TilesAll(blocks, HDRSIZ, size);
      forall y | IsPayload(p, y)
        ensures y == x
      {
        SameBlock(blocks, size, x, y);
      }
    }

    /** suba_free from the counters on, for the live block i at cell c2. */
    method Release(c2: nat, ghost i: nat)
      requires Valid() && i < |blocks| && !blocks[i].free && c2 == blocks[i].off
      modifies this, mem
      ensures Valid() && unchanged(`mincell)
      ensures State() == HeapSpec.Free(old(State()), i)
      ensures Preserved(old(mem[..]), mem[..], Live(blocks))
    {
      hide FreeOffs, Tiles, InMemory, WellFormed, Live, LiveSize, Merge, Below;
      ghost var k := |FreeOffs(blocks[..i])|;
      LiveIsBelow(mem[..], blocks, tail, i);
      LiveMember(blocks, i);
      FreeExact(State(), i);
      ReadNext(mem[..], blocks, tail, i, k);
      BeforeInsertion(mem[..], blocks, tail, i, k, 0);
      var c1 := tail;
      allocatedSize := allocatedSize - (POFF + mem[c2]);
      allocatedCount := allocatedCount - 1;
      if c2 > c1 {
        // The append branch: the tail cell ends the chunk, so no live block is above it.
        assert false;
      }
      c1 := FindInsertion(c2, i, k);
      Splice(c1, c2, i, k);
      blocks := Merge(blocks, i);
    }

    /**
     suba_free: a live block leaves the live ones and every other live block keeps its
     contents; null and addresses outside the chunk change nothing.
     */
    method Free(p: nat) returns (r: int)
      requires Valid() && Freeable(p)
      modifies this, mem
      ensures Valid() && unchanged(`mincell)
      ensures p == 0 ==> r == 0
      ensures p != 0 && Ref(p) == 0 ==> r == -1
      ensures p == 0 || Ref(p) == 0 ==> State() == old(State()) && mem[..] == old(mem[..])
      ensures forall x :: old(IsPayload(p, x)) ==>
                r == 0 && x in old(blocks) && !x.free
                && State() == HeapSpec.Free(old(State()), IndexOf(old(blocks), x))
      ensures Preserved(old(mem[..]), mem[..], Live(blocks))
    {
      hide Tiles, InMemory, HeapSpec.Free, HeapSpec.Valid, IndexOf;
      forall x | IsPayload(p, x)
        ensures p != 0 && Ref(p) == x.off + POFF && x in blocks && !x.free
        ensures forall y :: IsPayload(p, y) ==> y == x
      {
        OnePayload(p, x);
      }
      if p == 0 {
        return 0;
      }
      if Ref(p) == 0 {
        return -1;
      }
      ghost var x: Block :| IsPayload(p, x);
      OnePayload(p, x);
      HeaderOf(x);
      var c2 := p - base - POFF;
      if mem[c2] > maxFree || Ref(base + c2) == 0 {
        assert false;
      }
      Release(Ref(base + c2), IndexOf(blocks, x));
      return 0;
    }

    lemma HeaderOf(x: Block)
      requires Valid() && x in Live(blocks)
      ensures x.off < mem.Length && mem[x.off] == x.size
    {
      var i :| 0 <= i < |blocks| && blocks[i] == x;
    }

    /** The walk of suba_getmeminfo, once around the list from the tail. */
    method Measure() returns (largest: int, free: int, count: nat)
      requires Valid() && forall k :: 0 <= k < |FreeOffs(blocks)| ==> FreeOffs(blocks)[k] < mem.Length
      ensures count == |FreeOffs(blocks)|
      ensures free == Total(mem[..], FreeOffs(blocks))
      ensures largest == Largest(mem[..], FreeOffs(blocks))
    {
      hide FreeOffs, InMemory, WellFormed, Total, Largest;
      ghost var (m, f) := (mem[..], FreeOffs(blocks));
      Start(m, blocks, tail);
      Follow(m, blocks, tail, 0);
      Visit(m, f, |f| - 1);
      assert f[..|f|] == f;
      Nothing(m);
      var c := tail;
      largest, free, count := 0, 0, 0;
      if mem[c] > largest {
        largest := mem[c];
      }
      free := free + mem[c];
      count := count + 1;
      while mem[c + POFF] != tail
        invariant 0 < count <= |f| && c == Prev(f, count - 1)
        invariant c + POFF < |m| && m[c + POFF] == f[count - 1] && (f[count - 1] == tail <==> count == |f|)
        invariant free == Total(m, f[..count - 1]) + m[tail]
        invariant largest == if m[tail] > Largest(m, f[..count - 1]) then m[tail] else Largest(m, f[..count - 1])
        decreases |f| - count
      {
        c := mem[c + POFF];
        if mem[c] > largest {
          largest := mem[c];
        }
        free := free + mem[c];
        Visit(m, f, count - 1);
        count := count + 1;
        Follow(m, blocks, tail, count - 1);
      }
    }

    /** suba_getmeminfo: the counters, and the number, sum and largest of the free cells. */
    method MemInfo() returns (allocSize: nat, allocPeak: nat, allocCount: nat, free: int, largest: int, count: nat)
      requires Valid()
      ensures allocSize == LiveSize(blocks) && allocPeak == allocatedPeak && allocCount == |Live(blocks)|
      ensures count == |FreeOffs(blocks)| && free == FreeSize(blocks)
      ensures HDRSIZ + free + POFF * count + allocSize == size
      ensures forall x :: x in blocks && x.free ==> x.size <= largest
      ensures exists x :: x in blocks && x.free && x.size == largest
    {
      Conservation(blocks, HDRSIZ, size);
      TotalIsFreeSize(mem[..], blocks);
      LargestIs(mem[..], blocks, tail);
      hide FreeOffs, InMemory, WellFormed, Total, Largest, Live, LiveSize, FreeSize;
      largest, free, count := Measure();
      return allocatedSize, allocatedPeak, allocatedCount, free, largest, count;
    }
  }

  /** suba_init with a reset: null when the chunk is too small for a header and a cell. */
  method Init(base: nat, mem: array<int>, mincell: nat) returns (heap: Suba?)
    requires base > 0
    requires mem.Length <= HDRSIZ + POFF || HDRSIZ + POFF + REFSIZ <= mem.Length
    modifies mem
    ensures heap == null <==> mem.Length <= HDRSIZ + POFF
    ensures heap == null ==> mem[..] == old(mem[..])
    ensures heap != null ==> fresh(heap) && heap.Valid() && heap.base == base && heap.mem == mem
                             && heap.State() == HeapSpec.Init(mem.Length, mincell)
  {
    if mem.Length <= HDRSIZ + POFF {
      return null;
    }
    heap := new Suba.Reset(base, mem, mincell);
  }
}
