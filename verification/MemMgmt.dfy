/** malloc and free over two suba heaps and the firmware's own heap. */
module MemMgmt {
  import opened HeapTiling
  import opened SubaHeap
  import HeapSpec

  /** Where a live pointer was taken from. */
  datatype Owner = Nobody | Aram | Exmem | Canon

  /** p is the payload address of one of the blocks, in a chunk at base. */
  ghost predicate PayloadOf(live: set<Block>, base: nat, p: nat) {
    exists x :: x in live && p == base + x.off + POFF
  }

  lemma PayloadAdded(live: set<Block>, base: nat, x: Block, q: nat)
    ensures PayloadOf(live + {x}, base, q) <==> PayloadOf(live, base, q) || q == base + x.off + POFF
  {
    if q == base + x.off + POFF {
      assert x in live + {x};
    }
  }

  lemma PayloadRemoved(live: set<Block>, base: nat, x: Block, q: nat)
    requires x in live && forall y :: y in live && y.off == x.off ==> y == x
    ensures PayloadOf(live - {x}, base, q) <==> PayloadOf(live, base, q) && q != base + x.off + POFF
  {
    if y :| y in live && q == base + y.off + POFF && q != base + x.off + POFF {
      assert y in live - {x};
    }
  }

  /** What an allocation does to the payloads. */
  lemma Allocated(h: HeapSpec.Heap, n: nat, base: nat)
    requires HeapSpec.Valid(h)
    ensures var (u, r) := HeapSpec.Alloc(h, n);
            match r
            case None => u.blocks == h.blocks
            case Some(x) =>
              && !PayloadOf(Live(h.blocks), base, base + x.off + POFF)
              && forall q: nat :: PayloadOf(Live(u.blocks), base, q)
                                  <==> PayloadOf(Live(h.blocks), base, q) || q == base + x.off + POFF
  {
    HeapSpec.AllocValid(h, n);
    var (u, r) := HeapSpec.Alloc(h, n);
    if r.Some? {
      hide HeapSpec.Alloc, Live;
      forall q: nat
        ensures PayloadOf(Live(u.blocks), base, q)
           <==> PayloadOf(Live(h.blocks), base, q) || q == base + r.value.off + POFF
      {
        PayloadAdded(Live(h.blocks), base, r.value, q);
      }
    }
  }

  lemma LiveWithout(h: HeapSpec.Heap, x: Block)
    requires HeapSpec.Valid(h) && x in h.blocks && !x.free
    ensures x in Live(h.blocks) && Live(HeapSpec.Free(h, HeapSpec.IndexOf(h.blocks, x)).blocks) == Live(h.blocks) - {x}
    ensures forall y :: y in Live(h.blocks) && y.off == x.off ==> y == x
  {
    hide HeapSpec.Free;
    HeapSpec.FreeExact(h, HeapSpec.IndexOf(h.blocks, x));
    TilesAll(h.blocks, HDRSIZ, h.end);
  }

  /** What a free does to the payloads. */
  lemma Freed(h: HeapSpec.Heap, x: Block, base: nat)
    requires HeapSpec.Valid(h) && x in h.blocks && !x.free
    ensures var u := HeapSpec.Free(h, HeapSpec.IndexOf(h.blocks, x));
            forall q: nat :: PayloadOf(Live(u.blocks), base, q)
                             <==> PayloadOf(Live(h.blocks), base, q) && q != base + x.off + POFF
  {
    hide HeapSpec.Free, HeapSpec.Valid, HeapSpec.IndexOf, Live, PayloadOf;
    LiveWithout(h, x);
    forall q: nat
      ensures PayloadOf(Live(h.blocks) - {x}, base, q)
         <==> PayloadOf(Live(h.blocks), base, q) && q != base + x.off + POFF
    {
      PayloadRemoved(Live(h.blocks), base, x, q);
    }
  }

  /** A block of memory managed by suba; heap is null when it is not in use. */
  class ChdkHeap {
    const start: nat
    const end: nat
    const heap: Suba?

    constructor (start: nat, end: nat, heap: Suba?)
      ensures this.start == start && this.end == end && this.heap == heap
    {
      this.start, this.end, this.heap := start, end, heap;
    }

    ghost function Repr(): set<object>
      reads this
    {
      if heap == null then {} else {heap, heap.mem}
    }

    ghost predicate Valid()
      reads this, Repr()
    {
      heap != null ==> heap.Valid() && heap.base == start && end == start + heap.mem.Length
    }

    ghost predicate Owns(p: nat)
      reads this, Repr()
    {
      heap != null && PayloadOf(Live(heap.blocks), start, p)
    }

    /** The heap is in use and a request for n bytes, rounded up, fits. */
    ghost predicate Holds(n: nat)
      requires Valid()
      reads this, Repr()
    {
      heap != null && HeapSpec.Served(heap.State(), n, true)
    }

    predicate InRange(p: nat) {
      start <= p < end
    }

    lemma OwnedInRange(p: nat)
      requires Valid() && Owns(p)
      ensures InRange(p) && p != 0
    {
      var x :| x in Live(heap.blocks) && p == start + x.off + POFF;
      HeapSpec.LiveBelowTail(heap.State(), x);
      TilesAll(heap.blocks, HDRSIZ, heap.size);
    }

    method ChdkMalloc(n: nat) returns (p: nat)
      requires Valid()
      modifies Repr()
      ensures Valid()
      ensures heap == null ==> p == 0
      ensures p != 0 <==> old(Holds(n))
      ensures p == 0 && heap != null ==> heap.State().blocks == old(heap.State()).blocks
      ensures p == 0 ==> forall q: nat :: Owns(q) <==> old(Owns(q))
      ensures p != 0 ==> !old(Owns(p)) && forall q: nat :: Owns(q) <==> old(Owns(q)) || q == p
    {
      hide HeapSpec.Alloc, PayloadOf, Live, HeapSpec.Valid;
      if heap != null {
        ghost var (h, live) := (heap.State(), Live(heap.blocks));
        HeapSpec.AllocValid(h, n);
        HeapSpec.ServedIff(h, n);
        Allocated(h, n, start);
        p := heap.Alloc(n, false);
        return p;
      }
      return 0;
    }

    method ChdkFree(p: nat) returns (taken: bool)
      requires Valid() && (InRange(p) && heap != null ==> Owns(p))
      modifies Repr()
      ensures Valid()
      ensures taken <==> heap != null && InRange(p)
      ensures heap != null && !taken ==> heap.State() == old(heap.State())
      ensures forall q: nat :: Owns(q) <==> old(Owns(q)) && !(taken && q == p)
    {
      hide PayloadOf, HeapSpec.Free, HeapSpec.Valid, HeapSpec.IndexOf;
      if heap != null && p >= start && p < end {
        ghost var h := heap.State();
        ghost var x := OwnedBlock(p);
        Freed(h, x, start);
        var r := heap.Free(p);
        return true;
      }
      return false;
    }

    lemma OwnedBlock(p: nat) returns (x: Block)
      requires Valid() && Owns(p)
      ensures heap.IsPayload(p, x) && x in heap.blocks && !x.free
      ensures heap.Freeable(p)
    {
      x :| x in Live(heap.blocks) && p == start + x.off + POFF;
      assert heap.IsPayload(p, x);
    }
  }

  /** The heaps of the program; canon is what the firmware's heap has handed out. */
  class Memory {
    const aram: ChdkHeap
    const exmem: ChdkHeap
    ghost var canon: set<nat>

    constructor (aram: ChdkHeap, exmem: ChdkHeap)
      requires aram.Valid() && exmem.Valid()
      requires aram.Repr() !! exmem.Repr()
      requires aram.end <= exmem.start || exmem.end <= aram.start
      ensures Valid() && canon == {} && this.aram == aram && this.exmem == exmem
    {
      this.aram, this.exmem, this.canon := aram, exmem, {};
    }

    ghost function Repr(): set<object>
      reads this, aram, exmem
    {
      {this} + aram.Repr() + exmem.Repr()
    }

    /** The address ranges do not overlap, and the firmware's heap lies outside both. */
    ghost predicate Valid()
      reads this, aram, exmem, aram.Repr(), exmem.Repr()
    {
      && aram.Valid() && exmem.Valid()
      && aram.Repr() !! exmem.Repr()
      && (aram.end <= exmem.start || exmem.end <= aram.start)
      && forall p :: p in canon ==> p != 0 && !aram.InRange(p) && !exmem.InRange(p)
    }

    /** The heap that a live pointer was taken from. */
    ghost function OwnerOf(p: nat): Owner
      reads this, aram, exmem, aram.Repr(), exmem.Repr()
    {
      if aram.Owns(p) then Aram
      else if exmem.Owns(p) then Exmem
      else if p in canon then Canon
      else Nobody
    }

    /** A heap's own pointers belong to it alone. */
    lemma OneOwner(p: nat)
      requires Valid()
      ensures aram.Owns(p) ==> aram.InRange(p) && !exmem.InRange(p) && !exmem.Owns(p) && p !in canon && p != 0
      ensures exmem.Owns(p) ==> exmem.InRange(p) && !aram.InRange(p) && p !in canon && p != 0
    {
      if aram.Owns(p) {
        aram.OwnedInRange(p);
      }
      if exmem.Owns(p) {
        exmem.OwnedInRange(p);
      }
    }

    /**
     Asks the two suba heaps in turn, then the firmware, whose answer is canonAnswer.
     Ownership changes for the returned pointer alone.
     */
    method Malloc(n: nat, canonAnswer: nat) returns (p: nat)
      requires Valid()
      requires canonAnswer != 0 ==> !aram.InRange(canonAnswer) && !exmem.InRange(canonAnswer) && canonAnswer !in canon
      modifies Repr()
      ensures Valid()
      ensures p != 0 ==> old(OwnerOf(p)) == Nobody
      ensures p == 0 <==> !old(aram.Holds(n)) && !old(exmem.Holds(n)) && canonAnswer == 0
      ensures p != 0 ==>
                if old(aram.Holds(n)) then OwnerOf(p) == Aram
                else if old(exmem.Holds(n)) then OwnerOf(p) == Exmem
                else OwnerOf(p) == Canon && p == canonAnswer
      ensures forall q: nat :: q != p || p == 0 ==> OwnerOf(q) == old(OwnerOf(q))
    {
      hide HeapSpec.Alloc, PayloadOf, HeapSpec.Valid;
      p := aram.ChdkMalloc(n);
      if p == 0 {
        p := exmem.ChdkMalloc(n);
      }
      if p == 0 {
        p := canonAnswer;
        if p != 0 {
          canon := canon + {p};
        }
      }
      forall q: nat {
        OneOwner(q);
      }
    }

    /** Returns a pointer to the heap it was taken from, and changes no other ownership. */
    method Free(p: nat)
      requires Valid() && (p == 0 || OwnerOf(p) != Nobody)
      modifies Repr()
      ensures Valid()
      ensures OwnerOf(p) == Nobody
      ensures forall q: nat :: q != p ==> OwnerOf(q) == old(OwnerOf(q))
      ensures old(OwnerOf(p)) != Aram && aram.heap != null ==> aram.heap.State() == old(aram.heap.State())
      ensures old(OwnerOf(p)) != Exmem && exmem.heap != null ==> exmem.heap.State() == old(exmem.heap.State())
      ensures canon == old(canon) - (if old(OwnerOf(p)) == Canon then {p} else {})
    {
      hide PayloadOf, HeapSpec.Valid;
      OneOwner(p);
      var taken := aram.ChdkFree(p);
      if !taken {
        taken := exmem.ChdkFree(p);
        if !taken {
          canon := canon - {p};
        }
      }
    }
  }
}
