/**
 How a tiling is laid out in memory: every block carries its size in its first word,
 and every free block carries, POFF bytes on, a reference to the next free block of a
 circular list.  m[a] is the word that starts at byte offset a of the chunk.
 */
module HeapMemory {
  import opened HeapTiling
  import opened HeapSpec

  ghost function Next(f: seq<nat>, k: nat): nat
    requires k < |f|
  {
    if k + 1 < |f| then f[k + 1] else f[0]
  }

  ghost function Prev(f: seq<nat>, k: nat): nat
    requires k < |f|
  {
    if k > 0 then f[k - 1] else f[|f| - 1]
  }

  ghost predicate LinkAt(m: seq<int>, f: seq<nat>, k: nat)
    requires k < |f|
  {
    f[k] + POFF < |m| && m[f[k] + POFF] == Next(f, k)
  }

  ghost predicate Linked(m: seq<int>, f: seq<nat>, tail: nat) {
    && f != [] && tail == f[|f| - 1]
    && (forall k :: 0 <= k < |f| ==> LinkAt(m, f, k))
  }

  /** Every word that lies in the n bytes from position a on is zero. */
  ghost predicate Zeroed(m: seq<int>, a: int, n: nat) {
    0 <= a && a + n <= |m| && forall k :: a <= k && k + REFSIZ <= a + n ==> m[k] == 0
  }

  ghost predicate InMemory(m: seq<int>, b: seq<Block>, tail: nat) {
    && (forall i :: 0 <= i < |b| ==> b[i].off < |m| && m[b[i].off] == b[i].size)
    && Linked(m, FreeOffs(b), tail)
  }

  ghost predicate Increasing(f: seq<nat>) {
    forall i, j :: 0 <= i < j < |f| ==> f[i] < f[j]
  }

  lemma {:induction false} FreeOffsSorted(b: seq<Block>, lo: nat, hi: nat)
    requires Tiles(b, lo, hi)
    ensures Increasing(FreeOffs(b))
    ensures forall k :: 0 <= k < |FreeOffs(b)| ==> lo <= FreeOffs(b)[k] < hi
  {
    if b != [] {
      FreeOffsSorted(b[1..], b[0].End(), hi);
      TilesHi(b[1..], b[0].End(), hi);
    }
  }

  /** The block behind the k-th entry of the free list. */
  lemma {:induction false} FreeEntry(b: seq<Block>, k: nat) returns (i: nat)
    requires k < |FreeOffs(b)|
    ensures i < |b| && b[i].free && b[i].off == FreeOffs(b)[k]
    ensures FreeOffs(b[..i]) == FreeOffs(b)[..k] && FreeOffs(b[i + 1..]) == FreeOffs(b)[k + 1..]
  {
    if b[0].free && k == 0 {
      i := 0;
    } else {
      var j := FreeEntry(b[1..], if b[0].free then k - 1 else k);
      i := j + 1;
      assert b[..i][1..] == b[1..][..j];
      assert b[i + 1..] == b[1..][j + 1..];
    }
  }

  /** The list entry of a free block. */
  lemma EntryOf(b: seq<Block>, i: nat) returns (k: nat)
    requires i < |b| && b[i].free
    ensures k < |FreeOffs(b)| && FreeOffs(b)[k] == b[i].off
    ensures FreeOffs(b[..i]) == FreeOffs(b)[..k] && FreeOffs(b[i + 1..]) == FreeOffs(b)[k + 1..]
  {
    FreeListAt(b, i);
    k := |FreeOffs(b[..i])|;
  }

  lemma {:induction false} FirstFitUnique(b: seq<Block>, req: nat, i: nat)
    requires i <= |b|
    requires i < |b| ==> b[i].free && req <= b[i].size
    requires forall j :: 0 <= j < i ==> !(b[j].free && req <= b[j].size)
    ensures FirstFit(b, req) == i
  {
    FirstFitIs(b, req);
  }

  /** A walk over the first k entries that found nothing has passed every free block below entry k. */
  lemma WalkIsFirstFit(m: seq<int>, b: seq<Block>, tail: nat, req: nat, k: nat)
    requires InMemory(m, b, tail) && k <= |FreeOffs(b)|
    requires forall q :: 0 <= q < k ==> FreeOffs(b)[q] < |m| && m[FreeOffs(b)[q]] < req
    requires k < |FreeOffs(b)| ==> FreeOffs(b)[k] < |m| && req <= m[FreeOffs(b)[k]]
    ensures var i := FirstFit(b, req);
            if k == |FreeOffs(b)| then i == |b|
            else i < |b| && b[i].free && b[i].off == FreeOffs(b)[k]
                 && FreeOffs(b[..i]) == FreeOffs(b)[..k] && FreeOffs(b[i + 1..]) == FreeOffs(b)[k + 1..]
  {
    var i := |b|;
    if k < |FreeOffs(b)| {
      i := FreeEntry(b, k);
    } else {
      assert b[..i] == b;
    }
    forall j | 0 <= j < i && b[j].free
      ensures b[j].size < req
    {
      var q := EntryOf(b[..i], j);
      assert FreeOffs(b)[q] == b[j].off;
    }
    FirstFitUnique(b, req, i);
  }

  // ---- list surgery ------------------------------------------------------------

  /** m' has the same link as m in every entry of f but k and its predecessor. */
  ghost predicate SameLinks(m: seq<int>, m': seq<int>, f: seq<nat>, k: nat)
    requires k < |f|
  {
    && |m'| == |m|
    && (forall q :: 0 <= q < |f| && q != k && f[q] != Prev(f, k) && f[q] + POFF < |m| ==> m'[f[q] + POFF] == m[f[q] + POFF])
  }

  /** Entry k becomes y. */
  lemma ListReplace(m: seq<int>, m': seq<int>, f: seq<nat>, k: nat, y: nat, tail: nat)
    requires Linked(m, f, tail) && Increasing(f) && k < |f| && y + POFF < |m|
    requires SameLinks(m, m', f, k)
    requires |f| == 1 ==> m'[y + POFF] == y
    requires |f| > 1 ==> m'[y + POFF] == Next(f, k) && Prev(f, k) + POFF < |m| && m'[Prev(f, k) + POFF] == y
    ensures Linked(m', f[k := y], if k == |f| - 1 then y else tail)
  {
    var g := f[k := y];
    forall q | 0 <= q < |g|
      ensures LinkAt(m', g, q)
    {
      assert LinkAt(m, f, q);
    }
  }

  /** Entry k leaves the list. */
  lemma ListRemove(m: seq<int>, m': seq<int>, f: seq<nat>, k: nat, tail: nat)
    requires Linked(m, f, tail) && Increasing(f) && k < |f| && |f| > 1
    requires SameLinks(m, m', f, k)
    requires Prev(f, k) + POFF < |m| && m'[Prev(f, k) + POFF] == Next(f, k)
    ensures Linked(m', f[..k] + f[k + 1..], if k == |f| - 1 then f[k - 1] else tail)
  {
    var g := f[..k] + f[k + 1..];
    forall q | 0 <= q < |g|
      ensures LinkAt(m', g, q)
    {
      var p := if q < k then q else q + 1;
      assert LinkAt(m, f, p);
    }
  }

  /** A new entry y goes before entry k. */
  lemma ListInsert(m: seq<int>, m': seq<int>, f: seq<nat>, k: nat, y: nat, tail: nat)
    requires Linked(m, f, tail) && Increasing(f) && k < |f| && y + POFF < |m| && |m'| == |m|
    requires forall q :: 0 <= q < |f| && f[q] != Prev(f, k) && f[q] + POFF < |m| ==> m'[f[q] + POFF] == m[f[q] + POFF]
    requires m'[y + POFF] == f[k] && Prev(f, k) + POFF < |m| && m'[Prev(f, k) + POFF] == y
    ensures Linked(m', f[..k] + [y] + f[k..], tail)
  {
    var g := f[..k] + [y] + f[k..];
    forall q | 0 <= q < |g|
      ensures LinkAt(m', g, q)
    {
      if q != k {
        assert LinkAt(m, f, if q < k then q else q - 1);
      }
    }
  }

  // ---- where the writes land -----------------------------------------------------

  /** No block header lies strictly inside another block. */
  lemma InsideNoHeader(b: seq<Block>, hi: nat, i: nat, a: nat)
    requires Tiles(b, HDRSIZ, hi) && i < |b| && b[i].off < a < b[i].End()
    ensures forall j :: 0 <= j < |b| ==> b[j].off != a
  {
    TilesAll(b, HDRSIZ, hi);
    forall j | 0 <= j < |b|
      ensures b[j].off != a
    {
      assert j < i || j == i || i < j;
    }
  }

  /** A list entry other than block i's own, with its link word, lies outside block i. */
  lemma EntryApart(b: seq<Block>, hi: nat, q: nat, i: nat)
    requires Tiles(b, HDRSIZ, hi) && Sized(b) && q < |FreeOffs(b)| && i < |b| && FreeOffs(b)[q] != b[i].off
    ensures FreeOffs(b)[q] + POFF + REFSIZ <= b[i].off || b[i].End() <= FreeOffs(b)[q]
    ensures FreeOffs(b)[q] + POFF + REFSIZ <= hi
    ensures forall j :: 0 <= j < |b| ==> b[j].off != FreeOffs(b)[q] + POFF
  {
    TilesAll(b, HDRSIZ, hi);
    var j := FreeEntry(b, q);
    InsideNoHeader(b, hi, j, b[j].off + POFF);
  }

  /** A live block, header and payload, is disjoint from the words of every free one. */
  lemma LiveApart(b: seq<Block>, hi: nat, x: Block, i: nat)
    requires Tiles(b, HDRSIZ, hi) && x in Live(b) && i < |b| && b[i].free
    ensures x.End() <= b[i].off || b[i].End() <= x.off
  {
    TilesAll(b, HDRSIZ, hi);
    var j :| 0 <= j < |b| && b[j] == x;
    assert j < i || i < j;
  }

  /** m' differs from m at most at a0, a1, a2 and at the link word of entry k's predecessor. */
  ghost predicate WritesOnly(m: seq<int>, m': seq<int>, a0: nat, a1: nat, a2: nat, link: nat) {
    && |m'| == |m|
    && (forall a :: 0 <= a < |m| && a != a0 && a != a1 && a != a2 && a != link ==> m'[a] == m[a])
  }

  /** Block i of the tiling b of m is free and is entry k of the free list. */
  ghost predicate At(m: seq<int>, b: seq<Block>, tail: nat, i: nat, k: nat) {
    var f := FreeOffs(b);
    && WellFormed(b, |m|) && InMemory(m, b, tail)
    && i < |b| && b[i].free && b[i].End() <= |m|
    && k < |f| && f[k] == b[i].off && FreeOffs(b[..i]) == f[..k] && FreeOffs(b[i + 1..]) == f[k + 1..]
    && Prev(f, k) + POFF < |m|
  }

  /** The words written when entry k, block i, is split to serve req bytes. */
  ghost predicate SplitWrites(m: seq<int>, m': seq<int>, b: seq<Block>, tail: nat, i: nat, k: nat, req: nat)
    requires At(m, b, tail, i, k) && 8 <= req && POFF + req + 8 < b[i].size
  {
    var f := FreeOffs(b);
    var (c2, c3) := (b[i].off, b[i].off + POFF + req);
    && WritesOnly(m, m', c2, c3, c3 + POFF, if |f| == 1 then c2 else Prev(f, k) + POFF)
    && m'[c2] == req && m'[c3] == b[i].size - (req + POFF)
    && (|f| == 1 ==> m'[c3 + POFF] == c3)
    && (|f| > 1 ==> m'[c3 + POFF] == Next(f, k) && m'[Prev(f, k) + POFF] == c3)
  }

  lemma SplitLinks(m: seq<int>, m': seq<int>, b: seq<Block>, tail: nat, i: nat, k: nat, req: nat)
    requires At(m, b, tail, i, k) && 8 <= req && POFF + req + 8 < b[i].size
    requires SplitWrites(m, m', b, tail, i, k, req)
    ensures Linked(m', FreeOffs(Split(b, i, req)), if k == |FreeOffs(b)| - 1 then b[i].off + POFF + req else tail)
  {
    hide FreeOffs, Tiles;
    var f := FreeOffs(b);
    var c3 := b[i].off + POFF + req;
    FreeOffsSorted(b, HDRSIZ, |m|);
    SplitList(b, i, req);
    assert FreeOffs(Split(b, i, req)) == f[k := c3];
    forall q | 0 <= q < |f| && q != k
      ensures f[q] + POFF != b[i].off && f[q] + POFF != c3 && f[q] + POFF != c3 + POFF
    {
      EntryApart(b, |m|, q, i);
    }
    ListReplace(m, m', f, k, c3, tail);
  }

  /** Splitting block i, which is entry k, in place. */
  lemma SplitInMemory(m: seq<int>, m': seq<int>, b: seq<Block>, tail: nat, i: nat, k: nat, req: nat)
    requires At(m, b, tail, i, k) && 8 <= req && POFF + req + 8 < b[i].size
    requires SplitWrites(m, m', b, tail, i, k, req)
    ensures InMemory(m', Split(b, i, req), if k == |FreeOffs(b)| - 1 then b[i].off + POFF + req else tail)
  {
    SplitLinks(m, m', b, tail, i, k, req);
    var c3, s := b[i].off + POFF + req, Split(b, i, req);
    InsideNoHeader(b, |m|, i, c3);
    InsideNoHeader(b, |m|, i, c3 + POFF);
    PrevNoHeader(b, |m|, k);
    TilesAll(b, HDRSIZ, |m|);
    forall j | 0 <= j < |s| && j != i && j != i + 1
      ensures s[j].off < |m'| && m'[s[j].off] == s[j].size
    {
      assert s[j] == b[if j < i then j else j - 1];
    }
  }

  lemma PrevNoHeader(b: seq<Block>, hi: nat, k: nat)
    requires Tiles(b, HDRSIZ, hi) && Sized(b) && k < |FreeOffs(b)|
    ensures forall j :: 0 <= j < |b| ==> b[j].off != Prev(FreeOffs(b), k) + POFF
  {
    var j := FreeEntry(b, if k > 0 then k - 1 else |FreeOffs(b)| - 1);
    InsideNoHeader(b, hi, j, b[j].off + POFF);
  }

  /** Unlinking block i, which is entry k and not the last one. */
  lemma WholeInMemory(m: seq<int>, b: seq<Block>, tail: nat, i: nat, k: nat)
    requires At(m, b, tail, i, k) && k < |FreeOffs(b)| - 1
    ensures InMemory(m[Prev(FreeOffs(b), k) + POFF := Next(FreeOffs(b), k)], TakeWhole(b, i), tail)
  {
    var f, s := FreeOffs(b), TakeWhole(b, i);
    var m' := m[Prev(f, k) + POFF := Next(f, k)];
    FreeOffsSorted(b, HDRSIZ, |m|);
    WholeList(b, i);
    assert FreeOffs(s) == f[..k] + f[k + 1..];
    ListRemove(m, m', f, k, tail);
    PrevNoHeader(b, |m|, k);
    forall j | 0 <= j < |s|
      ensures s[j].off < |m'| && m'[s[j].off] == s[j].size
    {
      assert s[j].off == b[j].off && s[j].size == b[j].size;
    }
  }

  // ---- freeing in place -----------------------------------------------------------

  /** Block i is live and k entries of the free list lie below it. */
  ghost predicate Below(m: seq<int>, b: seq<Block>, tail: nat, i: nat, k: nat) {
    var f := FreeOffs(b);
    && WellFormed(b, |m|) && InMemory(m, b, tail)
    && i < |b| - 1 && !b[i].free && b[i].End() < |m|
    && k < |f| && FreeOffs(b[..i]) == f[..k] && FreeOffs(b[i + 1..]) == f[k..]
    && Prev(f, k) + POFF < |m|
  }

  /** Free-list prefixes one block apart. */
  lemma OneMore(b: seq<Block>, i: nat)
    requires i < |b|
    ensures FreeOffs(b[..i + 1]) == FreeOffs(b[..i]) + if b[i].free then [b[i].off] else []
  {
    assert b[..i + 1] == b[..i] + [b[i]];
    FreeOffsConcat(b[..i], [b[i]]);
    LiveOne(b[i]);
  }

  /** Entries of the blocks below block i lie below it. */
  lemma EntryBelow(b: seq<Block>, hi: nat, i: nat, q: nat)
    requires Tiles(b, HDRSIZ, hi) && i < |b| && q < |FreeOffs(b[..i])|
    ensures FreeOffs(b[..i])[q] < b[i].off
  {
    var j := FreeEntry(b[..i], q);
    TilesOrdered(b, HDRSIZ, hi, j, i);
  }

  /** Entries of the blocks above block i lie above it. */
  lemma EntryAbove(b: seq<Block>, hi: nat, i: nat, q: nat)
    requires Tiles(b, HDRSIZ, hi) && i < |b| && q < |FreeOffs(b[i + 1..])|
    ensures b[i].End() <= FreeOffs(b[i + 1..])[q]
  {
    var j := FreeEntry(b[i + 1..], q);
    TilesOrdered(b, HDRSIZ, hi, i, i + 1 + j);
  }

  /** The next free cell touches a live block exactly when it is its neighbour. */
  lemma NextAdjacent(m: seq<int>, b: seq<Block>, tail: nat, i: nat, k: nat)
    requires Below(m, b, tail, i, k)
    ensures FreeOffs(b)[k] == b[i].End() <==> b[i + 1].free
  {
    hide Tiles;
    TilesAll(b, HDRSIZ, |m|);
    TilesAt(b, HDRSIZ, |m|, i);
    assert FreeOffs(b)[k] == FreeOffs(b[i + 1..])[0];
    var j := FreeEntry(b[i + 1..], 0);
  }

  /** The previous free cell touches a live block exactly when it is its neighbour. */
  lemma PrevAdjacent(m: seq<int>, b: seq<Block>, tail: nat, i: nat, k: nat) returns (p: nat)
    requires Below(m, b, tail, i, k)
    ensures p < |b| && b[p].free && b[p].off == Prev(FreeOffs(b), k)
    ensures b[p].End() == b[i].off <==> i > 0 && b[i - 1].free
    ensures b[p].End() == b[i].off ==> k > 0 && p == i - 1
  {
    hide FreeOffs, Tiles;
    var f := FreeOffs(b);
    TilesAll(b, HDRSIZ, |m|);
    p := FreeEntry(b, if k > 0 then k - 1 else |f| - 1);
    if i > 0 && b[i - 1].free {
      OneMore(b, i - 1);
      assert f[..k][k - 1] == b[i - 1].off;
    }
    if k == 0 {
      assert f[|f| - 1] == FreeOffs(b[i + 1..])[|f| - 1];
      EntryAbove(b, |m|, i, |f| - 1);
    }
    if p + 1 < |b| {
      TilesAt(b, HDRSIZ, |m|, p);
    }
    if i > 0 {
      TilesAt(b, HDRSIZ, |m|, i - 1);
    }
    assert p < i || i < p;
  }

  /** What freeing block i does to the free list: one of four edits at entry k. */
  lemma MergeEntries(b: seq<Block>, i: nat, k: nat)
    requires i < |b| - 1 && !b[i].free && k < |FreeOffs(b)|
    requires FreeOffs(b[..i]) == FreeOffs(b)[..k] && FreeOffs(b[i + 1..]) == FreeOffs(b)[k..]
    ensures var (f, left, right) := (FreeOffs(b), i > 0 && b[i - 1].free, b[i + 1].free);
            && (left ==> k > 0 && f[k - 1] == b[i - 1].off)
            && (right ==> f[k] == b[i + 1].off)
            && FreeOffs(Merge(b, i)) ==
               if left && right then f[..k] + f[k + 1..]
               else if left then f
               else if right then f[k := b[i].off]
               else f[..k] + [b[i].off] + f[k..]
  {
    hide FreeOffs, Live, LiveSize, Merge;
    var (f, left, right) := (FreeOffs(b), i > 0 && b[i - 1].free, b[i + 1].free);
    var (below, above) := (FreeOffs(b[..MergeLo(b, i)]), FreeOffs(b[MergeHi(b, i)..]));
    MergeList(b, i);
    MergeRun(b, i);
    if left {
      OneMore(b, i - 1);
    }
    assert |below| == if left then k - 1 else k;
    Edits(f, below, above, if left then [b[i - 1].off] else [], if right then [b[i + 1].off] else [], b[i].off);
  }

  /** Replacing the run l + r between below and above by one entry. */
  lemma Edits(f: seq<nat>, below: seq<nat>, above: seq<nat>, l: seq<nat>, r: seq<nat>, x: nat)
    requires f == below + (l + r) + above && |l| <= 1 && |r| <= 1
    ensures var k := |below| + |l|;
            && (l != [] ==> f[k - 1] == l[0])
            && (r != [] ==> f[k] == r[0])
            && below + [if l != [] then l[0] else x] + above ==
               if l != [] && r != [] then f[..k] + f[k + 1..]
               else if l != [] then f
               else if r != [] then f[k := x]
               else f[..k] + [x] + f[k..]
  {
  }

  /** The words written when block i is freed, its neighbours being free or not. */
  ghost predicate FreeWrites(m: seq<int>, m': seq<int>, b: seq<Block>, tail: nat, i: nat, k: nat)
    requires Below(m, b, tail, i, k)
  {
    var (f, x) := (FreeOffs(b), b[i]);
    var (left, right, c1) := (i > 0 && b[i - 1].free, b[i + 1].free, Prev(f, k));
    if left && right then
      && WritesOnly(m, m', c1, c1, c1, c1 + POFF)
      && m'[c1] == b[i - 1].size + POFF + (x.size + POFF + b[i + 1].size)
      && m'[c1 + POFF] == Next(f, k)
    else if left then
      && WritesOnly(m, m', c1, c1, c1, c1)
      && m'[c1] == b[i - 1].size + POFF + x.size
    else if right then
      && WritesOnly(m, m', x.off, x.off + POFF, x.off + POFF, c1 + POFF)
      && m'[x.off] == x.size + POFF + b[i + 1].size
      && m'[x.off + POFF] == (if |f| == 1 then x.off else Next(f, k))
      && m'[c1 + POFF] == x.off
    else
      && WritesOnly(m, m', x.off + POFF, x.off + POFF, x.off + POFF, c1 + POFF)
      && m'[x.off + POFF] == f[k]
      && m'[c1 + POFF] == x.off
  }

  /** The tail after freeing block i. */
  ghost function FreeTail(b: seq<Block>, tail: nat, i: nat, k: nat): nat
    requires i < |b| - 1 && k < |FreeOffs(b)|
  {
    if b[i + 1].free && k == |FreeOffs(b)| - 1 then (if i > 0 && b[i - 1].free then b[i - 1].off else b[i].off)
    else tail
  }

  /** The link words of the free list are neither block headers near block i nor its own link word. */
  lemma LinkWordsApart(m: seq<int>, b: seq<Block>, tail: nat, i: nat, k: nat)
    requires Below(m, b, tail, i, k)
    ensures forall q :: 0 <= q < |FreeOffs(b)| ==> FreeOffs(b)[q] + POFF < |m|
    ensures forall q, j :: 0 <= q < |FreeOffs(b)| && 0 <= j < |b| ==> FreeOffs(b)[q] + POFF != b[j].off
    ensures forall q :: 0 <= q < |FreeOffs(b)| ==> FreeOffs(b)[q] != b[i].off
  {
    forall q | 0 <= q < |FreeOffs(b)|
      ensures FreeOffs(b)[q] + POFF < |m|
      ensures forall j :: 0 <= j < |b| ==> FreeOffs(b)[q] + POFF != b[j].off
      ensures FreeOffs(b)[q] != b[i].off
    {
      var j := FreeEntry(b, q);
      TilesAll(b, HDRSIZ, |m|);
      assert j < i || i < j;
      EntryApart(b, |m|, q, i);
    }
  }

  /** The list part of FreeWrites, whose writes miss every other link word. */
  ghost predicate LinkWrites(m: seq<int>, m': seq<int>, f: seq<nat>, k: nat, x: nat, left: bool, right: bool)
    requires k < |f| && Prev(f, k) + POFF < |m|
  {
    && |m'| == |m| && x + POFF < |m|
    && (forall q :: 0 <= q < |f| && f[q] + POFF < |m| && f[q] != Prev(f, k) && !(right && q == k) ==> m'[f[q] + POFF] == m[f[q] + POFF])
    && (left && right ==> k > 0 && m'[Prev(f, k) + POFF] == Next(f, k))
    && (left && !right ==> m'[Prev(f, k) + POFF] == m[Prev(f, k) + POFF])
    && (!left && right ==> m'[x + POFF] == (if |f| == 1 then x else Next(f, k)) && m'[Prev(f, k) + POFF] == x)
    && (!left && !right ==> m'[x + POFF] == f[k] && m'[Prev(f, k) + POFF] == x)
  }

  lemma EditLinks(m: seq<int>, m': seq<int>, f: seq<nat>, k: nat, x: nat, left: bool, right: bool, tail: nat)
    requires Linked(m, f, tail) && Increasing(f) && k < |f| && Prev(f, k) + POFF < |m|
    requires LinkWrites(m, m', f, k, x, left, right)
    ensures left && right ==> Linked(m', f[..k] + f[k + 1..], if k == |f| - 1 then f[k - 1] else tail)
    ensures left && !right ==> Linked(m', f, tail)
    ensures !left && right ==> Linked(m', f[k := x], if k == |f| - 1 then x else tail)
    ensures !left && !right ==> Linked(m', f[..k] + [x] + f[k..], tail)
  {
    if left && right {
      ListRemove(m, m', f, k, tail);
    } else if left {
      forall q | 0 <= q < |f|
        ensures LinkAt(m', f, q)
      {
        assert LinkAt(m, f, q);
      }
    } else if right {
      ListReplace(m, m', f, k, x, tail);
    } else {
      ListInsert(m, m', f, k, x, tail);
    }
  }

  lemma FreeLinkWrites(m: seq<int>, m': seq<int>, b: seq<Block>, tail: nat, i: nat, k: nat)
    requires Below(m, b, tail, i, k) && FreeWrites(m, m', b, tail, i, k)
    ensures LinkWrites(m, m', FreeOffs(b), k, b[i].off, i > 0 && b[i - 1].free, b[i + 1].free)
  {
    hide FreeOffs;
    LinkWordsApart(m, b, tail, i, k);
    MergeEntries(b, i, k);
  }

  lemma FreeLinks(m: seq<int>, m': seq<int>, b: seq<Block>, tail: nat, i: nat, k: nat)
    requires Below(m, b, tail, i, k) && FreeWrites(m, m', b, tail, i, k)
    ensures Linked(m', FreeOffs(Merge(b, i)), FreeTail(b, tail, i, k))
  {
    hide FreeOffs, Linked, LinkWrites, FreeWrites, Merge;
    FreeOffsSorted(b, HDRSIZ, |m|);
    MergeEntries(b, i, k);
    FreeLinkWrites(m, m', b, tail, i, k);
    EditLinks(m, m', FreeOffs(b), k, b[i].off, i > 0 && b[i - 1].free, b[i + 1].free, tail);
  }

  lemma MergedSize(m: seq<int>, m': seq<int>, b: seq<Block>, tail: nat, i: nat, k: nat)
    requires Below(m, b, tail, i, k) && FreeWrites(m, m', b, tail, i, k)
    ensures |m'| == |m| && Merged(b, i).off < |m| && m'[Merged(b, i).off] == Merged(b, i).size
  {
    hide FreeOffs, Tiles, SpanSize;
    PrevNoHeader(b, |m|, k);
    MergeEntries(b, i, k);
    SpanOf(b, i);
  }

  lemma OtherSize(m: seq<int>, m': seq<int>, b: seq<Block>, tail: nat, i: nat, k: nat, j: nat)
    requires Below(m, b, tail, i, k) && FreeWrites(m, m', b, tail, i, k)
    requires j < |b| && (j < MergeLo(b, i) || MergeHi(b, i) <= j)
    ensures b[j].off < |m| && m'[b[j].off] == b[j].size
  {
    hide FreeOffs, Tiles, SpanSize;
    MergeEntries(b, i, k);
    TilesAll(b, HDRSIZ, |m|);
    PrevNoHeader(b, |m|, k);
    InsideNoHeader(b, |m|, i, b[i].off + POFF);
  }

  lemma FreeSizes(m: seq<int>, m': seq<int>, b: seq<Block>, tail: nat, i: nat, k: nat)
    requires Below(m, b, tail, i, k) && FreeWrites(m, m', b, tail, i, k)
    ensures forall j :: 0 <= j < |Merge(b, i)| ==> Merge(b, i)[j].off < |m'| && m'[Merge(b, i)[j].off] == Merge(b, i)[j].size
  {
    hide FreeOffs, Tiles, SpanSize, FreeWrites;
    MergedSize(m, m', b, tail, i, k);
    forall j | 0 <= j < |Merge(b, i)| && j != MergeLo(b, i)
      ensures Merge(b, i)[j].off < |m'| && m'[Merge(b, i)[j].off] == Merge(b, i)[j].size
    {
      var j0 := if j < MergeLo(b, i) then j else j - MergeLo(b, i) - 1 + MergeHi(b, i);
      assert Merge(b, i)[j] == b[j0];
      OtherSize(m, m', b, tail, i, k, j0);
    }
  }

  lemma SpanOf(b: seq<Block>, i: nat)
    requires i < |b| - 1
    ensures var (left, right, s) := (i > 0 && b[i - 1].free, b[i + 1].free, SpanSize(b[MergeLo(b, i)..MergeHi(b, i)]));
            && (left && right ==> s == b[i - 1].size + POFF + (b[i].size + POFF + b[i + 1].size))
            && (left && !right ==> s == b[i - 1].size + POFF + b[i].size)
            && (!left && right ==> s == b[i].size + POFF + b[i + 1].size)
            && (!left && !right ==> s == b[i].size)
  {
    var m := b[MergeLo(b, i)..MergeHi(b, i)];
    if |m| > 1 {
      assert m[1..][0] == m[1];
      assert SpanSize(m) == m[0].size + POFF + SpanSize(m[1..]);
      if |m| == 3 {
        assert m[1..][1..][0] == m[2];
        assert SpanSize(m[1..]) == m[1].size + POFF + SpanSize(m[1..][1..]);
      }
    }
  }

  /** Freeing block i in place, whichever neighbours it joins. */
  lemma FreeInMemory(m: seq<int>, m': seq<int>, b: seq<Block>, tail: nat, i: nat, k: nat)
    requires Below(m, b, tail, i, k) && FreeWrites(m, m', b, tail, i, k)
    ensures InMemory(m', Merge(b, i), FreeTail(b, tail, i, k))
  {
    FreeLinks(m, m', b, tail, i, k);
    FreeSizes(m, m', b, tail, i, k);
  }

  // ---- what the allocator leaves alone ---------------------------------------------

  /** No word that reaches into a live block, header or payload, differs between m and m'. */
  ghost predicate Preserved(m: seq<int>, m': seq<int>, live: set<Block>) {
    && |m'| == |m|
    && (forall x, a :: x in live && x.off < a + REFSIZ && 0 <= a < x.End() && a < |m| ==> m'[a] == m[a])
  }

  lemma SplitPreserves(m: seq<int>, m': seq<int>, b: seq<Block>, tail: nat, i: nat, k: nat, req: nat)
    requires At(m, b, tail, i, k) && 8 <= req && POFF + req + 8 < b[i].size
    requires SplitWrites(m, m', b, tail, i, k, req)
    ensures Preserved(m, m', Live(b))
  {
    hide FreeOffs, Tiles;
    forall x, a | x in Live(b) && x.off < a + REFSIZ && 0 <= a < x.End() && a < |m|
      ensures m'[a] == m[a]
    {
      LiveApart(b, |m|, x, i);
      LinkNotLive(b, |m|, x, k);
    }
  }

  lemma WholePreserves(m: seq<int>, b: seq<Block>, tail: nat, i: nat, k: nat)
    requires At(m, b, tail, i, k)
    ensures Preserved(m, m[Prev(FreeOffs(b), k) + POFF := Next(FreeOffs(b), k)], Live(b))
  {
    hide FreeOffs, Tiles;
    var m' := m[Prev(FreeOffs(b), k) + POFF := Next(FreeOffs(b), k)];
    forall x, a | x in Live(b) && x.off < a + REFSIZ && 0 <= a < x.End() && a < |m|
      ensures m'[a] == m[a]
    {
      LinkNotLive(b, |m|, x, k);
    }
  }

  /** The link word of a free cell is in no live block. */
  lemma LinkNotLive(b: seq<Block>, hi: nat, x: Block, k: nat)
    requires Tiles(b, HDRSIZ, hi) && Sized(b) && x in Live(b) && k < |FreeOffs(b)|
    ensures !(x.off < Prev(FreeOffs(b), k) + POFF + REFSIZ && Prev(FreeOffs(b), k) + POFF < x.End())
    ensures !(x.off < Prev(FreeOffs(b), k) + REFSIZ && Prev(FreeOffs(b), k) < x.End())
  {
    var j := FreeEntry(b, if k > 0 then k - 1 else |FreeOffs(b)| - 1);
    LiveApart(b, hi, x, j);
  }

  lemma FreePreserves(m: seq<int>, m': seq<int>, b: seq<Block>, tail: nat, i: nat, k: nat)
    requires Below(m, b, tail, i, k) && FreeWrites(m, m', b, tail, i, k)
    ensures Preserved(m, m', Live(b) - {b[i]})
  {
    hide FreeOffs, Tiles;
    forall x, a | x in Live(b) - {b[i]} && x.off < a + REFSIZ && 0 <= a < x.End() && a < |m|
      ensures m'[a] == m[a]
    {
      TilesAll(b, HDRSIZ, |m|);
      var j :| 0 <= j < |b| && b[j] == x;
      assert j < i || i < j;
      LinkNotLive(b, |m|, x, k);
    }
  }

  /** Whatever a caller stores in the payload of a live block, the heap stays intact. */
  lemma PayloadIsTheCallers(m: seq<int>, m': seq<int>, b: seq<Block>, tail: nat, x: Block)
    requires WellFormed(b, |m|) && InMemory(m, b, tail) && x in Live(b)
    requires |m'| == |m| && forall a :: 0 <= a < |m| && !(x.off + POFF <= a < x.End()) ==> m'[a] == m[a]
    ensures InMemory(m', b, tail)
  {
    TilesAll(b, HDRSIZ, |m|);
    var i :| 0 <= i < |b| && b[i] == x;
    forall j | 0 <= j < |b|
      ensures b[j].off < |m| && m'[b[j].off] == b[j].size
    {
      assert j < i || j == i || i < j;
    }
    hide FreeOffs, Tiles;
    var f := FreeOffs(b);
    forall q | 0 <= q < |f|
      ensures LinkAt(m', f, q)
    {
      assert LinkAt(m, f, q);
      var j := FreeEntry(b, q);
      LiveApart(b, |m|, x, j);
    }
  }

  // ---- summing along the list --------------------------------------------------------

  ghost function Total(m: seq<int>, f: seq<nat>): int
    requires forall k :: 0 <= k < |f| ==> f[k] < |m|
  {
    if f == [] then 0 else Total(m, f[..|f| - 1]) + m[f[|f| - 1]]
  }

  lemma {:induction false} TotalIsFreeSize(m: seq<int>, b: seq<Block>)
    requires forall i :: 0 <= i < |b| ==> b[i].off < |m| && m[b[i].off] == b[i].size
    ensures forall k :: 0 <= k < |FreeOffs(b)| ==> FreeOffs(b)[k] < |m|
    ensures Total(m, FreeOffs(b)) == FreeSize(b)
  {
    if b != [] {
      var c := b[..|b| - 1];
      var x := b[|b| - 1];
      TotalIsFreeSize(m, c);
      assert b == c + [x];
      FreeOffsConcat(c, [x]);
      SizesConcat(c, [x]);
      LiveOne(x);
      if x.free {
        assert FreeOffs(b)[..|FreeOffs(b)| - 1] == FreeOffs(c);
      } else {
        assert FreeOffs(b) == FreeOffs(c);
      }
    }
  }

  ghost function Largest(m: seq<int>, f: seq<nat>): nat
    requires forall k :: 0 <= k < |f| ==> f[k] < |m|
  {
    if f == [] then 0
    else
      var (l, v) := (Largest(m, f[..|f| - 1]), m[f[|f| - 1]]);
      if v > l then v else l
  }

  lemma Nothing(m: seq<int>)
    ensures Total(m, []) == 0 && Largest(m, []) == 0
  {
  }

  /** One more entry visited. */
  lemma Visit(m: seq<int>, f: seq<nat>, q: nat)
    requires (forall k :: 0 <= k < |f| ==> f[k] < |m|) && q < |f|
    ensures Total(m, f[..q + 1]) == Total(m, f[..q]) + m[f[q]]
    ensures Largest(m, f[..q + 1]) == if m[f[q]] > Largest(m, f[..q]) then m[f[q]] else Largest(m, f[..q])
  {
    assert f[..q + 1][..q] == f[..q];
  }

  lemma {:induction false} LargestBounds(m: seq<int>, f: seq<nat>)
    requires forall k :: 0 <= k < |f| ==> f[k] < |m| && 0 < m[f[k]]
    ensures forall k :: 0 <= k < |f| ==> m[f[k]] <= Largest(m, f)
    ensures f != [] ==> exists k :: 0 <= k < |f| && m[f[k]] == Largest(m, f)
  {
    if f != [] {
      LargestBounds(m, f[..|f| - 1]);
      if m[f[|f| - 1]] <= Largest(m, f[..|f| - 1]) {
        var k :| 0 <= k < |f| - 1 && m[f[..|f| - 1][k]] == Largest(m, f[..|f| - 1]);
        assert m[f[k]] == Largest(m, f);
      }
    }
  }

  lemma LargestIs(m: seq<int>, b: seq<Block>, tail: nat)
    requires WellFormed(b, |m|) && InMemory(m, b, tail)
    ensures forall k :: 0 <= k < |FreeOffs(b)| ==> FreeOffs(b)[k] < |m|
    ensures forall x :: x in b && x.free ==> x.size <= Largest(m, FreeOffs(b))
    ensures exists x :: x in b && x.free && x.size == Largest(m, FreeOffs(b))
  {
    var f := FreeOffs(b);
    hide FreeOffs, Tiles;
    forall k | 0 <= k < |f|
      ensures f[k] < |m| && 0 < m[f[k]]
    {
      var i := FreeEntry(b, k);
    }
    LargestBounds(m, f);
    forall x | x in b && x.free
      ensures x.size <= Largest(m, f)
    {
      var i :| 0 <= i < |b| && b[i] == x;
      var k := EntryOf(b, i);
    }
    var k :| 0 <= k < |f| && m[f[k]] == Largest(m, f);
    var i := FreeEntry(b, k);
    assert b[i] in b;
  }

  // ---- walking the list ----------------------------------------------------------------

  /** The first k entries of the list have been looked at and none holds req bytes. */
  ghost predicate Passed(m: seq<int>, b: seq<Block>, tail: nat, req: nat, k: nat) {
    && WellFormed(b, |m|) && InMemory(m, b, tail) && k <= |FreeOffs(b)|
    && (forall q :: 0 <= q < k ==> FreeOffs(b)[q] < |m| && m[FreeOffs(b)[q]] < req)
  }

  /** Following the reference in entry k's predecessor leads to entry k, inside the chunk. */
  lemma Follow(m: seq<int>, b: seq<Block>, tail: nat, k: nat)
    requires WellFormed(b, |m|) && InMemory(m, b, tail) && k < |FreeOffs(b)|
    ensures var (f, c1) := (FreeOffs(b), Prev(FreeOffs(b), k));
            && c1 + POFF < |m| && m[c1 + POFF] == f[k] && HDRSIZ <= f[k] && f[k] + POFF < |m|
            && m[f[k] + POFF] == Next(f, k)
            && (f[k] == tail <==> k == |f| - 1)
            && (c1 == f[k] <==> |f| == 1)
  {
    var f := FreeOffs(b);
    FreeOffsSorted(b, HDRSIZ, |m|);
    hide FreeOffs, Tiles;
    assert LinkAt(m, f, k);
    assert LinkAt(m, f, if k > 0 then k - 1 else |f| - 1);
  }

  /** The walk starts at the tail, which comes before entry 0. */
  lemma Start(m: seq<int>, b: seq<Block>, tail: nat)
    requires InMemory(m, b, tail)
    ensures FreeOffs(b) != [] && tail == Prev(FreeOffs(b), 0)
  {
  }

  lemma Hit(m: seq<int>, b: seq<Block>, tail: nat, req: nat, k: nat)
    requires Passed(m, b, tail, req, k) && k < |FreeOffs(b)|
    requires FreeOffs(b)[k] < |m| && req <= m[FreeOffs(b)[k]]
    ensures var i := FirstFit(b, req);
            At(m, b, tail, i, k) && b[i].off == FreeOffs(b)[k] && req <= b[i].size == m[b[i].off]
  {
    hide FreeOffs, Tiles, FirstFit;
    WalkIsFirstFit(m, b, tail, req, k);
    Follow(m, b, tail, k);
    TilesAll(b, HDRSIZ, |m|);
  }

  /** The predecessor of entry k, and its link word, are outside block i. */
  lemma PrevApart(m: seq<int>, b: seq<Block>, tail: nat, i: nat, k: nat)
    requires At(m, b, tail, i, k)
    ensures m[b[i].off] == b[i].size
    ensures var (c1, x) := (Prev(FreeOffs(b), k), b[i]);
            |FreeOffs(b)| > 1 ==> c1 + POFF < x.off || x.End() <= c1
  {
    FreeOffsSorted(b, HDRSIZ, |m|);
    hide FreeOffs, Tiles;
    if |FreeOffs(b)| > 1 {
      EntryApart(b, |m|, if k > 0 then k - 1 else |FreeOffs(b)| - 1, i);
    }
  }

  /** A live block and the number of list entries below it. */
  lemma LiveIsBelow(m: seq<int>, b: seq<Block>, tail: nat, i: nat)
    requires WellFormed(b, |m|) && InMemory(m, b, tail) && i < |b| && !b[i].free
    ensures Below(m, b, tail, i, |FreeOffs(b[..i])|)
  {
    hide FreeOffs, Tiles, Live, FreeSize, LiveSize, InMemory;
    var k := |FreeOffs(b[..i])|;
    Decompose(b, i);
    Parts(b[..i], [b[i]], b[i + 1..]);
    LiveOne(b[i]);
    assert FreeOffs(b) == FreeOffs(b[..i]) + FreeOffs(b[i + 1..]);
    assert FreeOffs(b)[..k] == FreeOffs(b[..i]) && FreeOffs(b)[k..] == FreeOffs(b[i + 1..]);
    LiveTailOffs(b, i);
    TilesAll(b, HDRSIZ, |m|);
    Follow(m, b, tail, k);
  }

  lemma LiveTailOffs(b: seq<Block>, i: nat)
    requires i < |b| && !b[i].free && b[|b| - 1].free
    ensures FreeOffs(b[i + 1..]) != []
  {
    var q := EntryOf(b[i + 1..], |b| - 1 - (i + 1));
  }

  /** Offsets identify blocks. */
  lemma SameBlock(b: seq<Block>, hi: nat, x: Block, y: Block)
    requires Tiles(b, HDRSIZ, hi) && x in b && y in b && x.off == y.off
    ensures x == y
  {
    TilesAll(b, HDRSIZ, hi);
    var i :| 0 <= i < |b| && b[i] == x;
    var j :| 0 <= j < |b| && b[j] == y;
    assert i < j || i == j || j < i;
  }

  /** Two live blocks are disjoint. */
  lemma LiveDisjoint(b: seq<Block>, hi: nat, x: Block, y: Block)
    requires Tiles(b, HDRSIZ, hi) && x in b && y in b && x != y
    ensures x.End() <= y.off || y.End() <= x.off
    ensures x.End() <= hi
  {
    TilesAll(b, HDRSIZ, hi);
    var i :| 0 <= i < |b| && b[i] == x;
    var j :| 0 <= j < |b| && b[j] == y;
    assert i < j || j < i;
  }

  /** The search for the insertion point goes on exactly while the next entry lies below the block. */
  lemma BeforeInsertion(m: seq<int>, b: seq<Block>, tail: nat, i: nat, k: nat, q: nat)
    requires Below(m, b, tail, i, k) && q <= k
    ensures FreeOffs(b)[q] < b[i].off <==> q < k
    ensures b[i].off < tail
  {
    var f := FreeOffs(b);
    if q < k {
      assert f[..k][q] == f[q];
      EntryBelow(b, |m|, i, q);
    } else {
      assert f[k..][0] == f[k];
      EntryAbove(b, |m|, i, 0);
    }
    assert f[k..][|f| - 1 - k] == f[|f| - 1];
    EntryAbove(b, |m|, i, |f| - 1 - k);
  }

  /** The tail is the last block of the chunk. */
  lemma TailIsLast(m: seq<int>, b: seq<Block>, tail: nat)
    requires WellFormed(b, |m|) && InMemory(m, b, tail)
    ensures forall i :: 0 <= i < |b| ==> (b[i].off == tail <==> i == |b| - 1)
  {
    var n := |b| - 1;
    var k := EntryOf(b, n);
    assert b[n + 1..] == [];
    TilesAll(b, HDRSIZ, |m|);
  }

  /** Clearing a new block does not touch the blocks that were live before it. */
  lemma ClearPreserves(m: seq<int>, m1: seq<int>, m2: seq<int>, b: seq<Block>, live: set<Block>, x: Block)
    requires Tiles(b, HDRSIZ, |m|) && Live(b) == live + {x} && x !in live
    requires Preserved(m, m1, live) && |m2| == |m1|
    requires forall a :: 0 <= a < |m1| && !(x.off + POFF <= a && a + REFSIZ <= x.End()) ==> m2[a] == m1[a]
    ensures Preserved(m, m2, live)
  {
    forall y, a | y in live && y.off < a + REFSIZ && 0 <= a < y.End() && a < |m|
      ensures m2[a] == m[a]
    {
      assert y in Live(b) && x in Live(b);
      LiveDisjoint(b, |m|, x, y);
    }
  }

  /** How suba_free reads the cell after block i. */
  lemma ReadNext(m: seq<int>, b: seq<Block>, tail: nat, i: nat, k: nat)
    requires Below(m, b, tail, i, k)
    ensures var (x, f) := (b[i], FreeOffs(b));
            && m[x.off] == x.size && x.off + POFF < f[k]
            && f[k] + POFF < |m| && (b[i + 1].free ==> f[k] == b[i + 1].off && m[f[k]] == b[i + 1].size)
            && (x.End() == f[k] <==> b[i + 1].free)
            && m[f[k] + POFF] == Next(f, k)
            && (f[k] == tail <==> k == |f| - 1)
            && (Next(f, k) == f[k] <==> |f| == 1)
  {
    hide FreeOffs, Tiles;
    Follow(m, b, tail, k);
    NextAdjacent(m, b, tail, i, k);
    FreeOffsSorted(b, HDRSIZ, |m|);
    TilesAt(b, HDRSIZ, |m|, i);
    assert FreeOffs(b[i + 1..])[0] == FreeOffs(b)[k];
    EntryAbove(b, |m|, i, 0);
  }

  /** How suba_free reads the cell before block i. */
  lemma ReadPrev(m: seq<int>, b: seq<Block>, tail: nat, i: nat, k: nat)
    requires Below(m, b, tail, i, k)
    ensures var (x, f, c1) := (b[i], FreeOffs(b), Prev(FreeOffs(b), k));
            && c1 + POFF < |m| && 0 <= m[c1] && m[c1 + POFF] == f[k]
            && (i > 0 && b[i - 1].free ==> c1 == b[i - 1].off && m[c1] == b[i - 1].size && c1 != f[k])
            && (c1 + POFF + m[c1] == x.off <==> i > 0 && b[i - 1].free)
            && (c1 + POFF < x.off || x.End() <= c1)
  {
    hide FreeOffs, Tiles;
    Follow(m, b, tail, k);
    var p := PrevAdjacent(m, b, tail, i, k);
    TilesAll(b, HDRSIZ, |m|);
    FreeOffsSorted(b, HDRSIZ, |m|);
    assert p < i || i < p;
  }
}
