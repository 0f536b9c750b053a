/** The raw buffer of the sensor as a two-dimensional array of pixels, and the repair of bad pixels. */
module RawSensor {
  import opened Arithmetic
  import opened RawPixels

  /** Rows of whole groups: rowLen bytes hold rowPix pixels, and there are rows of them. */
  datatype Shape = Shape(depth: Depth, rowLen: nat, rowPix: nat, rows: nat) {
    predicate Inside(x: int, y: int) {
      0 <= x < rowPix && 0 <= y < rows
    }

    ghost predicate Holds(size: nat) {
      && rowPix % Pixels(depth) == 0
      && rowPix / Pixels(depth) * Bytes(depth) <= rowLen
      && rows * rowLen <= size
    }

    /** The first byte of the group that pixel (x, y) is in. */
    function GroupAt(x: nat, y: nat): nat {
      y * rowLen + x / Pixels(depth) * Bytes(depth)
    }
  }

  // ---- where the groups are -----------------------------------------------------------------------

  lemma GroupInRow(s: Shape, x: nat, y: nat, size: nat)
    requires s.Holds(size) && s.Inside(x, y)
    ensures y * s.rowLen <= s.GroupAt(x, y)
    ensures s.GroupAt(x, y) + Bytes(s.depth) <= y * s.rowLen + s.rowLen <= size
  {
    var (p, b) := (Pixels(s.depth), Bytes(s.depth));
    assert x / p < s.rowPix / p;
    TimesLess(x / p, s.rowPix / p, b);
    TimesLess(y, s.rows, s.rowLen);
  }

  lemma GroupsApart(s: Shape, x: nat, y: nat, u: nat, v: nat, size: nat)
    requires s.Holds(size) && s.Inside(x, y) && s.Inside(u, v)
    requires y < v || (y == v && x / Pixels(s.depth) < u / Pixels(s.depth))
    ensures s.GroupAt(x, y) + Bytes(s.depth) <= s.GroupAt(u, v)
  {
    GroupInRow(s, x, y, size);
    GroupInRow(s, u, v, size);
    if y < v {
      TimesLess(y, v, s.rowLen);
    } else {
      TimesLess(x / Pixels(s.depth), u / Pixels(s.depth), Bytes(s.depth));
    }
  }

  // ---- pixels -------------------------------------------------------------------------------------

  /** Pixel (x, y) of a buffer. */
  ghost function PixelAt(buf: seq<bv8>, s: Shape, x: nat, y: nat): bv16
    requires s.Holds(|buf|) && s.Inside(x, y)
  {
    GroupInRow(s, x, y, |buf|);
    var o := s.GroupAt(x, y);
    Get(s.depth, buf[o..o + Bytes(s.depth)], x % Pixels(s.depth))
  }

  /** The buffer after a write of pixel (x, y). */
  ghost function Stored(buf: seq<bv8>, s: Shape, x: nat, y: nat, value: bv16): (r: seq<bv8>)
    requires s.Holds(|buf|) && s.Inside(x, y)
    ensures |r| == |buf|
  {
    GroupInRow(s, x, y, |buf|);
    var (o, n) := (s.GroupAt(x, y), Bytes(s.depth));
    buf[..o] + Put(s.depth, buf[o..o + n], x % Pixels(s.depth), value) + buf[o + n..]
  }

  lemma Elsewhere(buf: seq<bv8>, g: seq<bv8>, o: nat, p: nat)
    requires o + |g| <= |buf| && p + |g| <= |buf| && (o + |g| <= p || p + |g| <= o)
    ensures var r := buf[..o] + g + buf[o + |g|..];
            |r| == |buf| && r[p..p + |g|] == buf[p..p + |g|] && r[o..o + |g|] == g
  {
    var r := buf[..o] + g + buf[o + |g|..];
    assert forall i :: p <= i < p + |g| ==> r[i] == buf[i];
  }

  lemma Same(buf: seq<bv8>, g: seq<bv8>, o: nat)
    requires o + |g| <= |buf|
    ensures (buf[..o] + g + buf[o + |g|..])[o..o + |g|] == g
  {
  }

  /** The packed buffer is an array of pixels: a write of a value that fits sets its own pixel alone. */
  lemma StoredPixel(buf: seq<bv8>, s: Shape, x: nat, y: nat, value: bv16, u: nat, v: nat)
    requires s.Holds(|buf|) && s.Inside(x, y) && s.Inside(u, v)
    requires Fits(s.depth, x % Pixels(s.depth), value)
    ensures PixelAt(Stored(buf, s, x, y, value), s, u, v)
         == if (u, v) == (x, y) then Cut(s.depth, value) else PixelAt(buf, s, u, v)
  {
    hide Get, Put, Fits, Cut;
    var (p, o, n) := (Pixels(s.depth), s.GroupAt(x, y), Bytes(s.depth));
    GroupInRow(s, x, y, |buf|);
    GroupInRow(s, u, v, |buf|);
    var g := buf[o..o + n];
    var h := Put(s.depth, g, x % p, value);
    if y == v && x / p == u / p {
      Same(buf, h, o);
      if x == u {
        GetPut(s.depth, x % p, g, value);
      } else {
        assert x % p != u % p;
        GetOther(s.depth, u % p, x % p, g, value);
      }
    } else {
      if y < v || (y == v && x / p < u / p) {
        GroupsApart(s, x, y, u, v, |buf|);
      } else {
        GroupsApart(s, u, v, x, y, |buf|);
      }
      Elsewhere(buf, h, o, s.GroupAt(u, v));
    }
  }

  /** Bytes of no pixel, such as those past the end of a row, are never written. */
  lemma PaddingKept(buf: seq<bv8>, s: Shape, x: nat, y: nat, value: bv16, i: nat)
    requires s.Holds(|buf|) && s.Inside(x, y) && i < |buf|
    requires i < s.GroupAt(x, y) || s.GroupAt(x, y) + Bytes(s.depth) <= i
    ensures Stored(buf, s, x, y, value)[i] == buf[i]
  {
    hide Put;
    GroupInRow(s, x, y, |buf|);
  }

  // ---- repairing a pixel ---------------------------------------------------------------------------

  function Num(v: bv16): nat {
    v as nat
  }

  ghost function SumOf(vs: seq<bv16>): nat {
    if vs == [] then 0 else SumOf(vs[..|vs| - 1]) + Num(vs[|vs| - 1])
  }

  ghost function NonZeros(vs: seq<bv16>): nat {
    if vs == [] then 0 else NonZeros(vs[..|vs| - 1]) + if Num(vs[|vs| - 1]) != 0 then 1 else 0
  }

  /** The nonzero values lie between lo and hi. */
  ghost predicate Within(vs: seq<bv16>, lo: nat, hi: nat) {
    forall i :: 0 <= i < |vs| && Num(vs[i]) != 0 ==> lo <= Num(vs[i]) <= hi
  }

  lemma OneMore(a: nat, k: nat)
    ensures a * (k + 1) == a * k + a
  {
  }

  lemma LastValue(vs: seq<bv16>)
    requires vs != []
    ensures var (c, v) := (vs[..|vs| - 1], Num(vs[|vs| - 1]));
            NonZeros(vs) == NonZeros(c) + (if v != 0 then 1 else 0) && SumOf(vs) == SumOf(c) + v
  {
  }

  lemma {:induction false} SumWithin(vs: seq<bv16>, lo: nat, hi: nat)
    requires Within(vs, lo, hi)
    ensures lo * NonZeros(vs) <= SumOf(vs) <= hi * NonZeros(vs)
  {
    if vs != [] {
      var c := vs[..|vs| - 1];
      SumWithin(c, lo, hi);
      var (k, v) := (NonZeros(c), Num(vs[|vs| - 1]));
      assert v != 0 ==> lo <= v <= hi;
      hide NonZeros, SumOf;
      OneMore(lo, k);
      OneMore(hi, k);
      assert NonZeros(vs) == k + (if v != 0 then 1 else 0) && SumOf(vs) == SumOf(c) + v by {
        LastValue(vs);
      }
    }
  }

  lemma QuotientBetween(a: nat, n: nat, lo: nat, hi: nat)
    requires 0 < n && lo * n <= a <= hi * n
    ensures lo <= a / n <= hi
  {
    var q := a / n;
    assert n * q <= a < n * q + n;
    if q < lo {
      TimesLess(q, lo, n);
    }
    if hi < q {
      TimesLess(hi, q, n);
    }
  }

  /** The mean of the nonzero values lies between any bounds of those values. */
  lemma MeanBetween(vs: seq<bv16>, lo: nat, hi: nat)
    requires Within(vs, lo, hi) && NonZeros(vs) > 0
    ensures lo <= SumOf(vs) / NonZeros(vs) <= hi
  {
    SumWithin(vs, lo, hi);
    QuotientBetween(SumOf(vs), NonZeros(vs), lo, hi);
  }

  lemma NoDifference(n: nat)
    requires n < 0x1_0000
    ensures (n as bv16) as nat - n == 0
  {
  }

  lemma BackAndForth(n: nat)
    requires n < 0x1_0000
    ensures Num(n as bv16) == n
  {
    NoDifference(n);
  }

  lemma GetNarrow(d: Depth, k: nat, g: seq<bv8>)
    requires |g| == Bytes(d) && k < Pixels(d)
    ensures Get(d, g, k) & Full(d) == Get(d, g, k)
  {
  }

  lemma NarrowBelow(d: Depth, v: bv16)
    requires v & Full(d) == v
    ensures Num(v) <= Largest(d)
  {
  }

  lemma BelowNarrow(d: Depth, v: bv16)
    requires Num(v) <= Largest(d)
    ensures Cut(d, v) == v
  {
  }

  lemma Uncut(d: Depth, n: nat)
    requires n <= Largest(d)
    ensures Cut(d, n as bv16) == n as bv16
  {
    hide Cut, Num;
    BackAndForth(n);
    BelowNarrow(d, n as bv16);
  }

  lemma SmallFits(d: Depth, k: nat, n: nat)
    requires n <= Largest(d)
    ensures Fits(d, k, n as bv16)
  {
    Uncut(d, n);
    NarrowFits(d, k, n as bv16);
  }

  function Largest(d: Depth): nat {
    match d
    case Ten => 1023
    case Twelve => 4095
    case Fourteen => 16383
  }

  lemma PixelBelow(buf: seq<bv8>, s: Shape, x: nat, y: nat)
    requires s.Holds(|buf|) && s.Inside(x, y)
    ensures Num(PixelAt(buf, s, x, y)) <= Largest(s.depth)
  {
    hide Get, Full, Largest, Num;
    GroupInRow(s, x, y, |buf|);
    var o := s.GroupAt(x, y);
    GetNarrow(s.depth, x % Pixels(s.depth), buf[o..o + Bytes(s.depth)]);
    NarrowBelow(s.depth, PixelAt(buf, s, x, y));
  }

  /** The settings that decide what happens to a bad pixel. */
  datatype Settings = Settings(badPixelRemoval: int, saveRaw: bool, dngRaw: bool) {
    predicate Interpolates() {
      badPixelRemoval == 1 || (saveRaw && dngRaw)
    }
  }

  /** Two pixels from the border, so that the diagonal neighbours of the same colour exist. */
  predicate Inner(s: Shape, x: int, y: int) {
    2 <= x < s.rowPix - 2 && 2 <= y < s.rows - 2
  }

  ghost function Corners(buf: seq<bv8>, s: Shape, x: nat, y: nat): seq<bv16>
    requires s.Holds(|buf|) && Inner(s, x, y)
  {
    [PixelAt(buf, s, x - 2, y - 2), PixelAt(buf, s, x - 2, y + 2),
     PixelAt(buf, s, x + 2, y - 2), PixelAt(buf, s, x + 2, y + 2)]
  }

  lemma CornersBelow(buf: seq<bv8>, s: Shape, x: nat, y: nat)
    requires s.Holds(|buf|) && Inner(s, x, y)
    ensures Within(Corners(buf, s, x, y), 0, Largest(s.depth))
  {
    hide PixelAt, Largest, Num;
    PixelBelow(buf, s, x - 2, y - 2);
    PixelBelow(buf, s, x - 2, y + 2);
    PixelBelow(buf, s, x + 2, y - 2);
    PixelBelow(buf, s, x + 2, y + 2);
  }

  ghost function Mean(buf: seq<bv8>, s: Shape, x: nat, y: nat): (r: nat)
    requires s.Holds(|buf|) && Inner(s, x, y) && NonZeros(Corners(buf, s, x, y)) > 0
    ensures r <= Largest(s.depth) < 0x1_0000
  {
    CornersBelow(buf, s, x, y);
    MeanBetween(Corners(buf, s, x, y), 0, Largest(s.depth));
    SumOf(Corners(buf, s, x, y)) / NonZeros(Corners(buf, s, x, y))
  }

  ghost function Patched(buf: seq<bv8>, s: Shape, c: Settings, x: nat, y: nat): (r: seq<bv8>)
    requires s.Holds(|buf|)
    ensures |r| == |buf|
  {
    if !Inner(s, x, y) then buf
    else if c.Interpolates() then
      if NonZeros(Corners(buf, s, x, y)) > 0 then Stored(buf, s, x, y, Mean(buf, s, x, y) as bv16) else buf
    else if c.badPixelRemoval == 2 then Stored(buf, s, x, y, 0)
    else buf
  }

  /** Repairing a pixel changes no other. */
  lemma PatchedElsewhere(buf: seq<bv8>, s: Shape, c: Settings, x: nat, y: nat, u: nat, v: nat)
    requires s.Holds(|buf|) && s.Inside(u, v) && (u, v) != (x, y)
    ensures PixelAt(Patched(buf, s, c, x, y), s, u, v) == PixelAt(buf, s, u, v)
  {
    hide PixelAt, Stored, Cut, Fits, Mean, Largest;
    if Inner(s, x, y) {
      var k := x % Pixels(s.depth);
      if c.Interpolates() {
        if NonZeros(Corners(buf, s, x, y)) > 0 {
          var n := Mean(buf, s, x, y);
          SmallFits(s.depth, k, n);
          StoredPixel(buf, s, x, y, n as bv16, u, v);
        }
      } else if c.badPixelRemoval == 2 {
        SmallFits(s.depth, k, 0);
        StoredPixel(buf, s, x, y, 0, u, v);
      }
    }
  }

  /** An interpolated pixel lies between the least and the greatest nonzero diagonal neighbour. */
  lemma InterpolatedBetween(buf: seq<bv8>, s: Shape, c: Settings, x: nat, y: nat, lo: nat, hi: nat)
    requires s.Holds(|buf|) && Inner(s, x, y) && c.Interpolates()
    requires Within(Corners(buf, s, x, y), lo, hi)
    ensures var (vs, r) := (Corners(buf, s, x, y), PixelAt(Patched(buf, s, c, x, y), s, x, y));
            if NonZeros(vs) > 0 then lo <= Num(r) <= hi && Num(r) == SumOf(vs) / NonZeros(vs)
            else r == PixelAt(buf, s, x, y)
  {
    hide PixelAt, Stored, Cut, Fits, Largest, SumOf, NonZeros, Within, Num;
    if NonZeros(Corners(buf, s, x, y)) > 0 {
      var n := Mean(buf, s, x, y);
      MeanBetween(Corners(buf, s, x, y), lo, hi);
      SmallFits(s.depth, x % Pixels(s.depth), n);
      Uncut(s.depth, n);
      StoredPixel(buf, s, x, y, n as bv16, x, y);
      BackAndForth(n);
    }
  }

  /** For a raw converter that finds bad pixels itself, a bad pixel is set to zero. */
  lemma ZeroedPixel(buf: seq<bv8>, s: Shape, c: Settings, x: nat, y: nat)
    requires s.Holds(|buf|) && Inner(s, x, y) && !c.Interpolates() && c.badPixelRemoval == 2
    ensures PixelAt(Patched(buf, s, c, x, y), s, x, y) == 0
  {
    hide PixelAt, Stored, Cut, Fits, Largest;
    SmallFits(s.depth, x % Pixels(s.depth), 0);
    Uncut(s.depth, 0);
    StoredPixel(buf, s, x, y, 0, x, y);
  }

  lemma NoValues()
    ensures SumOf([]) == 0 && NonZeros([]) == 0
  {
  }

  lemma FourValues(a: bv16, b: bv16, c: bv16, d: bv16)
    ensures SumOf([a, b, c, d]) == Num(a) + Num(b) + Num(c) + Num(d)
    ensures NonZeros([a, b, c, d])
         == (if Num(a) == 0 then 0 else 1) + (if Num(b) == 0 then 0 else 1) + (if Num(c) == 0 then 0 else 1) + (if Num(d) == 0 then 0 else 1)
  {
    hide Num, SumOf, NonZeros;
    NoValues();
    assert [a, b, c, d][..3] == [a, b, c] && [a, b, c][..2] == [a, b] && [a, b][..1] == [a] && [a][..0] == [];
    LastValue([a, b, c, d]);
    LastValue([a, b, c]);
    LastValue([a, b]);
    LastValue([a]);
  }

  /** What becomes of a pixel, with its diagonal neighbours a, b, c and d, under each setting. */
  ghost predicate Repaired(s: Shape, c: Settings, x: nat, y: nat, nw: nat, sw: nat, ne: nat, se: nat, was: nat, now: nat) {
    var n := (if nw == 0 then 0 else 1) + (if sw == 0 then 0 else 1) + (if ne == 0 then 0 else 1) + (if se == 0 then 0 else 1);
    if c.badPixelRemoval == 1 || (c.saveRaw && c.dngRaw) then
      if n > 0 then now == (nw + sw + ne + se) / n else now == was
    else now == if c.badPixelRemoval == 2 then 0 else was
  }

  /** The whole effect of a repair: two pixels from the border, on the pixel itself, as the settings say. */
  lemma RepairIs(buf: seq<bv8>, s: Shape, c: Settings, x: nat, y: nat)
    requires s.Holds(|buf|) && s.Inside(x, y)
    ensures x < 2 || s.rowPix < x + 3 || y < 2 || s.rows < y + 3 ==> Patched(buf, s, c, x, y) == buf
    ensures 2 <= x && x + 3 <= s.rowPix && 2 <= y && y + 3 <= s.rows ==>
              Repaired(s, c, x, y, Num(PixelAt(buf, s, x - 2, y - 2)), Num(PixelAt(buf, s, x - 2, y + 2)),
                       Num(PixelAt(buf, s, x + 2, y - 2)), Num(PixelAt(buf, s, x + 2, y + 2)),
                       Num(PixelAt(buf, s, x, y)), Num(PixelAt(Patched(buf, s, c, x, y), s, x, y)))
  {
    hide PixelAt, Repaired;
    if Inner(s, x, y) {
      InnerRepaired(buf, s, c, x, y);
    }
  }

  lemma InnerRepaired(buf: seq<bv8>, s: Shape, c: Settings, x: nat, y: nat)
    requires s.Holds(|buf|) && Inner(s, x, y)
    ensures Repaired(s, c, x, y, Num(PixelAt(buf, s, x - 2, y - 2)), Num(PixelAt(buf, s, x - 2, y + 2)),
                     Num(PixelAt(buf, s, x + 2, y - 2)), Num(PixelAt(buf, s, x + 2, y + 2)),
                     Num(PixelAt(buf, s, x, y)), Num(PixelAt(Patched(buf, s, c, x, y), s, x, y)))
  {
    hide PixelAt, Stored, SumOf, NonZeros, Within, Mean, Num, Largest, Shape.Holds;
    if c.Interpolates() {
      hide Patched;
      FourValues(PixelAt(buf, s, x - 2, y - 2), PixelAt(buf, s, x - 2, y + 2), PixelAt(buf, s, x + 2, y - 2), PixelAt(buf, s, x + 2, y + 2));
      CornersBelow(buf, s, x, y);
      InterpolatedBetween(buf, s, c, x, y, 0, Largest(s.depth));
    } else if c.badPixelRemoval == 2 {
      hide Patched;
      ZeroedPixel(buf, s, c, x, y);
      assert Num(0) == 0 by { BackAndForth(0); }
    }
  }

  /** The repairs of a list, first to last. */
  ghost function PatchedAll(buf: seq<bv8>, s: Shape, c: Settings, list: seq<(nat, nat)>): (r: seq<bv8>)
    requires s.Holds(|buf|)
    ensures |r| == |buf|
  {
    if list == [] then buf
    else
      var (x, y) := list[|list| - 1];
      Patched(PatchedAll(buf, s, c, list[..|list| - 1]), s, c, x, y)
  }

  /** The first repair comes first. */
  lemma {:induction false} FirstRepairFirst(buf: seq<bv8>, s: Shape, c: Settings, p: (nat, nat), rest: seq<(nat, nat)>)
    requires s.Holds(|buf|)
    ensures PatchedAll(buf, s, c, [p] + rest) == PatchedAll(Patched(buf, s, c, p.0, p.1), s, c, rest)
    decreases |rest|
  {
    hide Patched;
    if rest == [] {
      assert [p] + rest == [p] && [p][..0] == [];
    } else {
      var k := |rest| - 1;
      assert ([p] + rest)[..k + 1] == [p] + rest[..k];
      FirstRepairFirst(buf, s, c, p, rest[..k]);
    }
  }

  /** Only listed pixels change. */
  lemma {:induction false} OnlyListedChange(buf: seq<bv8>, s: Shape, c: Settings, list: seq<(nat, nat)>, u: nat, v: nat)
    requires s.Holds(|buf|) && s.Inside(u, v) && (u, v) !in list
    ensures PixelAt(PatchedAll(buf, s, c, list), s, u, v) == PixelAt(buf, s, u, v)
  {
    hide PixelAt, Patched;
    if list != [] {
      var (x, y) := list[|list| - 1];
      OnlyListedChange(buf, s, c, list[..|list| - 1], u, v);
      PatchedElsewhere(PatchedAll(buf, s, c, list[..|list| - 1]), s, c, x, y, u, v);
    }
  }

  // ---- the buffer in memory -------------------------------------------------------------------------

  class Sensor {
    const shape: Shape
    const raw: array<bv8>

    ghost predicate Valid() {
      shape.Holds(raw.Length)
    }

    /** The writes of one pixel of the group at byte o. */
    method Set10(o: nat, k: nat, value: bv16)
      requires o + 10 <= raw.Length && k < 8
      modifies raw
      ensures raw[o..o + 10] == Put10(old(raw[o..o + 10]), k, value)
      ensures raw[..o] == old(raw[..o]) && raw[o + 10..] == old(raw[o + 10..])
    {
      hide Low, Mix;
      ghost var was := raw[o..o + 10];
      match k {
        case 0 =>
          raw[o] := Mix(raw[o], 0x3F, Low(value << 6));
          raw[o + 1] := Low(value >> 2);
          assert raw[o..o + 10] == was[0 := raw[o]][1 := raw[o + 1]];
        case 1 =>
          raw[o] := Mix(raw[o], 0xC0, Low(value >> 4));
          raw[o + 3] := Mix(raw[o + 3], 0x0F, Low(value << 4));
          assert raw[o..o + 10] == was[0 := raw[o]][3 := raw[o + 3]];
        case 2 =>
          raw[o + 2] := Mix(raw[o + 2], 0x03, Low(value << 2));
          raw[o + 3] := Mix(raw[o + 3], 0xF0, Low(value >> 6));
          assert raw[o..o + 10] == was[2 := raw[o + 2]][3 := raw[o + 3]];
        case 3 =>
          raw[o + 2] := Mix(raw[o + 2], 0xFC, Low(value >> 8));
          raw[o + 5] := Low(value);
          assert raw[o..o + 10] == was[2 := raw[o + 2]][5 := raw[o + 5]];
        case 4 =>
          raw[o + 4] := Low(value >> 2);
          raw[o + 7] := Mix(raw[o + 7], 0x3F, Low(value << 6));
          assert raw[o..o + 10] == was[4 := raw[o + 4]][7 := raw[o + 7]];
        case 5 =>
          raw[o + 6] := Mix(raw[o + 6], 0x0F, Low(value << 4));
          raw[o + 7] := Mix(raw[o + 7], 0xC0, Low(value >> 4));
          assert raw[o..o + 10] == was[6 := raw[o + 6]][7 := raw[o + 7]];
        case 6 =>
          raw[o + 6] := Mix(raw[o + 6], 0xF0, Low(value >> 6));
          raw[o + 9] := Mix(raw[o + 9], 0x03, Low(value << 2));
          assert raw[o..o + 10] == was[6 := raw[o + 6]][9 := raw[o + 9]];
        case _ =>
          raw[o + 8] := Low(value);
          raw[o + 9] := Mix(raw[o + 9], 0xFC, Low(value >> 8));
          assert raw[o..o + 10] == was[8 := raw[o + 8]][9 := raw[o + 9]];
      }
    }

    /** The writes of one pixel of the group at byte o. */
    method Set12(o: nat, k: nat, value: bv16)
      requires o + 6 <= raw.Length && k < 4
      modifies raw
      ensures raw[o..o + 6] == Put12(old(raw[o..o + 6]), k, value)
      ensures raw[..o] == old(raw[..o]) && raw[o + 6..] == old(raw[o + 6..])
    {
      hide Low, Mix;
      ghost var was := raw[o..o + 6];
      match k {
        case 0 =>
          raw[o] := Mix(raw[o], 0x0F, Low(value << 4));
          raw[o + 1] := Low(value >> 4);
          assert raw[o..o + 6] == was[0 := raw[o]][1 := raw[o + 1]];
        case 1 =>
          raw[o] := Mix(raw[o], 0xF0, Low(value >> 8));
          raw[o + 3] := Low(value);
          assert raw[o..o + 6] == was[0 := raw[o]][3 := raw[o + 3]];
        case 2 =>
          raw[o + 2] := Low(value >> 4);
          raw[o + 5] := Mix(raw[o + 5], 0x0F, Low(value << 4));
          assert raw[o..o + 6] == was[2 := raw[o + 2]][5 := raw[o + 5]];
        case _ =>
          raw[o + 4] := Low(value);
          raw[o + 5] := Mix(raw[o + 5], 0xF0, Low(value >> 8));
          assert raw[o..o + 6] == was[4 := raw[o + 4]][5 := raw[o + 5]];
      }
    }

    method Set14Low(o: nat, k: nat, value: bv16)
      requires o + 14 <= raw.Length && k < 4
      modifies raw
      ensures raw[o..o + 14] == Put14(old(raw[o..o + 14]), k, value)
      ensures raw[..o] == old(raw[..o]) && raw[o + 14..] == old(raw[o + 14..])
    {
      hide Low, Mix;
      ghost var was := raw[o..o + 14];
      match k {
        case 0 =>
          raw[o] := Mix(raw[o], 0x03, Low(value << 2));
          raw[o + 1] := Low(value >> 6);
          assert raw[o..o + 14] == was[0 := raw[o]][1 := raw[o + 1]];
        case 1 =>
          raw[o] := Mix(raw[o], 0xFC, Low(value >> 12));
          raw[o + 2] := Mix(raw[o + 2], 0x0F, Low(value << 4));
          raw[o + 3] := Low(value >> 4);
          assert raw[o..o + 14] == was[0 := raw[o]][2 := raw[o + 2]][3 := raw[o + 3]];
        case 2 =>
          raw[o + 2] := Mix(raw[o + 2], 0xF0, Low(value >> 10));
          raw[o + 4] := Mix(raw[o + 4], 0x3F, Low(value << 6));
          raw[o + 5] := Low(value >> 2);
          assert raw[o..o + 14] == was[2 := raw[o + 2]][4 := raw[o + 4]][5 := raw[o + 5]];
        case _ =>
          raw[o + 4] := Mix(raw[o + 4], 0xC0, Low(value >> 8));
          raw[o + 7] := Low(value);
          assert raw[o..o + 14] == was[4 := raw[o + 4]][7 := raw[o + 7]];
      }
    }

    method Set14High(o: nat, k: nat, value: bv16)
      requires o + 14 <= raw.Length && 4 <= k < 8
      modifies raw
      ensures raw[o..o + 14] == Put14(old(raw[o..o + 14]), k, value)
      ensures raw[..o] == old(raw[..o]) && raw[o + 14..] == old(raw[o + 14..])
    {
      hide Low, Mix;
      ghost var was := raw[o..o + 14];
      match k {
        case 4 =>
          raw[o + 6] := Low(value >> 6);
          raw[o + 9] := Mix(raw[o + 9], 0x03, Low(value << 2));
          assert raw[o..o + 14] == was[6 := raw[o + 6]][9 := raw[o + 9]];
        case 5 =>
          raw[o + 8] := Low(value >> 4);
          raw[o + 9] := Mix(raw[o + 9], 0xFC, Low(value >> 12));
          raw[o + 11] := Mix(raw[o + 11], 0x0F, Low(value << 4));
          assert raw[o..o + 14] == was[8 := raw[o + 8]][9 := raw[o + 9]][11 := raw[o + 11]];
        case 6 =>
          raw[o + 10] := Low(value >> 2);
          raw[o + 11] := Mix(raw[o + 11], 0xF0, Low(value >> 10));
          raw[o + 13] := Mix(raw[o + 13], 0x3F, Low(value << 6));
          assert raw[o..o + 14] == was[10 := raw[o + 10]][11 := raw[o + 11]][13 := raw[o + 13]];
        case _ =>
          raw[o + 12] := Low(value);
          raw[o + 13] := Mix(raw[o + 13], 0xC0, Low(value >> 8));
          assert raw[o..o + 14] == was[12 := raw[o + 12]][13 := raw[o + 13]];
      }
    }

    /** The writes of one pixel of the group at byte o, the switch in two halves. */
    method Set14(o: nat, k: nat, value: bv16)
      requires o + 14 <= raw.Length && k < 8
      modifies raw
      ensures raw[o..o + 14] == Put14(old(raw[o..o + 14]), k, value)
      ensures raw[..o] == old(raw[..o]) && raw[o + 14..] == old(raw[o + 14..])
    {
      hide Put14;
      if k < 4 {
        Set14Low(o, k, value);
      } else {
        Set14High(o, k, value);
      }
    }

    method SetRawPixel(x: nat, y: nat, value: bv16)
      requires Valid() && shape.Inside(x, y)
      modifies raw
      ensures raw[..] == Stored(old(raw[..]), shape, x, y, value)
    {
      hide Put10, Put12, Put14;
      GroupInRow(shape, x, y, raw.Length);
      var o := shape.GroupAt(x, y);
      match shape.depth {
        case Ten => Set10(o, x % 8, value);
        case Twelve => Set12(o, x % 4, value);
        case Fourteen => Set14(o, x % 8, value);
      }
      ghost var n := Bytes(shape.depth);
      assert raw[..] == raw[..o] + raw[o..o + n] + raw[o + n..];
      assert old(raw[..])[o..o + n] == old(raw[o..o + n]);
    }

    function GetRawPixel(x: nat, y: nat): (v: bv16)
      requires Valid() && shape.Inside(x, y)
      reads raw
      ensures v == PixelAt(raw[..], shape, x, y)
    {
      GroupInRow(shape, x, y, raw.Length);
      var o := shape.GroupAt(x, y);
      Get(shape.depth, raw[o..o + Bytes(shape.depth)], x % Pixels(shape.depth))
    }

    /** The loops over the diagonal neighbours: the sum and the number of the nonzero ones. */
    method SumCorners(x: nat, y: nat) returns (sum: nat, nzero: nat)
      requires Valid() && Inner(shape, x, y)
      ensures sum == SumOf(Corners(raw[..], shape, x, y)) && nzero == NonZeros(Corners(raw[..], shape, x, y))
    {
      hide PixelAt, Num;
      sum, nzero := 0, 0;
      ghost var (vs, k) := (Corners(raw[..], shape, x, y), 0);
      var i := -2;
      while i <= 2
        invariant i in {-2, 0, 2, 4}
        invariant k == (if i == -2 then 0 else if i == 4 then 4 else 2)
        invariant sum == SumOf(vs[..k]) && nzero == NonZeros(vs[..k])
      {
        var j := -2;
        ghost var k0 := k;
        while j <= 2
          invariant j in {-2, 0, 2, 4}
          invariant k == (if i == 0 then k0 else k0 + if j == -2 then 0 else if j == 4 then 2 else 1)
          invariant sum == SumOf(vs[..k]) && nzero == NonZeros(vs[..k])
        {
          if i != 0 && j != 0 {
            var val := GetRawPixel(x + i, y + j);
            assert val == vs[k];
            LastValue(vs[..k + 1]);
            assert vs[..k + 1][..k] == vs[..k];
            if Num(val) != 0 {
              sum := sum + Num(val);
              nzero := nzero + 1;
            }
            k := k + 1;
          }
          j := j + 2;
        }
        i := i + 2;
      }
      assert vs[..4] == vs;
    }

    method PatchBadPixel(c: Settings, x: nat, y: nat)
      requires Valid()
      modifies raw
      ensures raw[..] == Patched(old(raw[..]), shape, c, x, y)
    {
      hide PixelAt, SumOf, NonZeros;
      if x >= 2 && x < shape.rowPix - 2 && y >= 2 && y < shape.rows - 2 {
        if c.badPixelRemoval == 1 || (c.saveRaw && c.dngRaw) {
          var sum, nzero := SumCorners(x, y);
          if nzero != 0 {
            assert sum / nzero == Mean(raw[..], shape, x, y);
            SetRawPixel(x, y, (sum / nzero) as bv16);
          }
        } else if c.badPixelRemoval == 2 {
          SetRawPixel(x, y, 0);
        }
      }
    }

    method PatchBadPixels(c: Settings, pixelList: seq<(nat, nat)>)
      requires Valid()
      modifies raw
      ensures raw[..] == PatchedAll(old(raw[..]), shape, c, pixelList)
    {
      hide Patched;
      for n := 0 to |pixelList|
        invariant raw[..] == PatchedAll(old(raw[..]), shape, c, pixelList[..n])
      {
        PatchBadPixel(c, pixelList[n].0, pixelList[n].1);
        assert pixelList[..n + 1][..n] == pixelList[..n];
      }
      assert pixelList[..|pixelList|] == pixelList;
    }
  }
}
