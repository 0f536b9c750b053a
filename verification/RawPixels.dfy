/** Sensor pixels of 10, 12 and 14 bits, packed into groups of bytes. */
module RawPixels {
  datatype Depth = Ten | Twelve | Fourteen

  /** The pixels of a group, the least number that fills whole 16-bit words. */
  function Pixels(d: Depth): nat {
    if d == Twelve then 4 else 8
  }

  function Bytes(d: Depth): nat {
    match d
    case Ten => 10
    case Twelve => 6
    case Fourteen => 14
  }

  function Low(v: bv16): bv8 {
    (v & 0xFF) as bv8
  }

  function Wide(b: bv8): bv16 {
    b as bv16
  }

  /** The bits of b in the mask, and w. */
  function Mix(b: bv8, mask: bv8, w: bv8): bv8 {
    (b & mask) | w
  }

  // ---- one group, as the source reads and writes it -------------------------------------------

  // The pixel that starts at the bit the number names of byte a, and goes on in b and c.

  function Ten0(a: bv8, b: bv8): bv16 {
    (0x3fc & (Wide(a) << 2)) | (Wide(b) >> 6)
  }

  function Ten2(a: bv8, b: bv8): bv16 {
    (0x3f0 & (Wide(a) << 4)) | (Wide(b) >> 4)
  }

  function Ten4(a: bv8, b: bv8): bv16 {
    (0x3c0 & (Wide(a) << 6)) | (Wide(b) >> 2)
  }

  function Ten6(a: bv8, b: bv8): bv16 {
    (0x300 & (Wide(a) << 8)) | Wide(b)
  }

  function Twelve0(a: bv8, b: bv8): bv16 {
    (Wide(a) << 4) | (Wide(b) >> 4)
  }

  function Twelve4(a: bv8, b: bv8): bv16 {
    (Wide(a & 0x0F) << 8) | Wide(b)
  }

  function Fourteen0(a: bv8, b: bv8): bv16 {
    (Wide(a) << 6) | (Wide(b) >> 2)
  }

  function Fourteen6(a: bv8, b: bv8, c: bv8): bv16 {
    (Wide(a & 0x03) << 12) | (Wide(b) << 4) | (Wide(c) >> 4)
  }

  function Fourteen4(a: bv8, b: bv8, c: bv8): bv16 {
    (Wide(a & 0x0F) << 10) | (Wide(b) << 2) | (Wide(c) >> 6)
  }

  function Fourteen2(a: bv8, b: bv8): bv16 {
    (Wide(a & 0x3F) << 8) | Wide(b)
  }

  function Put10(g: seq<bv8>, k: nat, v: bv16): (r: seq<bv8>)
    requires |g| == 10 && k < 8
    ensures |r| == 10
  {
    match k
    case 0 => g[0 := Mix(g[0], 0x3F, Low(v << 6))][1 := Low(v >> 2)]
    case 1 => g[0 := Mix(g[0], 0xC0, Low(v >> 4))][3 := Mix(g[3], 0x0F, Low(v << 4))]
    case 2 => g[2 := Mix(g[2], 0x03, Low(v << 2))][3 := Mix(g[3], 0xF0, Low(v >> 6))]
    case 3 => g[2 := Mix(g[2], 0xFC, Low(v >> 8))][5 := Low(v)]
    case 4 => g[4 := Low(v >> 2)][7 := Mix(g[7], 0x3F, Low(v << 6))]
    case 5 => g[6 := Mix(g[6], 0x0F, Low(v << 4))][7 := Mix(g[7], 0xC0, Low(v >> 4))]
    case 6 => g[6 := Mix(g[6], 0xF0, Low(v >> 6))][9 := Mix(g[9], 0x03, Low(v << 2))]
    case _ => g[8 := Low(v)][9 := Mix(g[9], 0xFC, Low(v >> 8))]
  }

  function Get10(g: seq<bv8>, k: nat): bv16
    requires |g| == 10 && k < 8
  {
    match k
    case 0 => Ten0(g[1], g[0])
    case 1 => Ten2(g[0], g[3])
    case 2 => Ten4(g[3], g[2])
    case 3 => Ten6(g[2], g[5])
    case 4 => Ten0(g[4], g[7])
    case 5 => Ten2(g[7], g[6])
    case 6 => Ten4(g[6], g[9])
    case _ => Ten6(g[9], g[8])
  }

  function Put12(g: seq<bv8>, k: nat, v: bv16): (r: seq<bv8>)
    requires |g| == 6 && k < 4
    ensures |r| == 6
  {
    match k
    case 0 => g[0 := Mix(g[0], 0x0F, Low(v << 4))][1 := Low(v >> 4)]
    case 1 => g[0 := Mix(g[0], 0xF0, Low(v >> 8))][3 := Low(v)]
    case 2 => g[2 := Low(v >> 4)][5 := Mix(g[5], 0x0F, Low(v << 4))]
    case _ => g[4 := Low(v)][5 := Mix(g[5], 0xF0, Low(v >> 8))]
  }

  function Get12(g: seq<bv8>, k: nat): bv16
    requires |g| == 6 && k < 4
  {
    match k
    case 0 => Twelve0(g[1], g[0])
    case 1 => Twelve4(g[0], g[3])
    case 2 => Twelve0(g[2], g[5])
    case _ => Twelve4(g[5], g[4])
  }

  function Put14(g: seq<bv8>, k: nat, v: bv16): (r: seq<bv8>)
    requires |g| == 14 && k < 8
    ensures |r| == 14
  {
    match k
    case 0 => g[0 := Mix(g[0], 0x03, Low(v << 2))][1 := Low(v >> 6)]
    case 1 => g[0 := Mix(g[0], 0xFC, Low(v >> 12))][2 := Mix(g[2], 0x0F, Low(v << 4))][3 := Low(v >> 4)]
    case 2 => g[2 := Mix(g[2], 0xF0, Low(v >> 10))][4 := Mix(g[4], 0x3F, Low(v << 6))][5 := Low(v >> 2)]
    case 3 => g[4 := Mix(g[4], 0xC0, Low(v >> 8))][7 := Low(v)]
    case 4 => g[6 := Low(v >> 6)][9 := Mix(g[9], 0x03, Low(v << 2))]
    case 5 => g[8 := Low(v >> 4)][9 := Mix(g[9], 0xFC, Low(v >> 12))][11 := Mix(g[11], 0x0F, Low(v << 4))]
    case 6 => g[10 := Low(v >> 2)][11 := Mix(g[11], 0xF0, Low(v >> 10))][13 := Mix(g[13], 0x3F, Low(v << 6))]
    case _ => g[12 := Low(v)][13 := Mix(g[13], 0xC0, Low(v >> 8))]
  }

  function Get14(g: seq<bv8>, k: nat): bv16
    requires |g| == 14 && k < 8
  {
    match k
    case 0 => Fourteen0(g[1], g[0])
    case 1 => Fourteen6(g[0], g[3], g[2])
    case 2 => Fourteen4(g[2], g[5], g[4])
    case 3 => Fourteen2(g[4], g[7])
    case 4 => Fourteen0(g[6], g[9])
    case 5 => Fourteen6(g[9], g[8], g[11])
    case 6 => Fourteen4(g[11], g[10], g[13])
    case _ => Fourteen2(g[13], g[12])
  }

  function Put(d: Depth, g: seq<bv8>, k: nat, v: bv16): (r: seq<bv8>)
    requires |g| == Bytes(d) && k < Pixels(d)
    ensures |r| == |g|
  {
    match d
    case Ten => Put10(g, k, v)
    case Twelve => Put12(g, k, v)
    case Fourteen => Put14(g, k, v)
  }

  function Get(d: Depth, g: seq<bv8>, k: nat): bv16
    requires |g| == Bytes(d) && k < Pixels(d)
  {
    match d
    case Ten => Get10(g, k)
    case Twelve => Get12(g, k)
    case Fourteen => Get14(g, k)
  }

  // ---- which bits of a group belong to which pixel -----------------------------------------------

  /** A byte of a group: the pixel its high bits belong to and those bits, and the same of its other bits. */
  datatype Share = Share(high: nat, mask: bv8, low: nat, rest: bv8)

  function ShareOf(d: Depth, i: nat): Share {
    match d
    case Ten => (
      match i
      case 0 => Share(0, 0xC0, 1, 0x3F)
      case 1 => Share(0, 0xFF, 0, 0x00)
      case 2 => Share(2, 0xFC, 3, 0x03)
      case 3 => Share(1, 0xF0, 2, 0x0F)
      case 4 => Share(4, 0xFF, 4, 0x00)
      case 5 => Share(3, 0xFF, 3, 0x00)
      case 6 => Share(5, 0xF0, 6, 0x0F)
      case 7 => Share(4, 0xC0, 5, 0x3F)
      case 8 => Share(7, 0xFF, 7, 0x00)
      case _ => Share(6, 0xFC, 7, 0x03))
    case Twelve => (
      match i
      case 0 => Share(0, 0xF0, 1, 0x0F)
      case 1 => Share(0, 0xFF, 0, 0x00)
      case 2 => Share(2, 0xFF, 2, 0x00)
      case 3 => Share(1, 0xFF, 1, 0x00)
      case 4 => Share(3, 0xFF, 3, 0x00)
      case _ => Share(2, 0xF0, 3, 0x0F))
    case Fourteen => (
      match i
      case 0 => Share(0, 0xFC, 1, 0x03)
      case 1 => Share(0, 0xFF, 0, 0x00)
      case 2 => Share(1, 0xF0, 2, 0x0F)
      case 3 => Share(1, 0xFF, 1, 0x00)
      case 4 => Share(2, 0xC0, 3, 0x3F)
      case 5 => Share(2, 0xFF, 2, 0x00)
      case 6 => Share(4, 0xFF, 4, 0x00)
      case 7 => Share(3, 0xFF, 3, 0x00)
      case 8 => Share(5, 0xFF, 5, 0x00)
      case 9 => Share(4, 0xFC, 5, 0x03)
      case 10 => Share(6, 0xFF, 6, 0x00)
      case 11 => Share(5, 0xF0, 6, 0x0F)
      case 12 => Share(7, 0xFF, 7, 0x00)
      case _ => Share(6, 0xC0, 7, 0x3F))
  }

  /** The bits of byte i that belong to pixel k. */
  function Owned(d: Depth, k: nat, i: nat): bv8 {
    var s := ShareOf(d, i);
    if k == s.high then s.mask else if k == s.low then s.rest else 0
  }

  /** The bits of a value that a write of pixel k would leave in the pixel before it. */
  function Spill(d: Depth, k: nat): bv16 {
    match d
    case Ten =>
      if k == 1 || k == 5 then 0x0C00
      else if k == 2 || k == 6 then 0x3C00
      else if k == 3 || k == 7 then 0xFC00
      else 0
    case Twelve => if k % 2 == 0 then 0 else 0xF000
    case Fourteen => if k % 4 == 0 then 0 else 0xC000
  }

  predicate Fits(d: Depth, k: nat, v: bv16) {
    v & Spill(d, k) == 0
  }

  function Full(d: Depth): bv16 {
    match d
    case Ten => 0x3FF
    case Twelve => 0xFFF
    case Fourteen => 0x3FFF
  }

  ghost predicate Agree(d: Depth, k: nat, g: seq<bv8>, h: seq<bv8>)
    requires |g| == |h| == Bytes(d)
  {
    forall i :: 0 <= i < |g| ==> g[i] & Owned(d, k, i) == h[i] & Owned(d, k, i)
  }

  lemma Apart(d: Depth, i: nat)
    ensures ShareOf(d, i).mask & ShareOf(d, i).rest == 0
  {
  }

  lemma OneOwner(d: Depth, j: nat, k: nat, i: nat)
    requires j != k
    ensures Owned(d, j, i) & Owned(d, k, i) == 0
  {
    hide ShareOf;
    Apart(d, i);
    var s := ShareOf(d, i);
    assert s.rest & s.mask == s.mask & s.rest;
    assert s.mask & 0 == 0 && s.rest & 0 == 0 && 0 & s.mask == 0 && 0 & s.rest == 0 && (0 as bv8) & 0 == 0;
  }

  /** a and b agree outside the bits m. */
  ghost predicate Outside(m: bv8, a: bv8, b: bv8) {
    a & !m == b & !m
  }

  lemma KeptBits(a: bv8, b: bv8, m: bv8, n: bv8)
    requires Outside(m, a, b) && m & n == 0
    ensures a & n == b & n
  {
  }

  /** w has no bit of the mask. */
  ghost predicate Clear(w: bv8, mask: bv8) {
    w & mask == 0
  }

  lemma MixKeeps(b: bv8, mask: bv8, own: bv8, w: bv8)
    requires Clear(w, mask) && own == !mask
    ensures Outside(own, Mix(b, mask, w), b)
  {
  }

  /** Bits shifted in from the left, and from the right when none spill. */
  lemma ShiftedClear(v: bv16)
    ensures Clear(Low(v << 6), 0x3F) && Clear(Low(v << 4), 0x0F) && Clear(Low(v << 2), 0x03)
    ensures v & 0x0C00 == 0 ==> Clear(Low(v >> 4), 0xC0)
    ensures v & 0x3C00 == 0 ==> Clear(Low(v >> 6), 0xF0)
    ensures v & 0xFC00 == 0 ==> Clear(Low(v >> 8), 0xFC)
    ensures v & 0xF000 == 0 ==> Clear(Low(v >> 8), 0xF0)
    ensures v & 0xC000 == 0 ==> Clear(Low(v >> 12), 0xFC) && Clear(Low(v >> 10), 0xF0) && Clear(Low(v >> 8), 0xC0)
  {
  }

  // ---- reading depends on the owned bits alone, writing changes no others --------------------------

  lemma Depends10Low(k: nat, g: seq<bv8>, h: seq<bv8>)
    requires |g| == |h| == 10 && k < 4 && Agree(Ten, k, g, h)
    ensures Get10(g, k) == Get10(h, k)
  {
  }

  /** The value fits, or byte i is not shared with the pixel before. */
  ghost predicate Safe(d: Depth, k: nat, v: bv16, i: nat) {
    Fits(d, k, v) || k == 0 || Owned(d, k - 1, i) == 0
  }

  lemma Keeps10Low(k: nat, g: seq<bv8>, v: bv16, i: nat)
    requires |g| == 10 && k < 4 && i < |g| && Safe(Ten, k, v, i)
    requires Owned(Ten, k, i) != 0 && Owned(Ten, k, i) != 0xFF
    ensures Outside(Owned(Ten, k, i), Put10(g, k, v)[i], g[i])
  {
    hide Mix, Low, Outside, Clear;
    ShiftedClear(v);
    match k
    case 0 =>
      MixKeeps(g[0], 0x3F, 0xC0, Low(v << 6));
    case 1 =>
      if i == 0 {
        MixKeeps(g[0], 0xC0, 0x3F, Low(v >> 4));
      } else {
        MixKeeps(g[3], 0x0F, 0xF0, Low(v << 4));
      }
    case 2 =>
      if i == 2 {
        MixKeeps(g[2], 0x03, 0xFC, Low(v << 2));
      } else {
        MixKeeps(g[3], 0xF0, 0x0F, Low(v >> 6));
      }
    case _ =>
      MixKeeps(g[2], 0xFC, 0x03, Low(v >> 8));
  }

  lemma Skips10Low(k: nat, g: seq<bv8>, v: bv16, i: nat)
    requires |g| == 10 && k < 4 && i < |g| && Owned(Ten, k, i) == 0
    ensures Put10(g, k, v)[i] == g[i]
  {
    hide Low, Mix;
  }

  lemma GetPut10Low(k: nat, g: seq<bv8>, v: bv16)
    requires |g| == 10 && k < 4
    ensures Get10(Put10(g, k, v), k) == v & Full(Ten)
  {
  }

  lemma Depends10High(k: nat, g: seq<bv8>, h: seq<bv8>)
    requires |g| == |h| == 10 && 4 <= k < 8 && Agree(Ten, k, g, h)
    ensures Get10(g, k) == Get10(h, k)
  {
  }

  lemma Keeps10High(k: nat, g: seq<bv8>, v: bv16, i: nat)
    requires |g| == 10 && 4 <= k < 8 && i < |g| && Safe(Ten, k, v, i)
    requires Owned(Ten, k, i) != 0 && Owned(Ten, k, i) != 0xFF
    ensures Outside(Owned(Ten, k, i), Put10(g, k, v)[i], g[i])
  {
    hide Mix, Low, Outside, Clear;
    ShiftedClear(v);
    match k
    case 4 =>
      MixKeeps(g[7], 0x3F, 0xC0, Low(v << 6));
    case 5 =>
      if i == 6 {
        MixKeeps(g[6], 0x0F, 0xF0, Low(v << 4));
      } else {
        MixKeeps(g[7], 0xC0, 0x3F, Low(v >> 4));
      }
    case 6 =>
      if i == 6 {
        MixKeeps(g[6], 0xF0, 0x0F, Low(v >> 6));
      } else {
        MixKeeps(g[9], 0x03, 0xFC, Low(v << 2));
      }
    case _ =>
      MixKeeps(g[9], 0xFC, 0x03, Low(v >> 8));
  }

  lemma Skips10High(k: nat, g: seq<bv8>, v: bv16, i: nat)
    requires |g| == 10 && 4 <= k < 8 && i < |g| && Owned(Ten, k, i) == 0
    ensures Put10(g, k, v)[i] == g[i]
  {
    hide Low, Mix;
  }

  lemma GetPut10High(k: nat, g: seq<bv8>, v: bv16)
    requires |g| == 10 && 4 <= k < 8
    ensures Get10(Put10(g, k, v), k) == v & Full(Ten)
  {
  }

  lemma Depends12(k: nat, g: seq<bv8>, h: seq<bv8>)
    requires |g| == |h| == 6 && k < 4 && Agree(Twelve, k, g, h)
    ensures Get12(g, k) == Get12(h, k)
  {
  }

  lemma Keeps12(k: nat, g: seq<bv8>, v: bv16, i: nat)
    requires |g| == 6 && k < 4 && i < |g| && Safe(Twelve, k, v, i)
    requires Owned(Twelve, k, i) != 0 && Owned(Twelve, k, i) != 0xFF
    ensures Outside(Owned(Twelve, k, i), Put12(g, k, v)[i], g[i])
  {
    hide Mix, Low, Outside, Clear;
    ShiftedClear(v);
    match k
    case 0 =>
      MixKeeps(g[0], 0x0F, 0xF0, Low(v << 4));
    case 1 =>
      MixKeeps(g[0], 0xF0, 0x0F, Low(v >> 8));
    case 2 =>
      MixKeeps(g[5], 0x0F, 0xF0, Low(v << 4));
    case _ =>
      MixKeeps(g[5], 0xF0, 0x0F, Low(v >> 8));
  }

  lemma Skips12(k: nat, g: seq<bv8>, v: bv16, i: nat)
    requires |g| == 6 && k < 4 && i < |g| && Owned(Twelve, k, i) == 0
    ensures Put12(g, k, v)[i] == g[i]
  {
    hide Low, Mix;
  }

  lemma GetPut12(k: nat, g: seq<bv8>, v: bv16)
    requires |g| == 6 && k < 4
    ensures Get12(Put12(g, k, v), k) == v & Full(Twelve)
  {
  }

  lemma Depends14Low(k: nat, g: seq<bv8>, h: seq<bv8>)
    requires |g| == |h| == 14 && k < 4 && Agree(Fourteen, k, g, h)
    ensures Get14(g, k) == Get14(h, k)
  {
  }

  lemma Keeps14Low(k: nat, g: seq<bv8>, v: bv16, i: nat)
    requires |g| == 14 && k < 4 && i < |g| && Safe(Fourteen, k, v, i)
    requires Owned(Fourteen, k, i) != 0 && Owned(Fourteen, k, i) != 0xFF
    ensures Outside(Owned(Fourteen, k, i), Put14(g, k, v)[i], g[i])
  {
    hide Mix, Low, Outside, Clear;
    ShiftedClear(v);
    match k
    case 0 =>
      MixKeeps(g[0], 0x03, 0xFC, Low(v << 2));
    case 1 =>
      if i == 0 {
        MixKeeps(g[0], 0xFC, 0x03, Low(v >> 12));
      } else {
        MixKeeps(g[2], 0x0F, 0xF0, Low(v << 4));
      }
    case 2 =>
      if i == 2 {
        MixKeeps(g[2], 0xF0, 0x0F, Low(v >> 10));
      } else {
        MixKeeps(g[4], 0x3F, 0xC0, Low(v << 6));
      }
    case _ =>
      MixKeeps(g[4], 0xC0, 0x3F, Low(v >> 8));
  }

  lemma Skips14Low(k: nat, g: seq<bv8>, v: bv16, i: nat)
    requires |g| == 14 && k < 4 && i < |g| && Owned(Fourteen, k, i) == 0
    ensures Put14(g, k, v)[i] == g[i]
  {
    hide Low, Mix;
  }

  lemma GetPut14Low(k: nat, g: seq<bv8>, v: bv16)
    requires |g| == 14 && k < 4
    ensures Get14(Put14(g, k, v), k) == v & Full(Fourteen)
  {
  }

  lemma Depends14High(k: nat, g: seq<bv8>, h: seq<bv8>)
    requires |g| == |h| == 14 && 4 <= k < 8 && Agree(Fourteen, k, g, h)
    ensures Get14(g, k) == Get14(h, k)
  {
  }

  lemma Keeps14High(k: nat, g: seq<bv8>, v: bv16, i: nat)
    requires |g| == 14 && 4 <= k < 8 && i < |g| && Safe(Fourteen, k, v, i)
    requires Owned(Fourteen, k, i) != 0 && Owned(Fourteen, k, i) != 0xFF
    ensures Outside(Owned(Fourteen, k, i), Put14(g, k, v)[i], g[i])
  {
    hide Mix, Low, Outside, Clear;
    ShiftedClear(v);
    match k
    case 4 =>
      MixKeeps(g[9], 0x03, 0xFC, Low(v << 2));
    case 5 =>
      if i == 9 {
        MixKeeps(g[9], 0xFC, 0x03, Low(v >> 12));
      } else {
        MixKeeps(g[11], 0x0F, 0xF0, Low(v << 4));
      }
    case 6 =>
      if i == 11 {
        MixKeeps(g[11], 0xF0, 0x0F, Low(v >> 10));
      } else {
        MixKeeps(g[13], 0x3F, 0xC0, Low(v << 6));
      }
    case _ =>
      MixKeeps(g[13], 0xC0, 0x3F, Low(v >> 8));
  }

  lemma Skips14High(k: nat, g: seq<bv8>, v: bv16, i: nat)
    requires |g| == 14 && 4 <= k < 8 && i < |g| && Owned(Fourteen, k, i) == 0
    ensures Put14(g, k, v)[i] == g[i]
  {
    hide Low, Mix;
  }

  lemma GetPut14High(k: nat, g: seq<bv8>, v: bv16)
    requires |g| == 14 && 4 <= k < 8
    ensures Get14(Put14(g, k, v), k) == v & Full(Fourteen)
  {
  }

  lemma Depends10(k: nat, g: seq<bv8>, h: seq<bv8>)
    requires |g| == |h| == 10 && k < 8 && Agree(Ten, k, g, h)
    ensures Get10(g, k) == Get10(h, k)
  {
    hide Get10, Agree;
    if k < 4 {
      Depends10Low(k, g, h);
    } else {
      Depends10High(k, g, h);
    }
  }

  lemma Keeps10(k: nat, g: seq<bv8>, v: bv16, i: nat)
    requires |g| == 10 && k < 8 && i < |g| && Safe(Ten, k, v, i)
    requires Owned(Ten, k, i) != 0 && Owned(Ten, k, i) != 0xFF
    ensures Outside(Owned(Ten, k, i), Put10(g, k, v)[i], g[i])
  {
    hide Put10, Owned, Safe, Outside;
    if k < 4 {
      Keeps10Low(k, g, v, i);
    } else {
      Keeps10High(k, g, v, i);
    }
  }

  lemma Skips10(k: nat, g: seq<bv8>, v: bv16, i: nat)
    requires |g| == 10 && k < 8 && i < |g| && Owned(Ten, k, i) == 0
    ensures Put10(g, k, v)[i] == g[i]
  {
    hide Put10, Owned;
    if k < 4 {
      Skips10Low(k, g, v, i);
    } else {
      Skips10High(k, g, v, i);
    }
  }

  lemma GetPut10(k: nat, g: seq<bv8>, v: bv16)
    requires |g| == 10 && k < 8
    ensures Get10(Put10(g, k, v), k) == v & Full(Ten)
  {
    hide Put10, Get10, Full;
    if k < 4 {
      GetPut10Low(k, g, v);
    } else {
      GetPut10High(k, g, v);
    }
  }

  lemma Depends14(k: nat, g: seq<bv8>, h: seq<bv8>)
    requires |g| == |h| == 14 && k < 8 && Agree(Fourteen, k, g, h)
    ensures Get14(g, k) == Get14(h, k)
  {
    hide Get14, Agree;
    if k < 4 {
      Depends14Low(k, g, h);
    } else {
      Depends14High(k, g, h);
    }
  }

  lemma Keeps14(k: nat, g: seq<bv8>, v: bv16, i: nat)
    requires |g| == 14 && k < 8 && i < |g| && Safe(Fourteen, k, v, i)
    requires Owned(Fourteen, k, i) != 0 && Owned(Fourteen, k, i) != 0xFF
    ensures Outside(Owned(Fourteen, k, i), Put14(g, k, v)[i], g[i])
  {
    hide Put14, Owned, Safe, Outside;
    if k < 4 {
      Keeps14Low(k, g, v, i);
    } else {
      Keeps14High(k, g, v, i);
    }
  }

  lemma Skips14(k: nat, g: seq<bv8>, v: bv16, i: nat)
    requires |g| == 14 && k < 8 && i < |g| && Owned(Fourteen, k, i) == 0
    ensures Put14(g, k, v)[i] == g[i]
  {
    hide Put14, Owned;
    if k < 4 {
      Skips14Low(k, g, v, i);
    } else {
      Skips14High(k, g, v, i);
    }
  }

  lemma GetPut14(k: nat, g: seq<bv8>, v: bv16)
    requires |g| == 14 && k < 8
    ensures Get14(Put14(g, k, v), k) == v & Full(Fourteen)
  {
    hide Put14, Get14, Full;
    if k < 4 {
      GetPut14Low(k, g, v);
    } else {
      GetPut14High(k, g, v);
    }
  }

  lemma Depends(d: Depth, k: nat, g: seq<bv8>, h: seq<bv8>)
    requires |g| == |h| == Bytes(d) && k < Pixels(d) && Agree(d, k, g, h)
    ensures Get(d, g, k) == Get(d, h, k)
  {
    hide Get10, Get12, Get14, Agree;
    match d
    case Ten => Depends10(k, g, h);
    case Twelve => Depends12(k, g, h);
    case Fourteen => Depends14(k, g, h);
  }

  ghost predicate ByteKept(d: Depth, k: nat, g: seq<bv8>, v: bv16, i: nat)
    requires |g| == Bytes(d) && k < Pixels(d) && i < |g|
  {
    Outside(Owned(d, k, i), Put(d, g, k, v)[i], g[i])
  }

  lemma KeepsTen(k: nat, g: seq<bv8>, v: bv16, i: nat)
    requires |g| == 10 && k < 8 && i < |g| && Safe(Ten, k, v, i)
    requires Owned(Ten, k, i) != 0 && Owned(Ten, k, i) != 0xFF
    ensures ByteKept(Ten, k, g, v, i)
  {
    hide Put10, Owned, Safe, Outside;
    Keeps10(k, g, v, i);
  }

  lemma KeepsTwelve(k: nat, g: seq<bv8>, v: bv16, i: nat)
    requires |g| == 6 && k < 4 && i < |g| && Safe(Twelve, k, v, i)
    requires Owned(Twelve, k, i) != 0 && Owned(Twelve, k, i) != 0xFF
    ensures ByteKept(Twelve, k, g, v, i)
  {
    hide Put12, Owned, Safe, Outside;
    Keeps12(k, g, v, i);
  }

  lemma KeepsFourteen(k: nat, g: seq<bv8>, v: bv16, i: nat)
    requires |g| == 14 && k < 8 && i < |g| && Safe(Fourteen, k, v, i)
    requires Owned(Fourteen, k, i) != 0 && Owned(Fourteen, k, i) != 0xFF
    ensures ByteKept(Fourteen, k, g, v, i)
  {
    hide Put14, Owned, Safe, Outside;
    Keeps14(k, g, v, i);
  }

  lemma Skips(d: Depth, k: nat, g: seq<bv8>, v: bv16, i: nat)
    requires |g| == Bytes(d) && k < Pixels(d) && i < |g| && Owned(d, k, i) == 0
    ensures Put(d, g, k, v)[i] == g[i]
  {
    hide Put10, Put12, Put14, Owned;
    match d
    case Ten => Skips10(k, g, v, i);
    case Twelve => Skips12(k, g, v, i);
    case Fourteen => Skips14(k, g, v, i);
  }

  /** A write changes no bit of another pixel. */
  lemma Keeps(d: Depth, k: nat, g: seq<bv8>, v: bv16, i: nat)
    requires |g| == Bytes(d) && k < Pixels(d) && i < |g| && Safe(d, k, v, i)
    ensures ByteKept(d, k, g, v, i)
  {
    hide ByteKept, Put, Owned, Safe;
    if Owned(d, k, i) == 0 {
      KeepsSkipped(d, k, g, v, i);
    } else if Owned(d, k, i) == 0xFF {
      KeepsWhole(d, k, g, v, i);
    } else {
      match d {
        case Ten => KeepsTen(k, g, v, i);
        case Twelve => KeepsTwelve(k, g, v, i);
        case Fourteen => KeepsFourteen(k, g, v, i);
      }
    }
  }

  lemma KeepsSkipped(d: Depth, k: nat, g: seq<bv8>, v: bv16, i: nat)
    requires |g| == Bytes(d) && k < Pixels(d) && i < |g| && Owned(d, k, i) == 0
    ensures ByteKept(d, k, g, v, i)
  {
    hide Put, Owned;
    Skips(d, k, g, v, i);
  }

  lemma KeepsWhole(d: Depth, k: nat, g: seq<bv8>, v: bv16, i: nat)
    requires |g| == Bytes(d) && k < Pixels(d) && i < |g| && Owned(d, k, i) == 0xFF
    ensures ByteKept(d, k, g, v, i)
  {
    hide Put, Owned;
  }

  /** The bits of a value that a pixel has room for. */
  function Cut(d: Depth, v: bv16): bv16 {
    v & Full(d)
  }

  ghost predicate ReadsBack(d: Depth, k: nat, g: seq<bv8>, v: bv16)
    requires |g| == Bytes(d) && k < Pixels(d)
  {
    Get(d, Put(d, g, k, v), k) == Cut(d, v)
  }

  lemma ReadsTen(k: nat, g: seq<bv8>, v: bv16)
    requires |g| == 10 && k < 8
    ensures ReadsBack(Ten, k, g, v)
  {
    hide Put10, Get10;
    GetPut10(k, g, v);
  }

  lemma ReadsTwelve(k: nat, g: seq<bv8>, v: bv16)
    requires |g| == 6 && k < 4
    ensures ReadsBack(Twelve, k, g, v)
  {
    hide Put12, Get12;
    GetPut12(k, g, v);
  }

  lemma ReadsFourteen(k: nat, g: seq<bv8>, v: bv16)
    requires |g| == 14 && k < 8
    ensures ReadsBack(Fourteen, k, g, v)
  {
    hide Put14, Get14;
    GetPut14(k, g, v);
  }

  /** Reading back the pixel just written. */
  lemma GetPut(d: Depth, k: nat, g: seq<bv8>, v: bv16)
    requires |g| == Bytes(d) && k < Pixels(d)
    ensures ReadsBack(d, k, g, v)
  {
    hide ReadsBack;
    match d
    case Ten => ReadsTen(k, g, v);
    case Twelve => ReadsTwelve(k, g, v);
    case Fourteen => ReadsFourteen(k, g, v);
  }

  ghost predicate SameAt(a: bv8, b: bv8, m: bv8) {
    a & m == b & m
  }

  lemma SameBits(a: bv8, b: bv8)
    ensures SameAt(a, b, 0)
    ensures forall m :: SameAt(a, a, m)
  {
  }

  /** A byte belongs to at most two pixels. */
  lemma TwoOwners(d: Depth, i: nat, a: nat, b: nat, c: nat)
    requires a != b && b != c && a != c
    ensures Owned(d, a, i) == 0 || Owned(d, b, i) == 0 || Owned(d, c, i) == 0
  {
    hide ShareOf;
  }

  lemma OutsideOwned(d: Depth, j: nat, k: nat, i: nat, a: bv8, b: bv8)
    requires j != k && Outside(Owned(d, k, i), a, b)
    ensures SameAt(a, b, Owned(d, j, i))
  {
    hide Owned, Outside;
    OneOwner(d, k, j, i);
    KeptBits(a, b, Owned(d, k, i), Owned(d, j, i));
  }

  lemma OtherBits(d: Depth, j: nat, k: nat, g: seq<bv8>, v: bv16, i: nat)
    requires |g| == Bytes(d) && k < Pixels(d) && j < Pixels(d) && j != k && i < |g|
    requires Fits(d, k, v) || j + 1 != k
    ensures SameAt(Put(d, g, k, v)[i], g[i], Owned(d, j, i))
  {
    hide Put, Owned, Outside, SameAt, Fits;
    var h := Put(d, g, k, v);
    SameBits(h[i], g[i]);
    if Owned(d, j, i) != 0 {
      if Owned(d, k, i) == 0 {
        Skips(d, k, g, v, i);
      } else {
        if k > 0 && j + 1 != k { TwoOwners(d, i, j, k - 1, k); }
        Keeps(d, k, g, v, i);
        OutsideOwned(d, j, k, i, h[i], g[i]);
      }
    }
  }

  /** Reading another pixel of the group; only the one before is ever at risk. */
  lemma GetOther(d: Depth, j: nat, k: nat, g: seq<bv8>, v: bv16)
    requires |g| == Bytes(d) && k < Pixels(d) && j < Pixels(d) && j != k && (Fits(d, k, v) || j + 1 != k)
    ensures Get(d, Put(d, g, k, v), j) == Get(d, g, j)
  {
    hide Put, Get, Owned, Fits;
    var h := Put(d, g, k, v);
    forall i | 0 <= i < |g|
      ensures h[i] & Owned(d, j, i) == g[i] & Owned(d, j, i)
    {
      OtherBits(d, j, k, g, v, i);
    }
    Depends(d, j, h, g);
  }

  // ---- values that do not fit ----------------------------------------------------------------------

  /** The bits of a value that end up in the pixel before, where they are added to its low bits. */
  function Spilled(d: Depth, k: nat, v: bv16): bv16 {
    match d
    case Ten => (v & Spill(d, k)) >> 10
    case Twelve => (v & Spill(d, k)) >> 12
    case Fourteen => (v & Spill(d, k)) >> 14
  }

  /** The low bits of the pixel before, and those spilled, in the byte they share. */
  lemma Join2(b: bv8, v: bv16)
    ensures Wide(Mix(b, 0xFC, Low(v >> 8))) >> 2 == (Wide(b) >> 2) | ((v & 0xFC00) >> 10)
    ensures Wide(Mix(b, 0xFC, Low(v >> 12))) >> 2 == (Wide(b) >> 2) | ((v & 0xC000) >> 14)
  {
  }

  lemma Join4(b: bv8, v: bv16)
    ensures Wide(Mix(b, 0xF0, Low(v >> 6))) >> 4 == (Wide(b) >> 4) | ((v & 0x3C00) >> 10)
    ensures Wide(Mix(b, 0xF0, Low(v >> 8))) >> 4 == (Wide(b) >> 4) | ((v & 0xF000) >> 12)
    ensures Wide(Mix(b, 0xF0, Low(v >> 10))) >> 4 == (Wide(b) >> 4) | ((v & 0xC000) >> 14)
  {
  }

  lemma Join6(b: bv8, v: bv16)
    ensures Wide(Mix(b, 0xC0, Low(v >> 4))) >> 6 == (Wide(b) >> 6) | ((v & 0x0C00) >> 10)
    ensures Wide(Mix(b, 0xC0, Low(v >> 8))) >> 6 == (Wide(b) >> 6) | ((v & 0xC000) >> 14)
  {
  }

  ghost predicate Adds(r: bv16, a: bv16, b: bv16) {
    r == a | b
  }

  lemma Before10AtOne(g: seq<bv8>, v: bv16)
    requires |g| == 10
    ensures Adds(Get10(Put10(g, 1, v), 0), Get10(g, 0), Spilled(Ten, 1, v))
  {
    hide Mix, Low, Wide;
    Join6(g[0], v);
  }

  lemma Before10AtTwo(g: seq<bv8>, v: bv16)
    requires |g| == 10
    ensures Adds(Get10(Put10(g, 2, v), 1), Get10(g, 1), Spilled(Ten, 2, v))
  {
    hide Mix, Low, Wide;
    Join4(g[3], v);
  }

  lemma Before10AtThree(g: seq<bv8>, v: bv16)
    requires |g| == 10
    ensures Adds(Get10(Put10(g, 3, v), 2), Get10(g, 2), Spilled(Ten, 3, v))
  {
    hide Mix, Low, Wide;
    Join2(g[2], v);
  }

  lemma Before10AtFive(g: seq<bv8>, v: bv16)
    requires |g| == 10
    ensures Adds(Get10(Put10(g, 5, v), 4), Get10(g, 4), Spilled(Ten, 5, v))
  {
    hide Mix, Low, Wide;
    Join6(g[7], v);
  }

  lemma Before10AtSix(g: seq<bv8>, v: bv16)
    requires |g| == 10
    ensures Adds(Get10(Put10(g, 6, v), 5), Get10(g, 5), Spilled(Ten, 6, v))
  {
    hide Mix, Low, Wide;
    Join4(g[6], v);
  }

  lemma Before10AtSeven(g: seq<bv8>, v: bv16)
    requires |g| == 10
    ensures Adds(Get10(Put10(g, 7, v), 6), Get10(g, 6), Spilled(Ten, 7, v))
  {
    hide Mix, Low, Wide;
    Join2(g[9], v);
  }

  lemma Before12AtOne(g: seq<bv8>, v: bv16)
    requires |g| == 6
    ensures Adds(Get12(Put12(g, 1, v), 0), Get12(g, 0), Spilled(Twelve, 1, v))
  {
    hide Mix, Low, Wide;
    Join4(g[0], v);
  }

  lemma Before12AtThree(g: seq<bv8>, v: bv16)
    requires |g| == 6
    ensures Adds(Get12(Put12(g, 3, v), 2), Get12(g, 2), Spilled(Twelve, 3, v))
  {
    hide Mix, Low, Wide;
    Join4(g[5], v);
  }

  lemma Before14AtOne(g: seq<bv8>, v: bv16)
    requires |g| == 14
    ensures Adds(Get14(Put14(g, 1, v), 0), Get14(g, 0), Spilled(Fourteen, 1, v))
  {
    hide Mix, Low, Wide;
    Join2(g[0], v);
  }

  lemma Before14AtTwo(g: seq<bv8>, v: bv16)
    requires |g| == 14
    ensures Adds(Get14(Put14(g, 2, v), 1), Get14(g, 1), Spilled(Fourteen, 2, v))
  {
    hide Mix, Low, Wide;
    Join4(g[2], v);
  }

  lemma Before14AtThree(g: seq<bv8>, v: bv16)
    requires |g| == 14
    ensures Adds(Get14(Put14(g, 3, v), 2), Get14(g, 2), Spilled(Fourteen, 3, v))
  {
    hide Mix, Low, Wide;
    Join6(g[4], v);
  }

  lemma Before14AtFive(g: seq<bv8>, v: bv16)
    requires |g| == 14
    ensures Adds(Get14(Put14(g, 5, v), 4), Get14(g, 4), Spilled(Fourteen, 5, v))
  {
    hide Mix, Low, Wide;
    Join2(g[9], v);
  }

  lemma Before14AtSix(g: seq<bv8>, v: bv16)
    requires |g| == 14
    ensures Adds(Get14(Put14(g, 6, v), 5), Get14(g, 5), Spilled(Fourteen, 6, v))
  {
    hide Mix, Low, Wide;
    Join4(g[11], v);
  }

  lemma Before14AtSeven(g: seq<bv8>, v: bv16)
    requires |g| == 14
    ensures Adds(Get14(Put14(g, 7, v), 6), Get14(g, 6), Spilled(Fourteen, 7, v))
  {
    hide Mix, Low, Wide;
    Join6(g[13], v);
  }

  /** The pixel before the one written. */
  lemma Before(d: Depth, k: nat, g: seq<bv8>, v: bv16)
    requires |g| == Bytes(d) && 0 < k < Pixels(d) && k % 4 != 0 && (d == Twelve ==> k % 2 != 0)
    ensures Adds(Get(d, Put(d, g, k, v), k - 1), Get(d, g, k - 1), Spilled(d, k, v))
  {
    hide Put10, Put12, Put14, Get10, Get12, Get14, Spilled, Adds;
    match d
    case Ten =>
      if k == 1 { Before10AtOne(g, v); }
      else if k == 2 { Before10AtTwo(g, v); }
      else if k == 3 { Before10AtThree(g, v); }
      else if k == 5 { Before10AtFive(g, v); }
      else if k == 6 { Before10AtSix(g, v); }
      else { Before10AtSeven(g, v); }
    case Twelve =>
      if k == 1 { Before12AtOne(g, v); }
      else { Before12AtThree(g, v); }
    case Fourteen =>
      if k == 1 { Before14AtOne(g, v); }
      else if k == 2 { Before14AtTwo(g, v); }
      else if k == 3 { Before14AtThree(g, v); }
      else if k == 5 { Before14AtFive(g, v); }
      else if k == 6 { Before14AtSix(g, v); }
      else { Before14AtSeven(g, v); }
  }

  lemma NothingSpills(d: Depth, k: nat, v: bv16)
    requires k % 4 == 0 || (d == Twelve && k % 2 == 0)
    ensures Spilled(d, k, v) == 0 && Fits(d, k, v)
  {
  }

  lemma OrZero(a: bv16)
    ensures a | 0 == a
  {
  }

  /** What a write does to the other pixels of its group: the spilled bits are added to the one before. */
  lemma OthersAfter(d: Depth, j: nat, k: nat, g: seq<bv8>, v: bv16)
    requires |g| == Bytes(d) && k < Pixels(d) && j < Pixels(d) && j != k
    ensures Get(d, Put(d, g, k, v), j) == if j + 1 == k then Get(d, g, j) | Spilled(d, k, v) else Get(d, g, j)
  {
    hide Put, Get, Spilled;
    if j + 1 != k {
      GetOther(d, j, k, g, v);
    } else if k % 4 == 0 || (d == Twelve && k % 2 == 0) {
      NothingSpills(d, k, v);
      GetOther(d, j, k, g, v);
      OrZero(Get(d, g, j));
    } else {
      Before(d, k, g, v);
    }
  }

  /** The write leaves the other pixels of this group as they are. */
  ghost predicate OthersKept(d: Depth, k: nat, g: seq<bv8>, v: bv16)
    requires |g| == Bytes(d) && k < Pixels(d)
  {
    forall j: nat :: j < Pixels(d) && j != k ==> Get(d, Put(d, g, k, v), j) == Get(d, g, j)
  }

  /** This write leaves the others of this group alone exactly when the spilled bits are set in the pixel before. */
  lemma OthersKeptHere(d: Depth, k: nat, g: seq<bv8>, v: bv16)
    requires |g| == Bytes(d) && k < Pixels(d)
    ensures OthersKept(d, k, g, v) <==> (k == 0 || Get(d, g, k - 1) | Spilled(d, k, v) == Get(d, g, k - 1))
  {
    hide Put, Get, Spilled;
    forall j: nat | j < Pixels(d) && j != k
      ensures Get(d, Put(d, g, k, v), j) == if j + 1 == k then Get(d, g, j) | Spilled(d, k, v) else Get(d, g, j)
    {
      OthersAfter(d, j, k, g, v);
    }
  }

  lemma SpilledIff(d: Depth, k: nat, v: bv16)
    ensures Spilled(d, k, v) == 0 <==> Fits(d, k, v)
  {
  }

  lemma ZeroGroup(d: Depth, k: nat, g: seq<bv8>)
    requires |g| == Bytes(d) && k < Pixels(d) && forall i :: 0 <= i < |g| ==> g[i] == 0
    ensures Get(d, g, k) == 0
  {
    hide Ten0, Ten2, Ten4, Ten6, Twelve0, Twelve4, Fourteen0, Fourteen2, Fourteen4, Fourteen6;
    ZeroBytes();
  }

  lemma ZeroBytes()
    ensures Ten0(0, 0) == 0 && Ten2(0, 0) == 0 && Ten4(0, 0) == 0 && Ten6(0, 0) == 0
    ensures Twelve0(0, 0) == 0 && Twelve4(0, 0) == 0
    ensures Fourteen0(0, 0) == 0 && Fourteen2(0, 0) == 0 && Fourteen4(0, 0, 0) == 0 && Fourteen6(0, 0, 0) == 0
  {
  }

  /** A write leaves the other pixels of every group alone exactly when none of the value's bits spill. */
  lemma OthersKeptIff(d: Depth, k: nat, v: bv16)
    requires k < Pixels(d)
    ensures (forall g: seq<bv8> :: |g| == Bytes(d) ==> OthersKept(d, k, g, v)) <==> Fits(d, k, v)
  {
    hide OthersKept, Get, Spilled, Fits;
    SpilledIff(d, k, v);
    if Spilled(d, k, v) == 0 {
      forall g: seq<bv8> | |g| == Bytes(d)
        ensures OthersKept(d, k, g, v)
      {
        OthersKeptHere(d, k, g, v);
        if k > 0 { OrZero(Get(d, g, k - 1)); }
      }
    } else {
      if k == 0 { NothingSpills(d, k, v); }
      var g := seq(Bytes(d), i => 0 as bv8);
      ZeroGroup(d, k - 1, g);
      OthersKeptHere(d, k, g, v);
    }
  }

  /** A value of the sensor's width never spills. */
  lemma NarrowFits(d: Depth, k: nat, v: bv16)
    requires v & Full(d) == v
    ensures Fits(d, k, v)
  {
  }
}
