/**
 Where the pixels of a group lie: in the order of the sensor's bits, in which the two bytes of
 each 16-bit word change places, one pixel follows the other.
 */
module RawLayout {
  import opened RawPixels

  function Bits(d: Depth): nat {
    match d
    case Ten => 10
    case Twelve => 12
    case Fourteen => 14
  }

  /** Byte n of a group in the order of the sensor's bits: the bytes of each 16-bit word are swapped. */
  function StreamByte(g: seq<bv8>, n: nat): bv8 {
    var i := if n % 2 == 0 then n + 1 else n - 1;
    if i < |g| then g[i] else 0
  }

  function Three(a: bv8, b: bv8, c: bv8): bv32 {
    (a as bv32 << 16) | (b as bv32 << 8) | c as bv32
  }

  /** w without its last n bits, for the even n that occur. */
  function Drop(w: bv32, n: nat): bv32
    requires 4 <= n <= 14 && n % 2 == 0
  {
    match n
    case 4 => w >> 4
    case 6 => w >> 6
    case 8 => w >> 8
    case 10 => w >> 10
    case 12 => w >> 12
    case _ => w >> 14
  }

  /** The last bits of w, as many as a pixel has. */
  function Last(d: Depth, w: bv32): bv16 {
    match d
    case Ten => (w & 0x3FF) as bv16
    case Twelve => (w & 0xFFF) as bv16
    case Fourteen => (w & 0x3FFF) as bv16
  }

  /** The bits behind pixel k in the three bytes from the one it starts in. */
  function After(d: Depth, k: nat): (n: nat)
    ensures 4 <= n <= 14 && n % 2 == 0
  {
    24 - k * Bits(d) % 8 - Bits(d)
  }

  /** Pixel k of a group is the k-th field of its bits, each byte from the highest bit to the lowest. */
  ghost predicate InStream(d: Depth, g: seq<bv8>, k: nat)
    requires |g| == Bytes(d) && k < Pixels(d)
  {
    var n := k * Bits(d) / 8;
    Get(d, g, k) == Last(d, Drop(Three(StreamByte(g, n), StreamByte(g, n + 1), StreamByte(g, n + 2)), After(d, k)))
  }

  lemma Ten0Is(a: bv8, b: bv8, c: bv8)
    ensures Last(Ten, Drop(Three(a, b, c), 14)) == Ten0(a, b)
  {
  }

  lemma Ten2Is(a: bv8, b: bv8, c: bv8)
    ensures Last(Ten, Drop(Three(a, b, c), 12)) == Ten2(a, b)
  {
  }

  lemma Ten4Is(a: bv8, b: bv8, c: bv8)
    ensures Last(Ten, Drop(Three(a, b, c), 10)) == Ten4(a, b)
  {
  }

  lemma Ten6Is(a: bv8, b: bv8, c: bv8)
    ensures Last(Ten, Drop(Three(a, b, c), 8)) == Ten6(a, b)
  {
  }

  lemma Twelve0Is(a: bv8, b: bv8, c: bv8)
    ensures Last(Twelve, Drop(Three(a, b, c), 12)) == Twelve0(a, b)
  {
  }

  lemma Twelve4Is(a: bv8, b: bv8, c: bv8)
    ensures Last(Twelve, Drop(Three(a, b, c), 8)) == Twelve4(a, b)
  {
  }

  lemma Fourteen0Is(a: bv8, b: bv8, c: bv8)
    ensures Last(Fourteen, Drop(Three(a, b, c), 10)) == Fourteen0(a, b)
  {
  }

  lemma Fourteen6Is(a: bv8, b: bv8, c: bv8)
    ensures Last(Fourteen, Drop(Three(a, b, c), 4)) == Fourteen6(a, b, c)
  {
  }

  lemma Fourteen4Is(a: bv8, b: bv8, c: bv8)
    ensures Last(Fourteen, Drop(Three(a, b, c), 6)) == Fourteen4(a, b, c)
  {
  }

  lemma Fourteen2Is(a: bv8, b: bv8, c: bv8)
    ensures Last(Fourteen, Drop(Three(a, b, c), 8)) == Fourteen2(a, b)
  {
  }

  lemma Stream10(g: seq<bv8>, k: nat)
    requires |g| == 10 && k < 8
    ensures InStream(Ten, g, k)
  {
    hide Three, Last, Drop, Ten0, Ten2, Ten4, Ten6;
    var n := k * 10 / 8;
    var (a, b, c) := (StreamByte(g, n), StreamByte(g, n + 1), StreamByte(g, n + 2));
    Ten0Is(a, b, c);
    Ten2Is(a, b, c);
    Ten4Is(a, b, c);
    Ten6Is(a, b, c);
  }

  lemma Stream12(g: seq<bv8>, k: nat)
    requires |g| == 6 && k < 4
    ensures InStream(Twelve, g, k)
  {
    hide Three, Last, Drop, Twelve0, Twelve4;
    var n := k * 12 / 8;
    var (a, b, c) := (StreamByte(g, n), StreamByte(g, n + 1), StreamByte(g, n + 2));
    Twelve0Is(a, b, c);
    Twelve4Is(a, b, c);
  }

  lemma Stream14(g: seq<bv8>, k: nat)
    requires |g| == 14 && k < 8
    ensures InStream(Fourteen, g, k)
  {
    hide Three, Last, Drop, Fourteen0, Fourteen2, Fourteen4, Fourteen6;
    var n := k * 14 / 8;
    var (a, b, c) := (StreamByte(g, n), StreamByte(g, n + 1), StreamByte(g, n + 2));
    Fourteen0Is(a, b, c);
    Fourteen2Is(a, b, c);
    Fourteen4Is(a, b, c);
    Fourteen6Is(a, b, c);
  }

  /** At every depth the pixels of a group lie one after the other in its bits. */
  lemma GetIsStream(d: Depth, g: seq<bv8>, k: nat)
    requires |g| == Bytes(d) && k < Pixels(d)
    ensures InStream(d, g, k)
  {
    hide InStream;
    match d
    case Ten => Stream10(g, k);
    case Twelve => Stream12(g, k);
    case Fourteen => Stream14(g, k);
  }
}
