/**
 Reading a FAT directory with long file names (core/chdk-dir.c), as functions on the
 32-byte entries: what one entry does to a long name being collected, and what a call
 of CHDKReadDir reports.  FatDir.dfy proves that the reader, with its cache, its rewind
 and its backwards buffer, computes them.
 */
module FatSpec {
  import opened Options

  type byte = x: int | 0 <= x < 256

  const ENTRY: nat := 32
  const FNMAX: nat := 107
  const LFN_LIMIT: nat := 99
  const MAX_ORDINAL: nat := 8

  const ATTR: nat := 11
  const SUM: nat := 13
  const LFN_ATTR := 0x0f
  const ERASED := 0xe5
  const SPACE := 0x20
  const DOT := 0x2e

  /** Where the 13 characters of a long-name entry lie, last one first. */
  const LFNCHPOS: seq<nat> := [30, 28, 24, 22, 20, 18, 16, 14, 9, 7, 5, 3, 1]

  /** Bit 0x40 marks the first entry of a long name. */
  predicate StartBit(x: byte) {
    x / 64 % 2 == 1
  }

  /** Low four bits. */
  function LowNibble(x: byte): byte {
    x % 16
  }

  /** check_fn_char: the character if it is permitted, 0 for 0, -1 otherwise. */
  function CheckFnChar(i: nat): int {
    if i >= 0x80 then -1
    else if 0x30 <= i <= 0x39 || 0x40 <= i <= 0x5a || 0x61 <= i <= 0x7a then i
    else if i == 0x2e || i == 0x2d || i == 0x5f || i == 0x28 || i == 0x29 || i == 0x24 || i == 0x26 then i
    else if i != 0 then -1
    else 0
  }

  predicate Permitted(c: byte) {
    c != 0 && CheckFnChar(c) >= 0
  }

  predicate AllPermitted(s: seq<byte>) {
    forall i :: 0 <= i < |s| ==> Permitted(s[i])
  }

  /** The checksum of the eleven bytes of a short name: rotate right, add, modulo 256. */
  function SumOf(s: seq<byte>): byte {
    if s == [] then 0
    else
      var cs := SumOf(s[..|s| - 1]);
      (cs % 2 * 128 + cs / 2 + s[|s| - 1]) % 256
  }

  function Checksum(e: seq<byte>): byte
    requires |e| == ENTRY
  {
    SumOf(e[..11])
  }

  function Unichar(e: seq<byte>, p: nat): nat
    requires p + 1 < |e|
  {
    (e[p] as int) + 256 * (e[p + 1] as int)
  }

  /** The characters of a long-name entry, without its unused places; None if one is not permitted. */
  function LfnChars(e: seq<byte>, n: nat): Option<seq<byte>>
    requires |e| == ENTRY && n <= 13
  {
    if n == 0 then Some([])
    else
      match LfnChars(e, n - 1)
      case None => None
      case Some(s) =>
        var u := Unichar(e, LFNCHPOS[n - 1]);
        if u == 0xffff || u == 0 then Some(s)
        else if CheckFnChar(u) < 0 then None
        else Some([u] + s)
  }

  /** s up to its first space. */
  function UntilSpace(s: seq<byte>): seq<byte> {
    if s == [] || s[0] == SPACE then [] else [s[0]] + UntilSpace(s[1..])
  }

  /** s up to its first zero, as strcpy sees it. */
  function CString(s: seq<byte>): seq<byte> {
    if s == [] || s[0] == 0 then [] else [s[0]] + CString(s[1..])
  }

  /** The 8.3 name as it is put together in the name buffer. */
  function ShortName(e: seq<byte>): seq<byte>
    requires |e| == ENTRY
  {
    [e[0]] + UntilSpace(e[1..8]) + (if e[8] != SPACE then [DOT] else []) + UntilSpace(e[8..11])
  }

  /** A long name being collected: entries to come plus one (0 when there is none), checksum, name so far. */
  datatype Lfn = Lfn(left: nat, sum: byte, name: seq<byte>)

  const NoLfn := Lfn(0, 0, [])

  predicate Skipped(e: seq<byte>)
    requires |e| == ENTRY
  {
    e[0] == ERASED || LowNibble(e[ATTR]) == 8
  }

  predicate IsLong(e: seq<byte>)
    requires |e| == ENTRY
  {
    e[ATTR] == LFN_ATTR
  }

  /** A file or directory in use. */
  predicate LiveShort(e: seq<byte>)
    requires |e| == ENTRY
  {
    !Skipped(e) && !IsLong(e)
  }

  /** A long-name entry e arrives while l is being collected. */
  function Continue(l: Lfn, e: seq<byte>): Lfn
    requires |e| == ENTRY
  {
    if e[SUM] != l.sum || StartBit(e[0]) || e[0] != l.left - 1 then NoLfn
    else
      match LfnChars(e, 13)
      case None => NoLfn
      case Some(s) => if |s + l.name| > LFN_LIMIT then NoLfn else Lfn(e[0], l.sum, s + l.name)
  }

  /** A long-name entry e arrives while none is being collected; ordinal 0 collects nothing. */
  function Begin(e: seq<byte>): Lfn
    requires |e| == ENTRY
  {
    if StartBit(e[0]) && e[0] - 0x40 <= MAX_ORDINAL then
      match LfnChars(e, 13)
      case None => NoLfn
      case Some(s) => if e[0] == 0x40 then NoLfn else Lfn(e[0] - 0x40, e[SUM], s)
    else NoLfn
  }

  /** What entry e does to the long name being collected. */
  function Next(l: Lfn, e: seq<byte>): Lfn
    requires |e| == ENTRY
  {
    if Skipped(e) || !IsLong(e) then NoLfn
    else if l.left != 0 then Continue(l, e)
    else Begin(e)
  }

  /** What is reported when entry e comes up. */
  function Report(l: Lfn, e: seq<byte>, mnl: int): Option<seq<byte>>
    requires |e| == ENTRY
  {
    if !LiveShort(e) || l.left > 1 then None
    else if l.left == 1 && Checksum(e) == l.sum && |l.name| <= mnl then Some(l.name)
    else Some(CString(ShortName(e)))
  }

  /** The kinds of entries, as the reader tells them apart. */
  lemma Kinds(l: Lfn, e: seq<byte>, mnl: int)
    requires |e| == ENTRY
    ensures !LiveShort(e) || l.left > 1 ==> Report(l, e, mnl) == None
    ensures LiveShort(e) && l.left == 0 ==> Report(l, e, mnl) == Some(CString(ShortName(e)))
    ensures Next(l, e) == if !IsLong(e) || Skipped(e) then NoLfn else if l.left != 0 then Continue(l, e) else Begin(e)
  {
  }

  // ---- one call, and all calls ---------------------------------------------------------

  predicate AtEnd(file: seq<byte>, a: nat) {
    a + ENTRY > |file| || file[a] == 0
  }

  function EntryAt(file: seq<byte>, a: nat): (e: seq<byte>)
    requires !AtEnd(file, a)
    ensures |e| == ENTRY
  {
    file[a..a + ENTRY]
  }

  /** A call of CHDKReadDir from position a: the name it reports, if any, and where it leaves off. */
  function ReadDir(file: seq<byte>, a: nat, l: Lfn, mnl: int): (Option<seq<byte>>, nat)
    decreases |file| - a
  {
    if a + ENTRY > |file| then (None, if a > |file| then a else |file|)
    else if file[a] == 0 then (None, a + ENTRY)
    else
      var e := EntryAt(file, a);
      if Report(l, e, mnl).Some? then (Report(l, e, mnl), a + ENTRY)
      else ReadDir(file, a + ENTRY, Next(l, e), mnl)
  }

  // ---- characters ------------------------------------------------------------------------

  lemma {:induction false} LfnCharsPermitted(e: seq<byte>, n: nat)
    requires |e| == ENTRY && n <= 13
    ensures LfnChars(e, n).Some? ==> |LfnChars(e, n).value| <= n && AllPermitted(LfnChars(e, n).value)
  {
    if n > 0 {
      LfnCharsPermitted(e, n - 1);
    }
  }

  lemma CStringFirst(s: seq<byte>)
    requires s != []
    ensures CString(s) == if s[0] == 0 then [] else [s[0]] + CString(s[1..])
  {
  }

  lemma {:induction false} CStringWhole(s: seq<byte>, t: seq<byte>)
    requires (forall i :: 0 <= i < |s| ==> s[i] != 0) && t != [] && t[0] == 0
    ensures CString(s + t) == s
  {
    if s == [] {
      assert s + t == t;
    } else {
      assert (s + t)[1..] == s[1..] + t;
      CStringWhole(s[1..], t);
    }
  }

  lemma {:induction false} CStringCut(s: seq<byte>, t: seq<byte>)
    requires t != [] && t[0] == 0
    ensures CString(s + t) == CString(s)
  {
    if s == [] {
      assert s + t == t;
    } else {
      assert (s + t)[1..] == s[1..] + t;
      CStringCut(s[1..], t);
    }
  }

  lemma {:induction false} UntilSpaceShort(s: seq<byte>)
    ensures |UntilSpace(s)| <= |s|
    ensures UntilSpace(s) == s[..|UntilSpace(s)|]
    ensures forall c :: c in UntilSpace(s) ==> c != SPACE
    ensures |UntilSpace(s)| < |s| ==> s[|UntilSpace(s)|] == SPACE
  {
    if s != [] && s[0] != SPACE {
      UntilSpaceShort(s[1..]);
    }
  }

  lemma {:induction false} UntilSpaceIs(s: seq<byte>, n: nat)
    requires n <= |s| && (forall i :: 0 <= i < n ==> s[i] != SPACE) && (n < |s| ==> s[n] == SPACE)
    ensures UntilSpace(s) == s[..n]
  {
    if n > 0 {
      UntilSpaceIs(s[1..], n - 1);
      assert s[..n] == [s[0]] + s[1..][..n - 1];
    }
  }

  /** One more character place of a long-name entry, in front of a name. */
  lemma LfnCharsStep(e: seq<byte>, n: nat, name: seq<byte>)
    requires |e| == ENTRY && n < 13 && LfnChars(e, n).Some?
    ensures var u := Unichar(e, LFNCHPOS[n]);
            if u == 0xffff || u == 0 then LfnChars(e, n + 1) == LfnChars(e, n)
            else if CheckFnChar(u) < 0 then LfnChars(e, 13) == None
            else LfnChars(e, n + 1) == Some([u] + LfnChars(e, n).value)
                 && [u] + (LfnChars(e, n).value + name) == LfnChars(e, n + 1).value + name
  {
    NoneStays(e, n + 1);
  }

  lemma {:induction false} NoneStays(e: seq<byte>, n: nat)
    requires |e| == ENTRY && n <= 13
    ensures LfnChars(e, n) == None ==> LfnChars(e, 13) == None
    decreases 13 - n
  {
    if n < 13 {
      NoneStays(e, n + 1);
    }
  }

  /** A call, after its first entry. */
  lemma ReadDirStep(file: seq<byte>, a: nat, l: Lfn, mnl: int)
    ensures a + ENTRY > |file| && a <= |file| ==> ReadDir(file, a, l, mnl) == (None, |file|)
    ensures a + ENTRY <= |file| && file[a] == 0 ==> ReadDir(file, a, l, mnl) == (None, a + ENTRY)
    ensures !AtEnd(file, a) ==>
              ReadDir(file, a, l, mnl) == if Report(l, EntryAt(file, a), mnl).Some? then (Report(l, EntryAt(file, a), mnl), a + ENTRY)
                                          else ReadDir(file, a + ENTRY, Next(l, EntryAt(file, a)), mnl)
  {
  }

  /** An entry that is reported the same way with and without l. */
  lemma ReadDirSame(file: seq<byte>, a: nat, l: Lfn, mnl: int)
    requires !AtEnd(file, a) && Report(l, EntryAt(file, a), mnl) == Report(NoLfn, EntryAt(file, a), mnl) != None
    ensures ReadDir(file, a, l, mnl) == ReadDir(file, a, NoLfn, mnl)
  {
  }
}
