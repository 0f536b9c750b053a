/**
 What a program that reads a whole directory sees: long names survive being written as
 section 7 of the Microsoft FAT Specification (2005) lays them out, and every file in
 use is reported once, in order, unless a long name was left unfinished right before it.
 */
module FatNames {
  import opened Options
  import opened FatSpec

  // ---- writing a long name -------------------------------------------------------------

  /** The number of entries a name needs. */
  function Entries(name: seq<byte>): nat {
    (|name| + 12) / 13
  }

  /** The part of the name that goes into the entry with ordinal k. */
  function Chunk(name: seq<byte>, k: nat): seq<byte>
    requires 1 <= k <= Entries(name)
  {
    name[13 * (k - 1)..if 13 * k < |name| then 13 * k else |name|]
  }

  /** The j-th character place of an entry: a zero ends the name, 0xffff fills up. */
  function Place(chars: seq<byte>, j: nat): nat {
    if j < |chars| then chars[j] else if j == |chars| then 0 else 0xffff
  }

  function Low(u: nat): byte {
    u % 256
  }

  function High(u: nat): byte {
    u / 256 % 256
  }

  /** The character place that byte i of a long-name entry belongs to, if it belongs to one. */
  function PlaceOf(i: nat): Option<nat> {
    if 1 <= i <= 10 then Some((i - 1) / 2)
    else if 14 <= i <= 25 then Some(5 + (i - 14) / 2)
    else if 28 <= i <= 31 then Some(11 + (i - 28) / 2)
    else None
  }

  /** Byte i of a long-name entry: ordinal, 5 characters, attribute, type, checksum, 6 characters, cluster, 2 characters. */
  function LongByte(ord: byte, sum: byte, chars: seq<byte>, i: nat): byte {
    match PlaceOf(i)
    case Some(j) => if i % 2 == (if i <= 10 then 1 else 0) then Low(Place(chars, j)) else High(Place(chars, j))
    case None => if i == 0 then ord else if i == 11 then 0x0f else if i == 13 then sum else 0
  }

  function LongEntry(ord: byte, sum: byte, chars: seq<byte>): (e: seq<byte>)
    ensures |e| == ENTRY
  {
    seq(ENTRY, i requires 0 <= i => LongByte(ord, sum, chars, i))
  }

  /** The long-name entries of a name with ordinals k down to 1; the first of all carries the mark. */
  function LongEntries(name: seq<byte>, sum: byte, k: nat): seq<byte>
    requires k <= Entries(name) <= MAX_ORDINAL
  {
    if k == 0 then []
    else LongEntry(if k == Entries(name) then k + 0x40 else k, sum, Chunk(name, k)) + LongEntries(name, sum, k - 1)
  }

  // ---- reading it back ---------------------------------------------------------------------

  lemma Places(ord: byte, sum: byte, chars: seq<byte>, n: nat)
    requires n < 13
    ensures Unichar(LongEntry(ord, sum, chars), LFNCHPOS[n]) == Place(chars, 12 - n)
  {
    var p := LFNCHPOS[n];
    assert PlaceOf(p) == PlaceOf(p + 1) == Some(12 - n);
    assert p % 2 == if p <= 10 then 1 else 0;
  }

  /** The permitted characters of an entry from place 12 down to place 13 - n. */
  function LastChars(chars: seq<byte>, n: nat): seq<byte>
    requires n <= 13
  {
    if 13 - n < |chars| then chars[13 - n..] else []
  }

  lemma OneCharBack(e: seq<byte>, chars: seq<byte>, n: nat)
    requires |e| == ENTRY && |chars| <= 13 && AllPermitted(chars) && n < 13
    requires Unichar(e, LFNCHPOS[n]) == Place(chars, 12 - n) && LfnChars(e, n) == Some(LastChars(chars, n))
    ensures LfnChars(e, n + 1) == Some(LastChars(chars, n + 1))
  {
    hide Permitted, CheckFnChar, Unichar;
    var i := 12 - n;
    if i < |chars| {
      PermittedMeans(chars[i]);
      assert chars[i..] == [chars[i]] + LastChars(chars, n);
    }
  }

  lemma {:induction false} CharsBack(ord: byte, sum: byte, chars: seq<byte>, n: nat)
    requires |chars| <= 13 && AllPermitted(chars) && n <= 13
    ensures LfnChars(LongEntry(ord, sum, chars), n) == Some(LastChars(chars, n))
  {
    hide LongEntry, LfnChars, LastChars, AllPermitted;
    if n == 0 {
      NoChars(LongEntry(ord, sum, chars), chars);
    } else {
      CharsBack(ord, sum, chars, n - 1);
      Places(ord, sum, chars, n - 1);
      OneCharBack(LongEntry(ord, sum, chars), chars, n - 1);
    }
  }

  lemma NoChars(e: seq<byte>, chars: seq<byte>)
    requires |e| == ENTRY && |chars| <= 13
    ensures LfnChars(e, 0) == Some(LastChars(chars, 0))
  {
  }

  lemma PermittedMeans(c: byte)
    requires Permitted(c)
    ensures c != 0 && c < 0x80 && CheckFnChar(c) >= 0
  {
  }

  /** The name from the chunk with ordinal k + 1 on. */
  function Tail(name: seq<byte>, k: nat): seq<byte> {
    if 13 * k < |name| then name[13 * k..] else []
  }

  /** The state after the entries with ordinals above k. */
  function After(name: seq<byte>, sum: byte, k: nat): Lfn {
    if k == Entries(name) then NoLfn else Lfn(k + 1, sum, Tail(name, k))
  }

  lemma TailStep(name: seq<byte>, k: nat)
    requires 1 <= |name| <= LFN_LIMIT && 1 <= k <= Entries(name)
    ensures Chunk(name, k) + Tail(name, k) == Tail(name, k - 1) && |Tail(name, k - 1)| <= LFN_LIMIT
    ensures k == Entries(name) ==> Tail(name, k) == []
  {
  }

  lemma ContinueTakes(l: Lfn, e: seq<byte>, c: seq<byte>)
    requires |e| == ENTRY && !Skipped(e) && IsLong(e) && l.left != 0
    requires e[SUM] == l.sum && !StartBit(e[0]) && e[0] == l.left - 1
    requires LfnChars(e, 13) == Some(c) && |c + l.name| <= LFN_LIMIT
    ensures Next(l, e) == Lfn(e[0], l.sum, c + l.name)
  {
  }

  lemma BeginTakes(e: seq<byte>, c: seq<byte>)
    requires |e| == ENTRY && !Skipped(e) && IsLong(e) && LfnChars(e, 13) == Some(c)
    requires StartBit(e[0]) && 0x40 < e[0] <= 0x40 + MAX_ORDINAL
    ensures Next(NoLfn, e) == Lfn(e[0] - 0x40, e[SUM], c)
  {
  }

  lemma EntryTaken(name: seq<byte>, sum: byte, k: nat)
    requires 1 <= |name| <= LFN_LIMIT && AllPermitted(name) && 1 <= k <= Entries(name) <= MAX_ORDINAL
    ensures var e := LongEntry(if k == Entries(name) then k + 0x40 else k, sum, Chunk(name, k));
            && e[0] != 0 && !LiveShort(e) && Next(After(name, sum, k), e) == After(name, sum, k - 1)
  {
    var c := Chunk(name, k);
    hide LfnChars, LongEntry, StartBit, Next, Tail, Entries, Permitted;
    var ord: byte := if k == Entries(name) then k + 0x40 else k;
    var e := LongEntry(ord, sum, c);
    EntryBytes(ord, sum, c);
    CharsBack(ord, sum, c, 13);
    assert LfnChars(e, 13) == Some(c);
    TailStep(name, k);
    Marked(k);
    if k == Entries(name) {
      BeginTakes(e, c);
      assert c + [] == c;
    } else {
      ContinueTakes(After(name, sum, k), e, c);
    }
  }

  lemma EntryBytes(ord: byte, sum: byte, chars: seq<byte>)
    ensures var e := LongEntry(ord, sum, chars); e[0] == ord && e[ATTR] == LFN_ATTR && e[SUM] == sum
  {
  }

  lemma Marked(k: nat)
    requires 1 <= k <= MAX_ORDINAL
    ensures !StartBit(k) && StartBit(k + 0x40)
  {
  }

  /** The entry of a file or directory: not erased, no long-name entry and no volume label. */
  predicate InUse(e: seq<byte>)
    requires |e| == ENTRY
  {
    e[0] != 0xe5 && e[11] != 0x0f && e[11] % 16 != 8
  }

  // ---- the checksum, the permitted characters and the short name ---------------------------

  /** next is cs rotated right by one bit, plus x, modulo 256. */
  ghost predicate AddsTo(cs: byte, x: byte, next: byte) {
    exists r: byte :: r % 128 == cs / 2 && r / 128 == cs % 2 && next == (r + x) % 256
  }

  /** sums are the checksums of ever longer parts of s. */
  ghost predicate SumsUp(s: seq<byte>, sums: seq<byte>) {
    |sums| == |s| + 1 && sums[0] == 0 && forall i :: 0 <= i < |s| ==> AddsTo(sums[i], s[i], sums[i + 1])
  }

  /** The checksum of a short name: from 0, rotate right and add each byte. */
  ghost predicate IsSum(s: seq<byte>, c: byte) {
    exists sums :: SumsUp(s, sums) && sums[|s|] == c
  }

  lemma AddsToIs(cs: byte, x: byte, next: byte)
    ensures AddsTo(cs, x, next) <==> next == (cs % 2 * 128 + cs / 2 + x) % 256
  {
    var r: byte := cs % 2 * 128 + cs / 2;
    assert r % 128 == cs / 2 && r / 128 == cs % 2;
    forall q: byte | q % 128 == cs / 2 && q / 128 == cs % 2
      ensures q == r
    {
    }
  }

  lemma {:induction false} SumsAre(s: seq<byte>, sums: seq<byte>)
    requires SumsUp(s, sums)
    ensures sums[|s|] == SumOf(s)
  {
    hide AddsTo;
    if s != [] {
      var k := |s| - 1;
      assert forall i :: 0 <= i < k ==> s[..k][i] == s[i];
      SumsAre(s[..k], sums[..k + 1]);
      assert AddsTo(sums[k], s[k], sums[k + 1]);
      AddsToIs(sums[k], s[k], sums[k + 1]);
    }
  }

  lemma {:induction false} SumsExist(s: seq<byte>) returns (sums: seq<byte>)
    ensures SumsUp(s, sums)
  {
    hide AddsTo;
    if s == [] {
      sums := [0];
    } else {
      var k := |s| - 1;
      var head := SumsExist(s[..k]);
      var (cs: int, x: int) := (head[k], s[k]);
      var next: byte := (cs % 2 * 128 + cs / 2 + x) % 256;
      AddsToIs(head[k], s[k], next);
      sums := head + [next];
      forall i | 0 <= i < |s|
        ensures AddsTo(sums[i], s[i], sums[i + 1])
      {
        assert i < k ==> AddsTo(head[i], s[..k][i], head[i + 1]);
      }
    }
  }

  lemma SumIs(s: seq<byte>, c: byte)
    ensures IsSum(s, c) <==> c == SumOf(s)
  {
    hide AddsTo, SumOf;
    var sums := SumsExist(s);
    SumsAre(s, sums);
    if other :| SumsUp(s, other) && other[|s|] == c {
      SumsAre(s, other);
    }
  }

  /** The characters a file name may have. */
  lemma PermittedAre(c: byte)
    ensures Permitted(c) <==>
              var x := c as char;
              || '0' <= x <= '9' || 'A' <= x <= 'Z' || 'a' <= x <= 'z'
              || x == '@' || x == '.' || x == '-' || x == '_' || x == '(' || x == ')' || x == '$' || x == '&'
  {
  }

  /** s, filled up with spaces, is the part of the entry from position a to b. */
  ghost predicate Padded(e: seq<byte>, a: nat, b: nat, s: seq<byte>)
    requires b <= |e|
  {
    && a + |s| <= b && e[a..a + |s|] == s
    && (forall i :: 0 <= i < |s| ==> s[i] != 0x20 && s[i] != 0)
    && (forall i :: a + |s| <= i < b ==> e[i] == 0x20)
  }

  lemma PaddedRead(e: seq<byte>, a: nat, b: nat, s: seq<byte>)
    requires a <= b <= |e| && Padded(e, a, b, s)
    ensures UntilSpace(e[a..b]) == s
  {
    var t := e[a..b];
    assert t[..|s|] == e[a..a + |s|] == s;
    assert forall i :: 0 <= i < |s| ==> t[i] == s[i];
    UntilSpaceIs(t, |s|);
  }

  /** Every short name, its parts filled up with spaces, is read with a dot only before an extension. */
  lemma ShortNameRead(e: seq<byte>, base: seq<byte>, ext: seq<byte>)
    requires |e| == ENTRY && base != [] && Padded(e, 0, 8, base) && Padded(e, 8, 11, ext)
    ensures CString(ShortName(e)) == if ext == [] then base else base + [0x2e] + ext
  {
    assert Padded(e, 1, 8, base[1..]);
    PaddedRead(e, 1, 8, base[1..]);
    PaddedRead(e, 8, 11, ext);
    assert e[0] == e[0..|base|][0] == base[0] && [base[0]] + base[1..] == base;
    assert ext != [] ==> e[8] == e[8..8 + |ext|][0] == ext[0];
    var name := ShortName(e);
    CStringWhole(name, [0]);
    CStringCut(name, [0]);
  }

  lemma NotReported(l: Lfn, e: seq<byte>, mnl: int)
    requires |e| == ENTRY && !LiveShort(e)
    ensures Report(l, e, mnl) == None
  {
  }

  /** The name a file gets when its complete long name, with checksum sum, precedes it. */
  function NameOf(name: seq<byte>, sum: byte, e: seq<byte>, mnl: int): seq<byte>
    requires |e| == ENTRY
  {
    if sum == Checksum(e) && |name| <= mnl then name else CString(ShortName(e))
  }

  lemma ReportsName(name: seq<byte>, sum: byte, e: seq<byte>, mnl: int)
    requires |e| == ENTRY && LiveShort(e)
    ensures Report(Lfn(1, sum, name), e, mnl) == Some(NameOf(name, sum, e, mnl))
  {
  }

  lemma {:induction false} LongEntriesRead(name: seq<byte>, sum: byte, e: seq<byte>, k: nat, a: nat, file: seq<byte>, mnl: int)
    requires 1 <= |name| <= LFN_LIMIT && AllPermitted(name)
    requires k <= Entries(name) <= MAX_ORDINAL
    requires |e| == ENTRY && e[0] != 0 && LiveShort(e)
    requires a <= |file| && LongEntries(name, sum, k) + e <= file[a..]
    ensures ReadDir(file, a, After(name, sum, k), mnl)
         == (Some(NameOf(name, sum, e, mnl)), a + |LongEntries(name, sum, k)| + ENTRY)
  {
    hide Checksum, Next, Report, LongEntry, NameOf;
    var es := LongEntries(name, sum, k);
    if k == 0 {
      ReportsName(name, sum, e, mnl);
      assert EntryAt(file, a) == file[a..][..ENTRY] == e;
      assert Tail(name, 0) == name;
    } else {
      var x := LongEntry(if k == Entries(name) then k + 0x40 else k, sum, Chunk(name, k));
      var rest := LongEntries(name, sum, k - 1);
      assert es + e == x + (rest + e);
      EntryTaken(name, sum, k);
      assert file[a] == x[0] != 0;
      assert EntryAt(file, a) == file[a..][..ENTRY] == x;
      assert file[a + ENTRY..] == file[a..][ENTRY..];
      assert rest + e <= file[a + ENTRY..];
      assert Report(After(name, sum, k), x, mnl) == None by {
        NotReported(After(name, sum, k), x, mnl);
      }
      LongEntriesRead(name, sum, e, k - 1, a + ENTRY, file, mnl);
    }
  }

  /**
   Long-name round trip: every name of 1 to 99 permitted characters, written as long-name
   entries ahead of its short entry, is read back, provided that it is not longer than the
   limit and carries the checksum of the short entry; otherwise the short name is read.
   */
  lemma LongNameRoundTrip(name: seq<byte>, sum: byte, e: seq<byte>, before: seq<byte>, after: seq<byte>, mnl: int)
    requires 1 <= |name| <= 99 && AllPermitted(name)
    requires |e| == ENTRY && e[0] != 0 && InUse(e)
    ensures Entries(name) <= MAX_ORDINAL
    ensures var es := LongEntries(name, sum, Entries(name));
            ReadDir(before + es + e + after, |before|, NoLfn, mnl)
            == (Some(if IsSum(e[..11], sum) && |name| <= mnl then name else CString(ShortName(e))), |before + es + e|)
  {
    hide LongEntries, AllPermitted, CString, ShortName, IsSum, SumOf, ReadDir;
    SumIs(e[..11], sum);
    var es := LongEntries(name, sum, Entries(name));
    var file := before + es + e + after;
    assert file[|before|..] == es + e + after;
    LongEntriesRead(name, sum, e, Entries(name), |before|, file, mnl);
  }

  /**
   A file in use that follows the first of several long-name entries, the others missing,
   is not reported at all.
   */
  lemma UnfinishedNameHidesFile(name: seq<byte>, sum: byte, e: seq<byte>, mnl: int)
    requires 13 < |name| <= 99 && AllPermitted(name)
    requires |e| == ENTRY && e[0] != 0 && InUse(e)
    ensures var n := Entries(name);
            n <= MAX_ORDINAL && AllCalls(LongEntry(n + 0x40, sum, Chunk(name, n)) + e, 0, mnl) == []
  {
    var n := Entries(name);
    var x := LongEntry(n + 0x40, sum, Chunk(name, n));
    var file := x + e;
    EntryTaken(name, sum, n);
    hide Next, LongEntry, Checksum;
    assert EntryAt(file, 0) == x && EntryAt(file, ENTRY) == e;
    NotReported(NoLfn, x, mnl);
    ReadDirStep(file, 0, NoLfn, mnl);
    ReadDirStep(file, ENTRY, After(name, sum, n - 1), mnl);
    ReadDirStep(file, 2 * ENTRY, Next(After(name, sum, n - 1), e), mnl);
  }

  // ---- reading a whole directory ---------------------------------------------------------------

  /** What is reported for the entries from position a on, one after the other. */
  function Names(file: seq<byte>, a: nat, l: Lfn, mnl: int): seq<seq<byte>>
    decreases |file| - a
  {
    if AtEnd(file, a) then []
    else
      var e := EntryAt(file, a);
      (if Report(l, e, mnl).Some? then [Report(l, e, mnl).value] else []) + Names(file, a + ENTRY, Next(l, e), mnl)
  }

  lemma {:induction false} ReadDirAdvances(file: seq<byte>, a: nat, l: Lfn, mnl: int)
    requires a <= |file|
    ensures ReadDir(file, a, l, mnl).0.Some? ==> a < ReadDir(file, a, l, mnl).1 <= |file|
    decreases |file| - a
  {
    if !AtEnd(file, a) && Report(l, EntryAt(file, a), mnl) == None {
      ReadDirAdvances(file, a + ENTRY, Next(l, EntryAt(file, a)), mnl);
    }
  }

  /** The names that calls of CHDKReadDir report until the first one that reports none. */
  function AllCalls(file: seq<byte>, a: nat, mnl: int): seq<seq<byte>>
    requires a <= |file|
    decreases |file| - a
  {
    var r := ReadDir(file, a, NoLfn, mnl);
    ReadDirAdvances(file, a, NoLfn, mnl);
    if r.0 == None then [] else [r.0.value] + AllCalls(file, r.1, mnl)
  }

  /** One call finds the first name of those still to come. */
  lemma {:induction false} ReadDirIsFirst(file: seq<byte>, a: nat, l: Lfn, mnl: int)
    requires a <= |file|
    ensures var r := ReadDir(file, a, l, mnl);
            Names(file, a, l, mnl) == if r.0 == None then [] else [r.0.value] + Names(file, r.1, NoLfn, mnl)
    decreases |file| - a
  {
    hide Report, LiveShort;
    ReadDirStep(file, a, l, mnl);
    if !AtEnd(file, a) {
      var e := EntryAt(file, a);
      if Report(l, e, mnl) == None {
        ReadDirIsFirst(file, a + ENTRY, Next(l, e), mnl);
      } else {
        AfterReport(l, e, mnl);
      }
    }
  }

  lemma AfterReport(l: Lfn, e: seq<byte>, mnl: int)
    requires |e| == ENTRY && Report(l, e, mnl).Some?
    ensures Next(l, e) == NoLfn
  {
  }

  /** Reading a directory call by call reports the same names, in order, as going through its entries. */
  lemma {:induction false} AllCallsAreNames(file: seq<byte>, a: nat, mnl: int)
    requires a <= |file|
    ensures AllCalls(file, a, mnl) == Names(file, a, NoLfn, mnl)
    decreases |file| - a
  {
    ReadDirIsFirst(file, a, NoLfn, mnl);
    ReadDirAdvances(file, a, NoLfn, mnl);
    var r := ReadDir(file, a, NoLfn, mnl);
    if r.0.Some? {
      AllCallsAreNames(file, r.1, mnl);
    }
  }

  /** n entries lie before the end of the directory. */
  ghost predicate Within(file: seq<byte>, n: nat) {
    forall i :: 0 <= i < n ==> !AtEnd(file, ENTRY * i)
  }

  /** The long name being collected when the n-th entry comes up. */
  ghost function Pending(file: seq<byte>, n: nat): Lfn
    requires Within(file, n)
  {
    if n == 0 then NoLfn else Next(Pending(file, n - 1), EntryAt(file, ENTRY * (n - 1)))
  }

  /** The names reported for the first n entries. */
  ghost function NamesUpTo(file: seq<byte>, n: nat, mnl: int): seq<seq<byte>>
    requires Within(file, n)
  {
    if n == 0 then []
    else
      var r := Report(Pending(file, n - 1), EntryAt(file, ENTRY * (n - 1)), mnl);
      NamesUpTo(file, n - 1, mnl) + if r.Some? then [r.value] else []
  }

  lemma NamesFirst(file: seq<byte>, a: nat, l: Lfn, mnl: int)
    requires !AtEnd(file, a)
    ensures var r := Report(l, EntryAt(file, a), mnl);
            Names(file, a, l, mnl) == (if r.Some? then [r.value] else []) + Names(file, a + ENTRY, Next(l, EntryAt(file, a)), mnl)
  {
    hide Report, Next;
  }

  /** The whole listing is the names of all entries before the end. */
  lemma {:induction false} NamesSplit(file: seq<byte>, n: nat, mnl: int)
    requires Within(file, n)
    ensures Names(file, 0, NoLfn, mnl) == NamesUpTo(file, n, mnl) + Names(file, ENTRY * n, Pending(file, n), mnl)
  {
    hide Report, Next, AtEnd, EntryAt, Names;
    if n > 0 {
      NamesSplit(file, n - 1, mnl);
      var a := ENTRY * (n - 1);
      assert !AtEnd(file, a);
      var (l, e) := (Pending(file, n - 1), EntryAt(file, a));
      var x := if Report(l, e, mnl).Some? then [Report(l, e, mnl).value] else [];
      var rest := Names(file, a + ENTRY, Next(l, e), mnl);
      NamesFirst(file, a, l, mnl);
      assert NamesUpTo(file, n - 1, mnl) + (x + rest) == NamesUpTo(file, n - 1, mnl) + x + rest;
    } else {
      assert [] + Names(file, 0, NoLfn, mnl) == Names(file, 0, NoLfn, mnl);
    }
  }

  // ---- open long names, over the entries alone -----------------------------------------------

  /** Where the 13 characters of a long-name entry lie, in the order of the name. */
  const LFN_PLACES: seq<nat> := [1, 3, 5, 7, 9, 14, 16, 18, 20, 22, 24, 28, 30]

  /** The character at place i of a long-name entry. */
  function CharAt(e: seq<byte>, i: nat): nat
    requires |e| == ENTRY && i < 13
  {
    Unichar(e, LFN_PLACES[i])
  }

  /** Place i is unused, or it has a permitted character. */
  ghost predicate CharFits(e: seq<byte>, i: nat)
    requires |e| == ENTRY && i < 13
  {
    var u := CharAt(e, i);
    u == 0 || u == 0xffff || (u < 0x80 && Permitted(u))
  }

  ghost predicate CharsFit(e: seq<byte>, i: nat)
    requires |e| == ENTRY && i <= 13
  {
    forall k :: i <= k < 13 ==> CharFits(e, k)
  }

  /** The characters from place i on, without the unused places. */
  function CharsFrom(e: seq<byte>, i: nat): seq<byte>
    requires |e| == ENTRY && i <= 13
    decreases 13 - i
  {
    if i == 13 then []
    else (if 0 < CharAt(e, i) < 0x80 then [CharAt(e, i)] else []) + CharsFrom(e, i + 1)
  }

  function Chars(e: seq<byte>): seq<byte>
    requires |e| == ENTRY
  {
    CharsFrom(e, 0)
  }

  /** The reader, which goes backwards, finds these characters, or gives up if one is not permitted. */
  lemma {:induction false} CharsRead(e: seq<byte>, n: nat)
    requires |e| == ENTRY && n <= 13
    ensures LfnChars(e, n) == if CharsFit(e, 13 - n) then Some(CharsFrom(e, 13 - n)) else None
  {
    hide CharFits, CheckFnChar, LfnChars, CharAt;
    if n == 0 {
      NoChars(e, []);
    } else {
      CharsRead(e, n - 1);
      var i := 13 - n;
      OneChar(e, i);
      LfnCharsBack(e, i);
      assert [] + CharsFrom(e, i + 1) == CharsFrom(e, i + 1);
      assert CharsFit(e, i) <==> CharFits(e, i) && CharsFit(e, i + 1);
    }
  }

  lemma LfnCharsBack(e: seq<byte>, i: nat)
    requires |e| == ENTRY && i < 13
    ensures var u := CharAt(e, i);
            LfnChars(e, 13 - i) ==
              match LfnChars(e, 12 - i)
              case None => None
              case Some(s) =>
                if u == 0xffff || u == 0 then Some(s) else if CheckFnChar(u) < 0 then None else Some([u] + s)
  {
    PlacesBack(i);
  }

  lemma OneChar(e: seq<byte>, i: nat)
    requires |e| == ENTRY && i < 13
    ensures var u := CharAt(e, i);
            && (CharFits(e, i) <==> u == 0 || u == 0xffff || CheckFnChar(u) >= 0)
            && (CharFits(e, i) ==> (u == 0 || u == 0xffff <==> !(0 < u < 0x80)))
  {
  }

  lemma PlacesBack(i: nat)
    requires i < 13
    ensures LFNCHPOS[12 - i] == LFN_PLACES[i]
  {
  }

  /** The characters of entries s to n - 1, last entry first. */
  function RunName(file: seq<byte>, s: nat, n: nat): seq<byte>
    requires s <= n && Within(file, n)
  {
    if s == n then [] else Chars(EntryAt(file, ENTRY * (n - 1))) + RunName(file, s, n - 1)
  }

  /** Entry e, i places after the entry first that starts a long name, goes on with it. */
  ghost predicate Belongs(first: seq<byte>, i: nat, e: seq<byte>)
    requires |first| == ENTRY && |e| == ENTRY
  {
    && e[11] == 0x0f && CharsFit(e, 0) && e[13] == first[13]
    && (i > 0 ==> 0x40 + i + e[0] as int == first[0] as int)
  }

  ghost predicate AllBelong(file: seq<byte>, s: nat, n: nat)
    requires s < n && Within(file, n)
  {
    forall i :: s <= i < n ==> Belongs(EntryAt(file, ENTRY * s), i - s, EntryAt(file, ENTRY * i))
  }

  /**
   Entries s to n - 1 are the unbroken start of a long name: the first is marked and has an
   ordinal of 1 to 8, all have its checksum and permitted characters, the ordinals fall by
   one, and there are at most 99 characters.
   */
  ghost predicate Run(file: seq<byte>, s: nat, n: nat)
    requires Within(file, n)
  {
    && s < n && 0x40 < EntryAt(file, ENTRY * s)[0] <= 0x48
    && AllBelong(file, s, n) && |RunName(file, s, n)| <= 99
  }

  /** Such a run, with no other one open when it starts. */
  ghost predicate Open(file: seq<byte>, s: nat, n: nat)
    requires Within(file, n)
    decreases n
  {
    Run(file, s, n) && forall r :: 0 <= r < s ==> !Open(file, r, s)
  }

  /** The ordinal of the last of n entries. */
  function Ordinal(file: seq<byte>, n: nat): nat
    requires 0 < n && Within(file, n)
  {
    EntryAt(file, ENTRY * (n - 1))[0] % 64
  }

  /** A run with one entry, and a run with one more. */
  lemma RunStep(file: seq<byte>, s: nat, n: nat)
    requires s < n && Within(file, n)
    ensures var (e, first) := (EntryAt(file, ENTRY * (n - 1)), EntryAt(file, ENTRY * s));
            Run(file, s, n) <==>
              && (if s == n - 1 then 0x40 < e[0] <= 0x40 + MAX_ORDINAL else Run(file, s, n - 1))
              && Belongs(first, n - 1 - s, e) && |Chars(e) + RunName(file, s, n - 1)| <= LFN_LIMIT
  {
    hide AtEnd, EntryAt, Chars, CharsFit;
    assert RunName(file, s, n) == Chars(EntryAt(file, ENTRY * (n - 1))) + RunName(file, s, n - 1);
  }

  /** The last ordinal of a run. */
  lemma RunOrdinal(file: seq<byte>, s: nat, n: nat)
    requires Within(file, n) && Run(file, s, n)
    ensures 0x40 + (n - 1 - s) + Ordinal(file, n) == EntryAt(file, ENTRY * s)[0] as int && Ordinal(file, n) > 0
  {
    hide RunName, CharsFit;
    assert Belongs(EntryAt(file, ENTRY * s), n - 1 - s, EntryAt(file, ENTRY * (n - 1)));
    assert !AtEnd(file, ENTRY * (n - 1));
  }

  lemma WholeEntry(e: seq<byte>)
    requires |e| == ENTRY
    ensures Chars(e) == CharsFrom(e, 0)
  {
  }

  /** A long name begins. */
  lemma Begins(l: Lfn, e: seq<byte>)
    requires |e| == ENTRY && l.left == 0
    ensures if 0x40 < e[0] <= 0x40 + MAX_ORDINAL && Belongs(e, 0, e) then Next(l, e) == Lfn(e[0] - 0x40, e[SUM], Chars(e))
            else Next(l, e).left == 0
  {
    hide LfnChars, Chars, CharsFrom, CharsFit;
    CharsRead(e, 13);
    WholeEntry(e);
  }

  /** A long name goes on, or is given up. */
  lemma GoesOn(first: seq<byte>, l: Lfn, i: nat, e: seq<byte>)
    requires |first| == ENTRY && |e| == ENTRY && i > 0 && e[0] != 0
    requires 0 < l.left <= MAX_ORDINAL && 0x3f + i + l.left == first[0] as int && l.sum == first[SUM]
    ensures if Belongs(first, i, e) && |Chars(e) + l.name| <= LFN_LIMIT
            then Next(l, e) == Lfn(e[0], l.sum, Chars(e) + l.name)
            else Next(l, e).left == 0
  {
    hide LfnChars, Chars, CharsFrom, CharsFit;
    CharsRead(e, 13);
    WholeEntry(e);
  }

  /** The reader has the long name of run s. */
  ghost predicate Has(file: seq<byte>, s: nat, n: nat)
    requires s < n && Within(file, n)
  {
    Pending(file, n) == Lfn(Ordinal(file, n), EntryAt(file, ENTRY * s)[13], RunName(file, s, n))
  }

  lemma AfterNone(file: seq<byte>, n: nat)
    requires 0 < n && Within(file, n) && Pending(file, n - 1).left == 0
    ensures if Run(file, n - 1, n) then Has(file, n - 1, n) else Pending(file, n).left == 0
  {
    hide Next, LfnChars, Run, AtEnd, EntryAt, Chars, CharsFrom, CharsFit;
    var e := EntryAt(file, ENTRY * (n - 1));
    Begins(Pending(file, n - 1), e);
    RunStep(file, n - 1, n);
    assert RunName(file, n - 1, n - 1) == [] && Chars(e) + [] == Chars(e);
    LfnCharsPermitted(e, 13);
    CharsRead(e, 13);
    WholeEntry(e);
  }

  lemma AfterRun(file: seq<byte>, s: nat, n: nat)
    requires s < n - 1 && Within(file, n) && Run(file, s, n - 1) && Has(file, s, n - 1)
    ensures if Run(file, s, n) then Has(file, s, n) else Pending(file, n).left == 0
  {
    hide Next, LfnChars, Run, Chars, CharsFit;
    var e := EntryAt(file, ENTRY * (n - 1));
    RunOrdinal(file, s, n - 1);
    RunOfEight(file, s, n - 1);
    RunStep(file, s, n);
    assert !AtEnd(file, ENTRY * (n - 1)) && e[0] == file[ENTRY * (n - 1)];
    GoesOn(EntryAt(file, ENTRY * s), Pending(file, n - 1), n - 1 - s, e);
  }

  lemma RunOfEight(file: seq<byte>, s: nat, n: nat)
    requires Within(file, n) && Run(file, s, n)
    ensures 0x40 < EntryAt(file, ENTRY * s)[0] <= 0x40 + MAX_ORDINAL
  {
  }

  lemma OpenStep(file: seq<byte>, s: nat, n: nat)
    requires s < n && Within(file, n)
    ensures Open(file, s, n) <==> Run(file, s, n) && if s == n - 1 then NoneOpen(file, n - 1) else Open(file, s, n - 1)
  {
    hide Run, Chars, CharsFit;
    RunStep(file, s, n);
  }

  ghost predicate NoneOpen(file: seq<byte>, n: nat)
    requires Within(file, n)
  {
    forall s :: 0 <= s < n ==> !Open(file, s, n)
  }

  /**
   The long name being collected is the open run that ends at the entry before: a name is
   open exactly when a run is, and has the run's last ordinal, its checksum and its characters.
   */
  lemma {:induction false} OpenRun(file: seq<byte>, n: nat)
    requires Within(file, n)
    ensures forall s :: 0 <= s < n && Open(file, s, n) ==> Has(file, s, n)
    ensures Pending(file, n).left == 0 <==> NoneOpen(file, n)
  {
    hide Run, Next, Open;
    if n > 0 {
      OpenRun(file, n - 1);
      forall s | 0 <= s < n && Open(file, s, n)
        ensures Has(file, s, n) && Pending(file, n).left > 0
      {
        OpenStep(file, s, n);
        if s == n - 1 {
          AfterNone(file, n);
        } else {
          IsRun(file, s, n - 1);
          AfterRun(file, s, n);
        }
        RunOrdinal(file, s, n);
      }
      if NoneOpen(file, n - 1) {
        AfterNone(file, n);
        OpenStep(file, n - 1, n);
      } else {
        var s :| 0 <= s < n - 1 && Open(file, s, n - 1);
        IsRun(file, s, n - 1);
        AfterRun(file, s, n);
        OpenStep(file, s, n);
      }
    }
  }

  lemma IsRun(file: seq<byte>, s: nat, n: nat)
    requires Within(file, n) && Open(file, s, n)
    ensures Run(file, s, n)
  {
  }

  /**
   Which entries are left out, over the entries alone: nothing is reported for those not in
   use, and a file in use is left out if and only if a run is open whose last ordinal is
   above 1.
   */
  lemma ReportedUnlessOpen(file: seq<byte>, n: nat, mnl: int)
    requires Within(file, n + 1)
    ensures Report(Pending(file, n), EntryAt(file, ENTRY * n), mnl) == None
            <==> !InUse(EntryAt(file, ENTRY * n)) || exists s :: 0 <= s < n && Open(file, s, n) && Ordinal(file, n) > 1
  {
    hide Run, Next, EntryAt, Pending;
    OpenRun(file, n);
    if !NoneOpen(file, n) {
      var s :| 0 <= s < n && Open(file, s, n);
      assert Has(file, s, n);
      assert Ordinal(file, n) > 1 ==> exists r :: 0 <= r < n && Open(file, r, n) && Ordinal(file, n) > 1;
    } else {
      assert !exists r :: 0 <= r < n && Open(file, r, n);
    }
  }

  /** A complete open run: its characters are in front of the file as its long name. */
  ghost predicate LongNameIs(file: seq<byte>, n: nat, mnl: int, name: seq<byte>)
    requires Within(file, n + 1)
  {
    exists s :: 0 <= s < n && Open(file, s, n) && Ordinal(file, n) == 1 && RunName(file, s, n) == name
                && |name| <= mnl && IsSum(EntryAt(file, ENTRY * n)[..11], EntryAt(file, ENTRY * s)[13])
  }

  /**
   How a listed file is listed, over the entries alone: by its long name if a complete run is
   open that has its checksum and is short enough, and by its short name otherwise.
   */
  lemma ReportedName(file: seq<byte>, n: nat, mnl: int, name: seq<byte>)
    requires Within(file, n + 1)
    requires Report(Pending(file, n), EntryAt(file, ENTRY * n), mnl) == Some(name)
    ensures InUse(EntryAt(file, ENTRY * n))
    ensures LongNameIs(file, n, mnl, name) || name == CString(ShortName(EntryAt(file, ENTRY * n)))
    ensures forall x :: LongNameIs(file, n, mnl, x) ==> x == name
  {
    hide Open, Next, EntryAt, ShortName, CString, IsSum, SumOf;
    OpenRun(file, n);
    if !NoneOpen(file, n) {
      var s :| 0 <= s < n && Open(file, s, n);
      assert Has(file, s, n);
      var x := RunName(file, s, n);
      SumIs(EntryAt(file, ENTRY * n)[..11], EntryAt(file, ENTRY * s)[13]);
      assert Ordinal(file, n) == 1 && |x| <= mnl && IsSum(EntryAt(file, ENTRY * n)[..11], EntryAt(file, ENTRY * s)[13])
        ==> LongNameIs(file, n, mnl, x);
    }
  }
}
