/**
 The directory reader of core/chdk-dir.c: a 16 KB read cache that can be rewound by one
 entry, and a name buffer that is filled from its end.
 */
module FatDir {
  import opened Options
  import opened FatSpec

  /** Size of the read cache, a whole number of entries. */
  const DCSIZE: nat := 16384

  /** The first rc bytes of the cache are those of the directory before pos. */
  ghost predicate Cached(file: seq<byte>, cache: seq<byte>, pos: nat, rc: nat) {
    rc <= |cache| && rc <= pos <= |file| && cache[..rc] == file[pos - rc..pos]
  }

  /** An entry in the cache is the entry in the directory. */
  lemma CachedEntry(file: seq<byte>, cache: seq<byte>, pos: nat, rc: nat, fe: nat)
    requires fe + ENTRY <= rc && Cached(file, cache, pos, rc)
    ensures cache[fe..fe + ENTRY] == file[pos - rc + fe..pos - rc + fe + ENTRY]
  {
    var (x, y) := (cache[fe..fe + ENTRY], file[pos - rc + fe..pos - rc + fe + ENTRY]);
    forall i | 0 <= i < ENTRY
      ensures x[i] == y[i]
    {
      assert cache[fe + i] == cache[..rc][fe + i] == file[pos - rc..pos][fe + i];
    }
  }

  class Dir {
    /** The directory, and how far it has been read into the cache. */
    const file: seq<byte>
    var pos: nat
    const dc: array<byte>
    var cp: int
    var rc: int
    /** The current entry, as a position in the cache. */
    var fe: nat
    var islfn: nat
    var lfnpos: nat
    const mnl: int
    const fn: array<byte>

    /** The position in the directory that the next entry is taken from. */
    ghost function At(): int
      reads this
    {
      if cp == -1 then pos else pos - (rc - cp)
    }

    /** The cache holds the part of the directory before pos. */
    ghost predicate Synced()
      reads this, dc
    {
      0 <= cp <= rc <= dc.Length && rc <= pos <= |file| && Cached(file, dc[..], pos, rc)
    }

    ghost predicate Valid()
      reads this, dc
    {
      && dc.Length == DCSIZE && fn.Length == FNMAX + 1 && (dc as object) != fn
      && pos <= |file|
      && (cp == -1 ==> pos == 0 || pos == |file|)
      && (cp != -1 ==>
            && 0 <= cp <= rc <= DCSIZE
            && (cp < rc ==> Synced() && cp % ENTRY == 0)
            && (rc == DCSIZE || pos == |file|))
    }

    /** The entry just read is in the cache, ahead of the next one. */
    ghost predicate HasEntry()
      reads this, dc
    {
      cp != -1 && Synced() && ENTRY <= cp && fe == cp - ENTRY && cp % ENTRY == 0
    }

    ghost function Entry(): seq<byte>
      requires fe + ENTRY <= dc.Length
      reads this, dc
    {
      dc[fe..fe + ENTRY]
    }

    constructor (file: seq<byte>, mnl: int)
      ensures Valid() && At() == 0 && fresh(fn) && fresh(dc) && this.file == file && this.mnl == mnl
    {
      this.file, this.mnl := file, mnl;
      pos, cp, rc, fe, islfn, lfnpos := 0, -1, 0, 0, 0, 0;
      dc := new byte[DCSIZE](_ => 0);
      fn := new byte[FNMAX + 1](_ => 0);
    }

    /** read: up to a cacheful of the directory. */
    method Read() returns (n: nat)
      requires dc.Length == DCSIZE && pos <= |file|
      modifies `pos, dc
      ensures n == (if |file| - old(pos) < DCSIZE then |file| - old(pos) else DCSIZE)
      ensures pos == old(pos) + n && Cached(file, dc[..], pos, n)
    {
      n := if |file| - pos < DCSIZE then |file| - pos else DCSIZE;
      forall i | 0 <= i < n {
        dc[i] := file[pos + i];
      }
      pos := pos + n;
    }

    lemma EntryCached()
      requires Synced() && fe + ENTRY <= rc
      ensures Entry() == file[pos - rc + fe..pos - rc + fe + ENTRY]
    {
      hide Cached;
      CachedEntry(file, dc[..], pos, rc, fe);
      assert Entry() == dc[..][fe..fe + ENTRY];
    }

    /** What reading the next 32 bytes at position a comes to. */
    ghost predicate Delivered(a: int, rd: nat)
      reads this, dc
    {
      && Valid()
      && if a + ENTRY <= |file|
         then rd == ENTRY && HasEntry() && At() == a + ENTRY && Entry() == file[a..a + ENTRY]
         else rd < ENTRY && At() == |file|
    }

    /** The next entry, when the cache is used up. */
    method ReadFresh() returns (rd: nat)
      requires Valid() && (cp == -1 || cp >= rc)
      modifies `pos, `cp, `rc, `fe, dc
      ensures Delivered(old(At()), rd)
    {
      hide Cached;
      var n := Read();
      if n < ENTRY {
        return n;
      }
      rc := n;
      fe := 0;
      cp := ENTRY;
      EntryCached();
      return ENTRY;
    }

    /** The next entry, or what is left, from the cache. */
    method ReadCached() returns (rd: nat)
      requires Valid() && 0 <= cp < rc
      modifies `cp, `fe
      ensures Delivered(old(At()), rd)
    {
      hide Cached;
      rd := if rc - cp < ENTRY then rc - cp else ENTRY;
      fe := cp;
      cp := cp + rd;
      if rd == ENTRY {
        EntryCached();
      }
    }

    /** The next 32 bytes of the directory, however the cache stands. */
    method ReadNextEntry() returns (rd: nat)
      requires Valid()
      modifies `pos, `cp, `rc, `fe, dc
      ensures Delivered(old(At()), rd)
    {
      hide Delivered;
      if cp == -1 || cp >= (if DCSIZE < rc then DCSIZE else rc) {
        rd := ReadFresh();
      } else {
        rd := ReadCached();
      }
    }

    /** The entry just read will be read again. */
    method RewindEntry()
      requires Valid() && HasEntry()
      modifies `cp
      ensures Valid() && At() == old(At()) - ENTRY
    {
      cp := cp - ENTRY;
    }
 
    // ---- the name buffer --------------------------------------------------------------

    /** The part of a long name that has been collected, at the end of the buffer. */
    ghost function LongName(): seq<byte>
      requires fn.Length == FNMAX + 1 && 1 <= lfnpos <= FNMAX + 1
      reads this, fn
    {
      fn[FNMAX - lfnpos + 1..FNMAX]
    }

    /** Put the characters of the current entry in front of the long name. */
    method ReadLfnEntry()
      requires Valid() && HasEntry() && 1 <= lfnpos && lfnpos + 13 <= FNMAX + 1 && fn[FNMAX] == 0
      modifies `islfn, `lfnpos, fn
      ensures Valid() && HasEntry() && fn[FNMAX] == 0 && Entry() == old(Entry()) && 1 <= lfnpos <= FNMAX + 1
      ensures match LfnChars(Entry(), 13)
              case None => islfn == 0
              case Some(s) => islfn == old(islfn) && lfnpos == old(lfnpos) + |s| && LongName() == s + old(LongName())
    {
      hide LfnChars;
      ghost var (e, name) := (Entry(), LongName());
      assert LfnChars(e, 0) == Some([]) && [] + name == name by {
        LfnCharsNone(e);
      }
      for n := 0 to 13
        invariant fn[FNMAX] == 0 && 1 <= lfnpos && islfn == old(islfn) && LfnChars(e, n).Some?
        invariant lfnpos == old(lfnpos) + |LfnChars(e, n).value| && |LfnChars(e, n).value| <= n
        invariant LongName() == LfnChars(e, n).value + name
      {
        LfnCharsStep(e, n, name);
        var uch := UnicharAt(LFNCHPOS[n]);
        if uch != 0xffff && uch != 0 {
          if CheckFnChar(uch) < 0 {
            islfn := 0;
            break;
          }
          PutChar(uch);
        }
      }
    }

    lemma LfnCharsNone(e: seq<byte>)
      requires |e| == ENTRY
      ensures LfnChars(e, 0) == Some([])
    {
    }

    /** Put one character in front of the long name. */
    method PutChar(c: byte)
      requires fn.Length == FNMAX + 1 && 1 <= lfnpos <= FNMAX && fn[FNMAX] == 0
      modifies `lfnpos, fn
      ensures lfnpos == old(lfnpos) + 1 && fn[FNMAX] == 0 && LongName() == [c] + old(LongName())
    {
      fn[FNMAX - lfnpos] := c;
      lfnpos := lfnpos + 1;
    }

    function UnicharAt(p: nat): (u: nat)
      requires Valid() && HasEntry() && p + 1 < ENTRY
      reads this, dc
      ensures u == Unichar(Entry(), p)
    {
      (dc[fe + p] as int) + 256 * (dc[fe + p + 1] as int)
    }

    /** strcpy from position i of the name buffer. */
    method StrCpy(i: nat) returns (dd: seq<byte>)
      requires fn.Length == FNMAX + 1 && i <= FNMAX && 0 in fn[i..]
      ensures dd == CString(fn[i..])
    {
      hide CString;
      dd := [];
      var k := i;
      while fn[k] != 0
        invariant i <= k < fn.Length && 0 in fn[k..]
        invariant CString(fn[i..]) == dd + CString(fn[k..])
        decreases fn.Length - k
      {
        assert fn[k..][1..] == fn[k + 1..];
        CStringFirst(fn[k..]);
        dd := dd + [fn[k]];
        k := k + 1;
      }
      CStringFirst(fn[k..]);
      assert dd + [] == dd;
    }

    /** The name part of the 8.3 name, at the front of the buffer. */
    method ReadBase() returns (m: nat)
      requires Valid() && HasEntry()
      modifies fn
      ensures m <= 8 && fn[..m] == [Entry()[0]] + UntilSpace(Entry()[1..8])
    {
      ghost var e := Entry();
      m := 0;
      var n := 0;
      while n < 8
        invariant 0 <= n <= 8 && m == n
        invariant fn[..m] == e[..n] && forall i :: 1 <= i < n ==> e[i] != SPACE
      {
        assert dc[fe + n] == e[n];
        if n > 0 && dc[fe + n] == SPACE {
          break;
        }
        fn[m] := dc[fe + n];
        m := m + 1;
        n := n + 1;
      }
      assert e[..n] == [e[0]] + e[1..8][..n - 1];
      UntilSpaceIs(e[1..8], n - 1);
    }

    /** The extension of the 8.3 name, after the first m0 characters of the buffer. */
    method ReadExtension(m0: nat) returns (m: nat)
      requires Valid() && HasEntry() && m0 <= 9
      modifies fn
      ensures m <= m0 + 3 && fn[..m] == old(fn[..m0]) + UntilSpace(Entry()[8..11])
    {
      ghost var e := Entry();
      ghost var ext := e[8..11];
      m := m0;
      var n := 8;
      while n < 11
        invariant 8 <= n <= 11 && m == m0 + (n - 8)
        invariant fn[..m] == old(fn[..m0]) + ext[..n - 8] && forall i :: 0 <= i < n - 8 ==> ext[i] != SPACE
      {
        assert dc[fe + n] == e[n] == ext[n - 8];
        if dc[fe + n] == SPACE {
          break;
        }
        fn[m] := dc[fe + n];
        m := m + 1;
        n := n + 1;
      }
      UntilSpaceIs(ext, n - 8);
    }

    /** Put together the 8.3 name of the current entry at the front of the buffer. */
    method FillShortName() returns (m: nat)
      requires Valid() && HasEntry()
      modifies fn
      ensures m <= 12 && fn[..m] == ShortName(Entry())
    {
      hide UntilSpace;
      m := ReadBase();
      ghost var base := fn[..m];
      assert dc[fe + 8] == Entry()[8];
      if dc[fe + 8] != SPACE {
        fn[m] := DOT;
        m := m + 1;
        assert fn[..m] == base + [DOT];
      }
      m := ReadExtension(m);
    }

    /** The 8.3 name of the current entry. */
    method ReadShortName() returns (dd: seq<byte>)
      requires Valid() && HasEntry()
      modifies fn
      ensures Valid() && HasEntry() && Entry() == old(Entry())
      ensures dd == CString(ShortName(Entry()))
    {
      hide ShortName, CString;
      var m := FillShortName();
      ghost var name := fn[..m];
      fn[m] := 0;
      assert fn[..m] == name;
      assert fn[0..] == fn[..m] + fn[m..];
      assert fn[0..][m] == 0;
      CStringCut(ShortName(Entry()), fn[m..]);
      dd := StrCpy(0);
    }
 
    // ---- one call ------------------------------------------------------------------------

    /** The reader is collecting the long name l, with checksum sum. */
    ghost predicate Collects(l: Lfn, sum: byte)
      requires fn.Length == FNMAX + 1
      reads this, fn
    {
      && islfn == l.left
      && (l.left == 0 ==> l == NoLfn)
      && (l.left != 0 ==>
            && l.left <= MAX_ORDINAL && l.sum == sum
            && |l.name| <= LFN_LIMIT && |l.name| <= 13 * (MAX_ORDINAL + 1 - l.left)
            && lfnpos == 1 + |l.name| && LongName() == l.name && AllPermitted(l.name) && fn[FNMAX] == 0)
    }

    /** The checksum of the current entry. */
    method ComputeSum() returns (cs: byte)
      requires Valid() && HasEntry()
      ensures cs == Checksum(Entry())
    {
      ghost var s := Entry()[..11];
      cs := 0;
      for n := 0 to 11
        invariant cs == SumOf(s[..n])
      {
        assert s[..n + 1][..n] == s[..n] && dc[fe + n] == s[n];
        cs := (cs % 2 * 128 + cs / 2 + dc[fe + n]) % 256;
      }
      assert s[..11] == s;
    }

    /** A long-name entry comes while one is being collected. */
    method ContinueLong(lfnchsum: byte, ghost l: Lfn)
      requires Valid() && HasEntry() && islfn != 0 && Collects(l, lfnchsum) && Entry()[0] != 0
      modifies `islfn, `lfnpos, fn
      ensures Valid() && HasEntry() && Entry() == old(Entry()) && Collects(Continue(l, Entry()), lfnchsum)
    {
      ghost var e := Entry();
      LfnCharsPermitted(e, 13);
      hide LfnChars;
      var first, sum := dc[fe], dc[fe + SUM];
      assert first == e[0] && sum == e[SUM];
      if sum != lfnchsum || StartBit(first) || first != islfn - 1 {
        islfn := 0;
        return;
      }
      islfn := first;
      ReadLfnEntry();
      if lfnpos > LFN_LIMIT + 1 {
        islfn := 0;
      }
    }

    /** A long-name entry comes while none is being collected. */
    method BeginLong(lfnchsum: byte) returns (sum: byte)
      requires Valid() && HasEntry() && islfn == 0
      modifies `islfn, `lfnpos, fn
      ensures Valid() && HasEntry() && Entry() == old(Entry()) && Collects(Begin(Entry()), sum)
    {
      ghost var e := Entry();
      LfnCharsPermitted(e, 13);
      hide LfnChars;
      var first := dc[fe];
      assert first == e[0] && dc[fe + SUM] == e[SUM];
      if StartBit(first) && first - 0x40 <= MAX_ORDINAL {
        islfn := first - 0x40;
        forall i | 0 <= i < FNMAX + 1 {
          fn[i] := 0;
        }
        lfnpos := 1;
        assert LongName() == [];
        ReadLfnEntry();
        return dc[fe + SUM];
      }
      return lfnchsum;
    }
 
    /** The name at the end of the buffer, as strcpy sees it. */
    method TakeLong(ghost l: Lfn, ghost sum: byte) returns (dd: seq<byte>)
      requires fn.Length == FNMAX + 1 && islfn != 0 && Collects(l, sum)
      ensures dd == l.name
    {
      var i := FNMAX - lfnpos + 1;
      assert fn[i..] == LongName() + fn[FNMAX..];
      assert fn[i..][lfnpos - 1] == 0;
      CStringWhole(l.name, fn[FNMAX..]);
      dd := StrCpy(i);
    }

    lemma FirstBytes()
      requires Valid() && HasEntry()
      ensures dc[fe] == Entry()[0] && dc[fe + ATTR] == Entry()[ATTR]
    {
    }

    /** The next entry, unless there is none or it is the one that ends the directory. */
    method ReadLive() returns (live: bool)
      requires Valid() && 0 <= At() <= |file|
      modifies `pos, `cp, `rc, `fe, dc
      ensures Valid() && (live <==> !AtEnd(file, old(At())))
      ensures if live then HasEntry() && Entry()[0] != 0 && Entry() == EntryAt(file, old(At())) && At() == old(At()) + ENTRY
              else At() == if old(At()) + ENTRY <= |file| then old(At()) + ENTRY else |file|
    {
      ghost var a := At();
      var rd := ReadNextEntry();
      if rd < ENTRY {
        return false;
      }
      FirstBytes();
      assert Entry()[0] == file[a];
      return dc[fe] != 0;
    }

    /** A short entry comes when the whole long name has been collected. */
    method EndLong(lfnchsum: byte, ghost l: Lfn) returns (name: Option<seq<byte>>, ghost back: bool)
      requires Valid() && HasEntry() && LiveShort(Entry()) && islfn == 1 && Collects(l, lfnchsum)
      modifies `cp, `islfn
      ensures Valid()
      ensures Report(l, old(Entry()), mnl) != None
      ensures if back then At() == old(At()) - ENTRY && islfn == 0
                           && name == None && Report(l, old(Entry()), mnl) == Report(NoLfn, old(Entry()), mnl)
              else At() == old(At()) && name == Report(l, old(Entry()), mnl)
    {
      hide LfnChars, Checksum, ShortName, CString, AllPermitted;
      name, back := None, false;
      var cs := ComputeSum();
      if cs == lfnchsum && lfnpos - 1 <= mnl {
        var dd := TakeLong(l, lfnchsum);
        name := Some(dd);
      } else {
        RewindEntry();
        islfn := 0;
        back := true;
      }
    }

    /** A long-name entry goes on with the long name, or begins one. */
    method TakeLongEntry(lfnchsum: byte, ghost l: Lfn) returns (sum: byte, ghost l': Lfn)
      requires Valid() && HasEntry() && Entry()[0] != 0 && Collects(l, lfnchsum) && IsLong(Entry()) && !Skipped(Entry())
      modifies `islfn, `lfnpos, fn
      ensures Valid() && Collects(l', sum) && l' == Next(l, old(Entry()))
    {
      hide LfnChars, Continue, Begin, AllPermitted, Next;
      ghost var e := Entry();
      Kinds(l, e, mnl);
      sum := lfnchsum;
      if islfn != 0 {
        ContinueLong(lfnchsum, l);
        l' := Continue(l, e);
      } else {
        sum := BeginLong(lfnchsum);
        l' := Begin(e);
      }
    }

    /**
     The body of the loop of CHDKReadDir for an entry that is not the last: it is
     reported, or it changes the long name being collected, or it is put back to be
     taken for a plain short name.
     */
    method TakeEntry(lfnchsum: byte, ghost l: Lfn) returns (name: Option<seq<byte>>, sum: byte, ghost l': Lfn, ghost back: bool)
      requires Valid() && HasEntry() && Entry()[0] != 0 && Collects(l, lfnchsum)
      modifies `cp, `islfn, `lfnpos, fn
      ensures Valid()
      ensures name.Some? ==> !back && name == Report(l, old(Entry()), mnl)
      ensures name == None ==> Collects(l', sum)
      ensures name == None && !back ==> Report(l, old(Entry()), mnl) == None && l' == Next(l, old(Entry()))
      ensures if back then At() == old(At()) - ENTRY && islfn == 0 && old(islfn) == 1 && l' == NoLfn
                           && name == None && Report(l, old(Entry()), mnl) == Report(NoLfn, old(Entry()), mnl) != None
              else At() == old(At())
    {
      hide LfnChars, Checksum, ShortName, CString, Continue, Begin, AllPermitted, Report, Next;
      ghost var e := Entry();
      FirstBytes();
      Kinds(l, e, mnl);
      name, sum, l', back := None, lfnchsum, NoLfn, false;
      if dc[fe] == ERASED || LowNibble(dc[fe + ATTR]) == 8 {
        islfn := 0;
        return;
      }
      if islfn == 0 && dc[fe + ATTR] != LFN_ATTR {
        var dd := ReadShortName();
        name := Some(dd);
        return;
      }
      if islfn == 1 && dc[fe + ATTR] != LFN_ATTR {
        name, back := EndLong(lfnchsum, l);
      } else if dc[fe + ATTR] == LFN_ATTR {
        sum, l' := TakeLongEntry(lfnchsum, l);
      } else {
        islfn := 0;
      }
    }

    /**
     CHDKReadDir: the next name of the directory, long if there is a valid long name for
     it, and None at the end.
     */
    method ReadDir() returns (name: Option<seq<byte>>)
      requires Valid() && 0 <= At()
      modifies this, dc, fn
      ensures Valid() && (name, At()) == FatSpec.ReadDir(file, old(At()), NoLfn, mnl)
    {
      hide FatSpec.ReadDir, Report, Next, HasEntry, AllPermitted, EntryAt;
      var lfnchsum: byte := 0;
      islfn, lfnpos := 0, 0;
      ghost var l := NoLfn;
      while true
        invariant Valid() && 0 <= At() <= |file| && Collects(l, lfnchsum)
        invariant FatSpec.ReadDir(file, old(At()), NoLfn, mnl) == FatSpec.ReadDir(file, At(), l, mnl)
        decreases |file| - At(), islfn
      {
        ghost var (a, l0) := (At(), l);
        ReadDirStep(file, a, l, mnl);
        var live := ReadLive();
        if !live {
          break;
        }
        ghost var back: bool;
        name, lfnchsum, l, back := TakeEntry(lfnchsum, l);
        if name.Some? {
          return;
        }
        if back {
          ReadDirSame(file, a, l0, mnl);
        }
      }
      fn[0] := 0;
      return None;
    }
  }
}
