/** Configuration files: tagged, sized values, and what a table of another version reads from them. */
module ConfFile {
  newtype byte = x: int | 0 <= x < 256

  const CONF_MAGICK_VALUE := 0x33204741
  const CONF_STR_LEN := 100

  /** A table entry of fixed size: its tag and the number of bytes of its variable. */
  datatype Info = Info(id: nat, size: nat)

  /** A table ends at the first id 0, and no id occurs twice. */
  ghost predicate Table(ci: seq<Info>) {
    && (forall i :: 0 <= i < |ci| ==> 0 < ci[i].id < 0x1_0000 && ci[i].size < 0x100)
    && (forall i, j :: 0 <= i < j < |ci| ==> ci[i].id != ci[j].id)
  }

  /** The variables of a table, as bytes. */
  ghost predicate Sized(ci: seq<Info>, vars: seq<seq<byte>>) {
    |vars| == |ci| && forall i :: 0 <= i < |ci| ==> |vars[i]| == ci[i].size
  }

  // ---- the format ------------------------------------------------------------------------------

  function Short(n: nat): (r: seq<byte>)
    requires n < 0x1_0000
    ensures |r| == 2
  {
    [(n % 256) as byte, (n / 256) as byte]
  }

  function GetShort(b: seq<byte>): nat
    requires |b| >= 2
  {
    b[0] as nat + 256 * b[1] as nat
  }

  function Long(n: nat): (r: seq<byte>)
    requires n < 0x1_0000_0000
    ensures |r| == 4
  {
    Short(n % 0x1_0000) + Short(n / 0x1_0000)
  }

  function GetLong(b: seq<byte>): nat
    requires |b| >= 4
  {
    GetShort(b) + 0x1_0000 * GetShort(b[2..])
  }

  lemma ShortBack(n: nat, rest: seq<byte>)
    requires n < 0x1_0000
    ensures GetShort(Short(n) + rest) == n
  {
  }

  lemma LongBack(n: nat, rest: seq<byte>)
    requires n < 0x1_0000_0000
    ensures GetLong(Long(n) + rest) == n
  {
    assert (Long(n) + rest)[2..] == Short(n / 0x1_0000) + rest;
  }

  /** The bytes before the terminator, or all of them. */
  function StrLen(v: seq<byte>): (n: nat)
    ensures n <= |v| && (n < |v| ==> v[n] == 0) && forall i :: 0 <= i < n ==> v[i] != 0
  {
    if v == [] || v[0] == 0 then 0 else 1 + StrLen(v[1..])
  }

  /** A value as it is saved: one of the length of a string loses what follows its terminator. */
  function Saved(v: seq<byte>): (r: seq<byte>)
    ensures |r| == |v|
  {
    if |v| == CONF_STR_LEN then v[..StrLen(v)] + seq(|v| - StrLen(v), i => 0 as byte) else v
  }

  function Record(t: Info, v: seq<byte>): seq<byte>
    requires t.id < 0x1_0000 && t.size < 0x1_0000
  {
    Short(t.id) + Short(t.size) + Saved(v)
  }

  ghost function Records(ci: seq<Info>, vars: seq<seq<byte>>): seq<byte>
    requires Table(ci) && |vars| == |ci|
  {
    if ci == [] then [] else Record(ci[0], vars[0]) + Records(ci[1..], vars[1..])
  }

  function Header(base: nat): (r: seq<byte>)
    requires base < 0x1_0000_0000
    ensures |r| == 8
  {
    Long(CONF_MAGICK_VALUE) + Long(base)
  }

  ghost function File(ci: seq<Info>, vars: seq<seq<byte>>, base: nat): seq<byte>
    requires Table(ci) && |vars| == |ci| && base < 0x1_0000_0000
  {
    Header(base) + Records(ci, vars)
  }

  // ---- restoring -------------------------------------------------------------------------------

  /** The first entry from i on with this id and size, or the length of the table. */
  function Lookup(ci: seq<Info>, t: Info, i: nat): (r: nat)
    requires i <= |ci|
    ensures i <= r <= |ci|
    ensures r < |ci| ==> ci[r] == t
    ensures forall j :: i <= j < r ==> ci[j] != t
    decreases |ci| - i
  {
    if i == |ci| || ci[i] == t then i else Lookup(ci, t, i + 1)
  }

  ghost function Assign(ci: seq<Info>, vars: seq<seq<byte>>, t: Info, v: seq<byte>): (r: seq<seq<byte>>)
    requires |vars| == |ci|
    ensures |r| == |ci|
  {
    var i := Lookup(ci, t, 0);
    if i < |ci| then vars[i := v] else vars
  }

  /** The variables after the rest of a file has been read into them. */
  ghost function Read(ci: seq<Info>, vars: seq<seq<byte>>, rest: seq<byte>): (r: seq<seq<byte>>)
    requires |vars| == |ci|
    ensures |r| == |ci|
    decreases |rest|
  {
    if |rest| < 4 then vars
    else
      var (t, data) := (Info(GetShort(rest), GetShort(rest[2..])), rest[4..]);
      if |data| < t.size then vars
      else Read(ci, Assign(ci, vars, t, data[..t.size]), data[t.size..])
  }

  ghost function Restored(ci: seq<Info>, vars: seq<seq<byte>>, file: seq<byte>): (r: seq<seq<byte>>)
    requires |vars| == |ci| && |file| >= 4
    ensures |r| == |ci|
  {
    if GetLong(file) == CONF_MAGICK_VALUE && |file| >= 8 then Read(ci, vars, file[8..]) else vars
  }

  /** The bytes of a record: id and size, low byte first, and the saved value. */
  lemma RecordBytes(t: Info, v: seq<byte>)
    requires t.id < 0x1_0000 && t.size < 0x1_0000
    ensures var r := Record(t, v);
            && |r| == 4 + |v| && r[0] as nat + 256 * r[1] as nat == t.id && r[2] as nat + 256 * r[3] as nat == t.size
            && r[4..] == Saved(v)
  {
  }

  /** A file starts with its magic number, low byte first, and the base of the table. */
  lemma FileBytes(ci: seq<Info>, vars: seq<seq<byte>>, base: nat)
    requires Table(ci) && |vars| == |ci| && base < 0x1_0000_0000
    ensures var f := File(ci, vars, base);
            && |f| >= 8 && f[..4] == [0x41, 0x47, 0x20, 0x33]
            && f[4] as nat + 0x100 * f[5] as nat + 0x1_0000 * f[6] as nat + 0x100_0000 * f[7] as nat == base
  {
    hide Records;
  }

  /** A file with another magic number, or none behind which anything comes, changes nothing. */
  lemma OtherFile(ci: seq<Info>, vars: seq<seq<byte>>, file: seq<byte>)
    requires |vars| == |ci| && |file| >= 4 && (file[..4] != [0x41, 0x47, 0x20, 0x33] || |file| < 12)
    ensures Restored(ci, vars, file) == vars
  {
    assert file[..4] == [file[0], file[1], file[2], file[3]];
  }

  // ---- what a table reads back from another table's file ----------------------------------------

  lemma ReadRecord(ci: seq<Info>, vars: seq<seq<byte>>, t: Info, v: seq<byte>, rest: seq<byte>)
    requires |vars| == |ci| && t.id < 0x1_0000 && t.size < 0x100 && |v| == t.size
    ensures Read(ci, vars, Record(t, v) + rest) == Read(ci, Assign(ci, vars, t, Saved(v)), rest)
  {
    hide Saved, Assign;
    var all := Record(t, v) + rest;
    var r2 := Short(t.size) + (Saved(v) + rest);
    assert all == Short(t.id) + r2;
    ShortBack(t.id, r2);
    assert all[2..] == r2;
    ShortBack(t.size, Saved(v) + rest);
    assert all[4..] == Saved(v) + rest;
    assert all[4..][..t.size] == Saved(v) && all[4..][t.size..] == rest;
  }

  /** What entry i of ci holds once the records of table c1 have been read. */
  ghost predicate Merged(ci: seq<Info>, vars: seq<seq<byte>>, c1: seq<Info>, v1: seq<seq<byte>>, now: seq<seq<byte>>)
    requires |vars| == |ci| == |now| && |v1| == |c1|
  {
    && (forall i, j :: 0 <= i < |ci| && 0 <= j < |c1| && ci[i] == c1[j] ==> now[i] == Saved(v1[j]))
    && (forall i :: 0 <= i < |ci| && ci[i] !in c1 ==> now[i] == vars[i])
  }

  lemma AssignFirst(ci: seq<Info>, vars: seq<seq<byte>>, t: Info, v: seq<byte>, i: nat)
    requires Table(ci) && |vars| == |ci| && i < |ci|
    ensures Assign(ci, vars, t, v)[i] == if ci[i] == t then v else vars[i]
  {
  }

  lemma {:induction false} ReadRecords(ci: seq<Info>, vars: seq<seq<byte>>, c1: seq<Info>, v1: seq<seq<byte>>)
    requires Table(ci) && |vars| == |ci| && Table(c1) && Sized(c1, v1)
    ensures Merged(ci, vars, c1, v1, Read(ci, vars, Records(c1, v1)))
    decreases |c1|
  {
    if c1 != [] {
      ReadRecord(ci, vars, c1[0], v1[0], Records(c1[1..], v1[1..]));
      var next := Assign(ci, vars, c1[0], Saved(v1[0]));
      ReadRecords(ci, next, c1[1..], v1[1..]);
      var now := Read(ci, vars, Records(c1, v1));
      hide Read, Assign, Saved;
      forall i, j | 0 <= i < |ci| && 0 <= j < |c1| && ci[i] == c1[j]
        ensures now[i] == Saved(v1[j])
      {
        AssignFirst(ci, vars, c1[0], Saved(v1[0]), i);
        if j > 0 {
          assert ci[i] == c1[1..][j - 1] && v1[j] == v1[1..][j - 1];
        } else {
          assert ci[i] !in c1[1..];
        }
      }
      forall i | 0 <= i < |ci| && ci[i] !in c1
        ensures now[i] == vars[i]
      {
        AssignFirst(ci, vars, c1[0], Saved(v1[0]), i);
        assert ci[i] !in c1[1..];
      }
    }
  }

  /**
   Restoring, with any table, a file that any table saved: an entry whose id and size both
   have gets the value saved, and every other entry keeps its own.
   */
  lemma RestoreAcrossVersions(ci: seq<Info>, vars: seq<seq<byte>>, c1: seq<Info>, v1: seq<seq<byte>>, base: nat)
    requires Table(ci) && |vars| == |ci| && Table(c1) && Sized(c1, v1) && base < 0x1_0000_0000
    ensures Merged(ci, vars, c1, v1, Restored(ci, vars, File(c1, v1, base)))
  {
    HeaderBack(base, Records(c1, v1));
    ReadRecords(ci, vars, c1, v1);
  }

  /** A saved value is the value itself, up to its terminator when it has the length of a string. */
  lemma SavedValue(v: seq<byte>)
    ensures |v| != 100 ==> Saved(v) == v
    ensures StrLen(Saved(v)) == StrLen(v) && Saved(v)[..StrLen(v)] == v[..StrLen(v)]
    ensures |v| == 100 ==> forall i :: StrLen(v) <= i < 100 ==> Saved(v)[i] == 0
  {
    StrLenIs(Saved(v), StrLen(v));
  }

  lemma StrLenIs(v: seq<byte>, n: nat)
    requires n <= |v| && (n < |v| ==> v[n] == 0) && forall i :: 0 <= i < n ==> v[i] != 0
    ensures StrLen(v) == n
  {
  }

  // ---- truncated files --------------------------------------------------------------------------

  /** The number of whole records in the first n bytes of the records of a table. */
  ghost function Whole(ci: seq<Info>, n: nat): (k: nat)
    ensures k <= |ci|
  {
    if ci == [] || n < 4 + ci[0].size then 0 else 1 + Whole(ci[1..], n - 4 - ci[0].size)
  }

  lemma ReadPart(ci: seq<Info>, vars: seq<seq<byte>>, t: Info, v: seq<byte>, n: nat)
    requires |vars| == |ci| && t.id < 0x1_0000 && t.size < 0x100 && |v| == t.size && n < 4 + t.size
    ensures Read(ci, vars, Record(t, v)[..n]) == vars
  {
    hide Saved;
    var part := Record(t, v)[..n];
    if n >= 4 {
      var data := Saved(v)[..n - 4];
      assert part == Short(t.id) + (Short(t.size) + data);
      ShortBack(t.id, Short(t.size) + data);
      assert part[2..] == Short(t.size) + data;
      ShortBack(t.size, data);
    }
  }

  lemma ReadNothing(ci: seq<Info>, vars: seq<seq<byte>>)
    requires |vars| == |ci|
    ensures Read(ci, vars, []) == vars
  {
  }

  lemma {:induction false} ReadTruncated(ci: seq<Info>, vars: seq<seq<byte>>, c1: seq<Info>, v1: seq<seq<byte>>, n: nat)
    requires |vars| == |ci| && Table(c1) && Sized(c1, v1) && n <= |Records(c1, v1)|
    ensures var k := Whole(c1, n);
            Read(ci, vars, Records(c1, v1)[..n]) == Read(ci, vars, Records(c1[..k], v1[..k]))
    decreases |c1|
  {
    hide Read, Saved, Assign;
    if c1 != [] {
      var (t, v, rest) := (c1[0], v1[0], Records(c1[1..], v1[1..]));
      var m := 4 + t.size;
      assert |Record(t, v)| == m;
      if n < m {
        assert Records(c1, v1)[..n] == Record(t, v)[..n];
        ReadPart(ci, vars, t, v, n);
        ReadNothing(ci, vars);
      } else {
        var k := Whole(c1[1..], n - m);
        assert Records(c1, v1)[..n] == Record(t, v) + rest[..n - m];
        ReadRecord(ci, vars, t, v, rest[..n - m]);
        ReadTruncated(ci, Assign(ci, vars, t, Saved(v)), c1[1..], v1[1..], n - m);
        assert c1[..k + 1][1..] == c1[1..][..k] && v1[..k + 1][1..] == v1[1..][..k];
        ReadRecord(ci, vars, t, v, Records(c1[1..][..k], v1[1..][..k]));
      }
    }
  }

  /** A file cut short restores what a file with only its whole records would. */
  lemma TruncatedFile(ci: seq<Info>, vars: seq<seq<byte>>, c1: seq<Info>, v1: seq<seq<byte>>, base: nat, n: nat)
    requires |vars| == |ci| && Table(c1) && Sized(c1, v1) && base < 0x1_0000_0000
    requires 8 <= n <= |File(c1, v1, base)|
    ensures var k := Whole(c1, n - 8);
            Restored(ci, vars, File(c1, v1, base)[..n]) == Restored(ci, vars, File(c1[..k], v1[..k], base))
  {
    hide Read;
    var (k, all) := (Whole(c1, n - 8), Records(c1, v1));
    HeaderBack(base, all[..n - 8]);
    assert File(c1, v1, base)[..n] == Header(base) + all[..n - 8];
    HeaderBack(base, Records(c1[..k], v1[..k]));
    ReadTruncated(ci, vars, c1, v1, n - 8);
  }

  lemma HeaderBack(base: nat, rest: seq<byte>)
    requires base < 0x1_0000_0000
    ensures GetLong(Header(base) + rest) == CONF_MAGICK_VALUE && (Header(base) + rest)[8..] == rest
  {
    assert Header(base) + rest == Long(CONF_MAGICK_VALUE) + (Long(base) + rest);
    LongBack(CONF_MAGICK_VALUE, Long(base) + rest);
  }

  /** Saving again what was restored from one's own file gives the same file. */
  lemma SaveRestoreSave(c1: seq<Info>, v1: seq<seq<byte>>, vars: seq<seq<byte>>, base: nat)
    requires Table(c1) && Sized(c1, v1) && |vars| == |c1| && base < 0x1_0000_0000
    ensures var file := File(c1, v1, base);
            File(c1, Restored(c1, vars, file), base) == file
  {
    hide Restored;
    var now := Restored(c1, vars, File(c1, v1, base));
    RestoreAcrossVersions(c1, vars, c1, v1, base);
    assert forall i :: 0 <= i < |c1| ==> c1[i] == c1[i] && now[i] == Saved(v1[i]);
    SavedTwice(c1, v1, now);
  }

  lemma {:induction false} SavedTwice(ci: seq<Info>, v1: seq<seq<byte>>, now: seq<seq<byte>>)
    requires Table(ci) && |v1| == |now| == |ci| && forall i :: 0 <= i < |ci| ==> now[i] == Saved(v1[i])
    ensures Records(ci, now) == Records(ci, v1)
    decreases |ci|
  {
    hide Saved;
    if ci != [] {
      SavedTwice(ci[1..], v1[1..], now[1..]);
      SavedAgain(v1[0]);
    }
  }

  lemma SavedAgain(v: seq<byte>)
    ensures Saved(Saved(v)) == Saved(v)
  {
    SavedValue(v);
  }
}
