/** The loops that write a table's variables to a buffer and read them back. */
module ConfTable {
  import opened ConfFile

  ghost function Total(ci: seq<Info>): nat {
    if ci == [] then 0 else Total(ci[..|ci| - 1]) + 4 + ci[|ci| - 1].size
  }

  lemma {:induction false} RecordsMore(ci: seq<Info>, vars: seq<seq<byte>>, i: nat)
    requires Table(ci) && |vars| == |ci| && i < |ci|
    ensures Records(ci[..i + 1], vars[..i + 1]) == Records(ci[..i], vars[..i]) + Record(ci[i], vars[i])
    decreases i
  {
    hide Record;
    if i == 0 {
      assert ci[..1][1..] == [] && vars[..1][1..] == [];
    } else {
      RecordsMore(ci[1..], vars[1..], i - 1);
      assert ci[..i + 1][1..] == ci[1..][..i] && vars[..i + 1][1..] == vars[1..][..i];
      assert ci[..i][1..] == ci[1..][..i - 1] && vars[..i][1..] == vars[1..][..i - 1];
    }
  }

  lemma OneTotal(ci: seq<Info>, i: nat)
    requires i < |ci|
    ensures Total(ci[..i + 1]) == Total(ci[..i]) + 4 + ci[i].size
    ensures Total(ci[..i]) + 4 + ci[i].size <= Total(ci)
    decreases |ci| - i
  {
    assert ci[..i + 1][..i] == ci[..i];
    if i + 1 < |ci| {
      OneTotal(ci, i + 1);
    } else {
      assert ci[..i + 1] == ci;
    }
  }

  method Copy(buf: array<byte>, p: nat, b: seq<byte>)
    requires p + |b| <= buf.Length
    modifies buf
    ensures buf[..p + |b|] == old(buf[..p]) + b
    ensures buf[p + |b|..] == old(buf[p + |b|..])
  {
    for k := 0 to |b|
      invariant buf[..p + k] == old(buf[..p]) + b[..k]
      invariant buf[p + |b|..] == old(buf[p + |b|..])
    {
      buf[p + k] := b[k];
    }
  }

  lemma Start(base: nat)
    requires base < 0x1_0000_0000
    ensures Header(base) == Long(CONF_MAGICK_VALUE) + Long(base)
    ensures Records([], []) == [] && Total([]) == 0
  {
  }

  lemma FirstLong(file: seq<byte>)
    requires |file| >= 4
    ensures GetLong(file[..4]) == GetLong(file)
  {
  }

  /** One turn of the loop of Restore. */
  lemma ReadStep(ci: seq<Info>, vars: seq<seq<byte>>, file: seq<byte>, offs: nat)
    requires |vars| == |ci| && offs <= |file|
    ensures Read(ci, vars, file[offs..]) ==
      if offs + 4 > |file| then vars
      else
        var t := Info(GetShort(file[offs..offs + 2]), GetShort(file[offs + 2..offs + 4]));
        var next := offs + 4 + t.size;
        if next > |file| then vars
        else Read(ci, Assign(ci, vars, t, file[offs + 4..next]), file[next..])
  {
    if offs + 4 <= |file| {
      var rest := file[offs..];
      ReadIs(ci, vars, rest);
      hide Read, Assign;
      assert rest[0] == file[offs] && rest[1] == file[offs + 1];
      assert rest[2..][0] == file[offs + 2] && rest[2..][1] == file[offs + 3];
      var size := GetShort(rest[2..]);
      if offs + 4 + size <= |file| {
        assert rest[4..][..size] == file[offs + 4..offs + 4 + size];
        assert rest[4..][size..] == file[offs + 4 + size..];
      }
    }
  }

  lemma ReadIs(ci: seq<Info>, vars: seq<seq<byte>>, rest: seq<byte>)
    requires |vars| == |ci| && |rest| >= 4
    ensures var (t, data) := (Info(GetShort(rest), GetShort(rest[2..])), rest[4..]);
            Read(ci, vars, rest) ==
              if |data| < t.size then vars else Read(ci, Assign(ci, vars, t, data[..t.size]), data[t.size..])
  {
  }

  class ConfTable {
    const ci: seq<Info>
    const vars: array<seq<byte>>

    ghost predicate Valid()
      reads vars
    {
      Table(ci) && Sized(ci, vars[..])
    }

    /** The value of one entry, what follows a string's terminator cleared. */
    method CopyValue(buf: array<byte>, p: nat, i: nat)
      requires Valid() && i < |ci| && p + ci[i].size <= buf.Length && buf != vars as object
      modifies buf
      ensures buf[..p + ci[i].size] == old(buf[..p]) + Saved(vars[i])
      ensures buf[p + ci[i].size..] == old(buf[p + ci[i].size..])
    {
      var v := vars[i];
      Copy(buf, p, v);
      if ci[i].size == CONF_STR_LEN && StrLen(v) < CONF_STR_LEN {
        var n := StrLen(v);
        for k := n to CONF_STR_LEN
          invariant buf[..p + n] == old(buf[..p]) + v[..n]
          invariant forall j :: p + n <= j < p + k ==> buf[j] == 0
          invariant buf[p + CONF_STR_LEN..] == old(buf[p + CONF_STR_LEN..])
        {
          buf[p + k] := 0;
        }
        assert buf[..p + CONF_STR_LEN] == buf[..p + n] + buf[p + n..p + CONF_STR_LEN];
      }
    }

    /** The size of the file. */
    method FileSize() returns (size: nat)
      requires Valid()
      ensures size == 8 + Total(ci)
    {
      size := 8 + 4 * |ci|;
      for i := 0 to |ci|
        invariant size == 8 + Total(ci[..i]) + 4 * (|ci| - i)
      {
        assert ci[..i + 1][..i] == ci[..i];
        size := size + ci[i].size;
      }
      assert ci[..|ci|] == ci;
    }

    method PutRecord(buf: array<byte>, p: nat, i: nat)
      requires Valid() && i < |ci| && p + 4 + ci[i].size <= buf.Length && buf != vars as object
      modifies buf
      ensures buf[..p + 4 + ci[i].size] == old(buf[..p]) + Record(ci[i], vars[i])
    {
      hide Saved;
      Copy(buf, p, Short(ci[i].id));
      Copy(buf, p + 2, Short(ci[i].size));
      CopyValue(buf, p + 4, i);
    }

    method Save(base: nat) returns (buf: array<byte>)
      requires Valid() && base < 0x1_0000_0000
      ensures fresh(buf) && buf[..] == File(ci, vars[..], base)
    {
      hide Records, Record, Saved, Header, Total;
      var size := FileSize();
      buf := new byte[size];
      Copy(buf, 0, Long(CONF_MAGICK_VALUE));
      Copy(buf, 4, Long(base));
      var p := 8;
      Start(base);
      for i := 0 to |ci|
        invariant fresh(buf) && p == 8 + Total(ci[..i]) <= buf.Length
        invariant buf[..p] == Header(base) + Records(ci[..i], vars[..i])
      {
        OneTotal(ci, i);
        RecordsMore(ci, vars[..], i);
        assert vars[..][..i] == vars[..i] && vars[..][..i + 1] == vars[..i + 1];
        PutRecord(buf, p, i);
        p := p + 4 + ci[i].size;
      }
      assert ci[..|ci|] == ci && vars[..|ci|] == vars[..];
      assert buf[..p] == buf[..];
    }

    /** The entry a record is for: the first with its id and size, or the end of the table. */
    method Find(id: nat, size: nat) returns (i: nat)
      ensures i == Lookup(ci, Info(id, size), 0)
    {
      i := 0;
      while i < |ci| && !(ci[i].id == id && ci[i].size == size)
        invariant i <= |ci| && Lookup(ci, Info(id, size), 0) == Lookup(ci, Info(id, size), i)
      {
        i := i + 1;
      }
    }

    method Restore(buf: array<byte>)
      requires Valid() && buf.Length >= 4 && buf as object != vars
      modifies vars
      ensures vars[..] == Restored(ci, old(vars[..]), buf[..])
      ensures Valid()
    {
      hide Read, GetShort, GetLong;
      ghost var file := buf[..];
      FirstLong(file);
      if GetLong(buf[..4]) != CONF_MAGICK_VALUE {
        return;
      }
      var (offs, rcnt) := (8, buf.Length);
      ghost var goal := Restored(ci, vars[..], file);
      while true
        invariant Valid() && 8 <= offs
        invariant goal == if offs <= rcnt then Read(ci, vars[..], file[offs..]) else vars[..]
        decreases rcnt - offs
      {
        if offs <= rcnt {
          ReadStep(ci, vars[..], file, offs);
        }
        ghost var was := vars[..];
        if offs + 2 > rcnt {
          break;
        }
        var id := GetShort(buf[offs..offs + 2]);
        offs := offs + 2;
        if offs + 2 > rcnt {
          break;
        }
        var size := GetShort(buf[offs..offs + 2]);
        assert buf[offs..offs + 2] == file[offs..offs + 2];
        offs := offs + 2;
        var i := Find(id, size);
        if i < |ci| {
          if offs + size <= rcnt {
            vars[i] := buf[offs..offs + size];
            assert vars[..] == was[i := file[offs..offs + size]];
          }
        }
        offs := offs + size;
      }
    }
  }
}
