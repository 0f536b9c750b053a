/** Sending and receiving data in chunks over PTP. */
module PtpData {
  /** One call of the transport: the bytes, and the total size it announces. */
  datatype Chunk = Chunk(bytes: seq<int>, total: nat)

  /** The bytes of the chunks, one after the other. */
  ghost function Joined(cs: seq<Chunk>): seq<int> {
    if cs == [] then [] else Joined(cs[..|cs| - 1]) + cs[|cs| - 1].bytes
  }

  /** Full chunks but for the last, none empty, and only the first announces a size. */
  ghost predicate WellCut(cs: seq<Chunk>, size: nat, bufSize: nat) {
    && (forall i :: 0 <= i < |cs| ==> 0 < |cs[i].bytes| <= bufSize && cs[i].total == if i == 0 then size else 0)
    && (forall i :: 0 <= i < |cs| - 1 ==> |cs[i].bytes| == bufSize)
  }

  lemma JoinedMore(cs: seq<Chunk>, c: Chunk)
    ensures Joined(cs + [c]) == Joined(cs) + c.bytes
  {
    assert (cs + [c])[..|cs|] == cs;
  }

  /** The first p bytes have gone out in full chunks. */
  ghost predicate SentFull(cs: seq<Chunk>, buf: seq<int>, p: nat, bufSize: nat) {
    && p <= |buf| && Joined(cs) == buf[..p] && WellCut(cs, |buf|, bufSize)
    && forall i :: 0 <= i < |cs| ==> |cs[i].bytes| == bufSize
  }

  lemma OneMore(cs: seq<Chunk>, buf: seq<int>, p: nat, bufSize: nat, n: nat)
    requires SentFull(cs, buf, p, bufSize) && 0 < n <= bufSize && p + n <= |buf|
    ensures var c := Chunk(buf[p..p + n], if cs == [] then |buf| else 0);
            && WellCut(cs + [c], |buf|, bufSize) && Joined(cs + [c]) == buf[..p + n]
            && (n == bufSize ==> SentFull(cs + [c], buf, p + n, bufSize))
  {
    var c := Chunk(buf[p..p + n], if cs == [] then |buf| else 0);
    JoinedMore(cs, c);
    hide Joined;
    assert buf[..p] + buf[p..p + n] == buf[..p + n];
  }

  ghost predicate Accepted(accepts: nat -> bool, n: nat) {
    forall i: nat :: i < n ==> accepts(i)
  }

  /**
   send_ptp_data: the calls it makes carry the data once, in order; it stops at the first
   call that fails, and succeeds exactly when none does.
   */
  method SendPtpData(buf: seq<int>, bufSize: nat, accepts: nat -> bool) returns (ok: bool, calls: seq<Chunk>)
    requires bufSize > 0
    ensures WellCut(calls, |buf|, bufSize) && Joined(calls) <= buf
    ensures if ok then Joined(calls) == buf && Accepted(accepts, |calls|)
            else calls != [] && !accepts(|calls| - 1) && Accepted(accepts, |calls| - 1)
  {
    hide WellCut, Joined;
    var (size, p, tmpsize) := (|buf|, 0, |buf|);
    calls := [];
    Nothing(buf, bufSize);
    while size >= bufSize
      invariant 0 <= size && 0 <= p && p + size == |buf| && SentFull(calls, buf, p, bufSize)
      invariant tmpsize == (if calls == [] then |buf| else 0) && Accepted(accepts, |calls|)
    {
      OneMore(calls, buf, p, bufSize, bufSize);
      calls := calls + [Chunk(buf[p..p + bufSize], tmpsize)];
      if !accepts(|calls| - 1) {
        return false, calls;
      }
      tmpsize := 0;
      size := size - bufSize;
      p := p + bufSize;
    }
    if size != 0 {
      OneMore(calls, buf, p, bufSize, size);
      calls := calls + [Chunk(buf[p..p + size], tmpsize)];
      if !accepts(|calls| - 1) {
        return false, calls;
      }
    }
    assert buf[..|buf|] == buf;
    return true, calls;
  }

  lemma Nothing(buf: seq<int>, bufSize: nat)
    ensures SentFull([], buf, 0, bufSize)
  {
  }

  /** recv_ptp_data: size bytes of the incoming data, in order, none left out between two chunks. */
  method RecvPtpData(incoming: seq<int>, buf: array<int>, size: nat, bufSize: nat) returns (taken: nat)
    requires bufSize > 0 && size <= buf.Length && size <= |incoming|
    modifies buf
    ensures taken == size && buf[..size] == incoming[..size] && buf[size..] == old(buf[size..])
  {
    var (left, p) := (size, 0);
    taken := 0;
    while left >= bufSize
      invariant 0 <= left && 0 <= p == taken && p + left == size
      invariant buf[..p] == incoming[..p] && buf[p..] == old(buf[p..])
    {
      Receive(incoming[taken..taken + bufSize], buf, p);
      taken := taken + bufSize;
      left := left - bufSize;
      p := p + bufSize;
    }
    if left != 0 {
      Receive(incoming[taken..taken + left], buf, p);
      taken := taken + left;
    }
  }

  /** One call of recv_data. */
  method Receive(bytes: seq<int>, buf: array<int>, p: nat)
    requires p + |bytes| <= buf.Length
    modifies buf
    ensures buf[..p + |bytes|] == old(buf[..p]) + bytes
    ensures buf[p + |bytes|..] == old(buf[p + |bytes|..])
  {
    forall i | 0 <= i < |bytes| {
      buf[p + i] := bytes[i];
    }
  }
}
