/**
 The message ring between the script task and the PTP task (core/ptp.c).  One task
 enqueues, the other dequeues, and neither takes a lock: every access to an index or a
 slot that the other side may touch is a step of its own.
 */
module PtpRing {
  import opened Options

  const LEN: nat := 16

  datatype Msg = Msg(scriptId: nat, body: seq<int>)

  /** script_msg_q_next */
  function NextIndex(i: nat): nat {
    if i == LEN - 1 then 0 else i + 1
  }

  /** The number of queued messages. */
  function Count(r: nat, w: nat): nat
    requires r < LEN && w < LEN
  {
    if r <= w then w - r else w + LEN - r
  }

  /** The queued messages, oldest first. */
  function Contents(q: seq<Option<Msg>>, r: nat, w: nat): (c: seq<Option<Msg>>)
    requires |q| == LEN && r < LEN && w < LEN
    ensures |c| == Count(r, w)
  {
    if r <= w then q[r..w] else q[r..] + q[..w]
  }

  lemma Published(q: seq<Option<Msg>>, r: nat, w: nat, m: Option<Msg>)
    requires |q| == LEN && r < LEN && w < LEN && NextIndex(w) != r
    ensures Contents(q[w := m], r, w) == Contents(q, r, w)
    ensures Contents(q[w := m], r, NextIndex(w)) == Contents(q, r, w) + [m]
  {
  }

  lemma Taken(q: seq<Option<Msg>>, r: nat, w: nat)
    requires |q| == LEN && r < LEN && w < LEN && r != w
    ensures Contents(q, r, w)[0] == q[r]
    ensures Contents(q, NextIndex(r), w) == Contents(q, r, w)[1..]
  {
  }

  lemma FullAndEmpty(r: nat, w: nat)
    requires r < LEN && w < LEN
    ensures NextIndex(w) == r <==> Count(r, w) == LEN - 1
    ensures w == r <==> Count(r, w) == 0
    ensures Count(r, w) <= LEN - 1
  {
  }

  // ---- two tasks ---------------------------------------------------------------------------

  /** Where the producer is in enqueue_script_msg. */
  datatype Producer = Outside | CheckFull(msg: Option<Msg>) | Store(msg: Option<Msg>) | Publish(msg: Option<Msg>)

  /** Where the consumer is in dequeue_script_msg. */
  datatype Consumer = Ready | Fetch | Advance(msg: Option<Msg>)

  /** The queue, both tasks, and what has been enqueued and dequeued so far. */
  datatype State = State(
    q: seq<Option<Msg>>, r: nat, w: nat,
    producer: Producer, consumer: Consumer,
    sent: seq<Option<Msg>>, received: seq<Option<Msg>>
  ) {
    ghost predicate InRange() {
      |q| == LEN && r < LEN && w < LEN
    }
  }

  /** A step of one task; a producer that is outside starts to enqueue msg. */
  datatype Move = Produce(msg: Option<Msg>) | Consume

  function Init(): State {
    State(seq(LEN, _ => None), 0, 0, Outside, Ready, [], [])
  }

  ghost function Step(s: State, m: Move): State
    requires s.InRange()
  {
    match m
    case Produce(msg) =>
      (match s.producer
       case Outside => s.(producer := CheckFull(msg))
       case CheckFull(msg) =>
         if NextIndex(s.w) == s.r || msg == None then s.(producer := Outside) else s.(producer := Store(msg))
       case Store(msg) => s.(q := s.q[s.w := msg], producer := Publish(msg))
       case Publish(msg) => s.(w := NextIndex(s.w), producer := Outside, sent := s.sent + [msg]))
    case Consume =>
      (match s.consumer
       case Ready => if s.w == s.r then s else s.(consumer := Fetch)
       case Fetch => s.(consumer := Advance(s.q[s.r]))
       case Advance(msg) => s.(r := NextIndex(s.r), consumer := Ready, received := s.received + [msg]))
  }

  ghost predicate Inv(s: State) {
    && s.InRange()
    && s.sent == s.received + Contents(s.q, s.r, s.w)
    && (forall i :: 0 <= i < |s.sent| ==> s.sent[i].Some?)
    && (s.producer.Store? || s.producer.Publish? ==> NextIndex(s.w) != s.r && s.producer.msg.Some?)
    && (s.producer.Publish? ==> s.q[s.w] == s.producer.msg)
    && (!s.consumer.Ready? ==> s.w != s.r)
    && (s.consumer.Advance? ==> s.consumer.msg == s.q[s.r])
  }

  lemma StepInv(s: State, m: Move)
    requires Inv(s)
    ensures Inv(Step(s, m))
  {
    hide Contents;
    FullAndEmpty(s.r, s.w);
    match m
    case Produce(msg) =>
      if s.producer.Store? {
        Published(s.q, s.r, s.w, s.producer.msg);
      } else if s.producer.Publish? {
        Published(s.q, s.r, s.w, s.producer.msg);
        assert s.q[s.w := s.producer.msg] == s.q;
        assert s.received + (Contents(s.q, s.r, s.w) + [s.producer.msg]) == s.sent + [s.producer.msg];
      }
    case Consume =>
      if s.consumer.Advance? {
        Taken(s.q, s.r, s.w);
        var c := Contents(s.q, s.r, s.w);
        assert s.received + c == s.received + [c[0]] + c[1..];
      }
  }

  /** The state after the two tasks have taken steps in this order. */
  ghost function Run(moves: seq<Move>): (s: State)
    ensures s.InRange()
    decreases |moves|
  {
    if moves == [] then Init() else Step(Run(moves[..|moves| - 1]), moves[|moves| - 1])
  }

  lemma {:induction false} RunInv(moves: seq<Move>)
    ensures Inv(Run(moves))
    decreases |moves|
  {
    hide Step;
    if moves == [] {
      InitInv();
    } else {
      RunInv(moves[..|moves| - 1]);
      StepInv(Run(moves[..|moves| - 1]), moves[|moves| - 1]);
    }
  }

  lemma InitInv()
    ensures Inv(Init())
  {
  }

  /**
   Under every interleaving: the messages dequeued are a prefix of those enqueued, in
   order; the others are exactly the ones in the ring; and those are at most 15.
   */
  lemma QueueSafety(moves: seq<Move>)
    ensures var s := Run(moves);
            && s.received <= s.sent
            && s.sent[|s.received|..] == Contents(s.q, s.r, s.w)
            && |s.sent| - |s.received| <= LEN - 1
            && (forall i :: 0 <= i < |s.sent| ==> s.sent[i].Some?)
  {
    RunInv(moves);
    hide Run;
    var s := Run(moves);
    FullAndEmpty(s.r, s.w);
  }

  /**
   A call reports the queue full only when 15 messages are in it, and empty only when
   none is: at the step in which the call decides.
   */
  lemma FullAndEmptyAreTrue(s: State, msg: Msg)
    requires Inv(s)
    ensures s.producer == CheckFull(Some(msg)) ==>
              (Step(s, Produce(None)).producer == Outside <==> |s.sent| - |s.received| == LEN - 1)
    ensures s.consumer == Ready ==> (Step(s, Consume).consumer == Ready <==> s.sent == s.received)
  {
    FullAndEmpty(s.r, s.w);
  }

  /** Steps of one side alone complete its call: neither task can block the other. */
  lemma ProducerCompletes(s: State, msg: Msg)
    requires Inv(s) && s.producer.Outside? && |s.sent| - |s.received| < LEN - 1
    ensures var p := Produce(Some(msg));
            var s1 := Step(s, p);
            var s2 := Step(s1, p);
            var s3 := Step(s2, p);
            Step(s3, p) == s.(q := s.q[s.w := Some(msg)], w := NextIndex(s.w), sent := s.sent + [Some(msg)])
  {
    FullAndEmpty(s.r, s.w);
  }

  lemma ConsumerCompletes(s: State)
    requires Inv(s) && s.consumer.Ready? && s.sent != s.received
    ensures Step(Step(Step(s, Consume), Consume), Consume)
         == s.(r := NextIndex(s.r), received := s.received + [s.sent[|s.received|]])
  {
    FullAndEmpty(s.r, s.w);
    Taken(s.q, s.r, s.w);
  }

  // ---- one task at a time ----------------------------------------------------------------------

  /** The queue as the functions of core/ptp.c see it between calls. */
  class MsgQueue {
    var r: nat
    var w: nat
    const q: array<Option<Msg>>

    ghost predicate Valid()
      reads this
    {
      q.Length == LEN && r < LEN && w < LEN
    }

    ghost function Queued(): seq<Option<Msg>>
      requires Valid()
      reads this, q
    {
      Contents(q[..], r, w)
    }

    constructor ()
      ensures Valid() && Queued() == [] && fresh(q)
    {
      r, w := 0, 0;
      q := new Option<Msg>[LEN](_ => None);
    }

    method Enqueue(msg: Option<Msg>) returns (ok: bool)
      requires Valid()
      modifies `w, q
      ensures Valid() && (ok <==> |old(Queued())| < LEN - 1 && msg.Some?)
      ensures Queued() == old(Queued()) + if ok then [msg] else []
    {
      FullAndEmpty(r, w);
      var next := NextIndex(w);
      if next == r {
        return false;
      }
      if msg == None {
        return false;
      }
      Published(q[..], r, w, msg);
      q[w] := msg;
      assert q[..] == old(q[..])[w := msg];
      w := next;
      return true;
    }

    method Dequeue() returns (msg: Option<Msg>)
      requires Valid()
      modifies `r
      ensures Valid() && w == old(w)
      ensures old(Queued()) == [] ==> msg == None && Queued() == []
      ensures old(Queued()) != [] ==> msg == old(Queued())[0] && Queued() == old(Queued())[1..]
    {
      FullAndEmpty(r, w);
      if w == r {
        return None;
      }
      Taken(q[..], r, w);
      msg := q[r];
      r := NextIndex(r);
    }

    /** empty_script_msg_q */
    method Clear()
      requires Valid() && forall i :: 0 <= i < |Queued()| ==> Queued()[i].Some?
      modifies `r
      ensures Valid() && Queued() == []
    {
      var msg := Dequeue();
      while msg.Some?
        invariant Valid() && (msg == None ==> Queued() == [])
        invariant forall i :: 0 <= i < |Queued()| ==> Queued()[i].Some?
        decreases |Queued()|, msg.Some?
      {
        msg := Dequeue();
      }
    }

    /**
     ptp_script_read_msg: the oldest message for the running script or for any script;
     the messages for other scripts ahead of it are dropped, the ones behind it stay.
     */
    method ReadMsg(scriptRunId: nat) returns (msg: Option<Msg>)
      requires Valid() && forall i :: 0 <= i < |Queued()| ==> Queued()[i].Some?
      modifies `r
      ensures Valid()
      ensures var (c, k) := (old(Queued()), FirstFor(old(Queued()), scriptRunId));
              if k == |c| then msg == None && Queued() == []
              else msg == c[k] && Queued() == c[k + 1..]
    {
      ghost var c := Queued();
      ghost var k := 0;
      while true
        invariant Valid() && k <= |c| && Queued() == c[k..]
        invariant FirstFor(c, scriptRunId) == k + FirstFor(c[k..], scriptRunId)
        decreases |c| - k
      {
        msg := Dequeue();
        if msg == None {
          return;
        }
        assert c[k..][1..] == c[k + 1..];
        if msg.value.scriptId == 0 || msg.value.scriptId == scriptRunId {
          return;
        }
        k := k + 1;
      }
    }
  }

  /** The message is for the script with this id, or for any script, which is id 0. */
  predicate For(m: Option<Msg>, id: nat) {
    m.Some? && (m.value.scriptId == 0 || m.value.scriptId == id)
  }

  /** The position of the first message for a script. */
  ghost function FirstFor(c: seq<Option<Msg>>, id: nat): (k: nat)
    ensures k <= |c|
    ensures k < |c| ==> c[k].Some? && (c[k].value.scriptId == 0 || c[k].value.scriptId == id)
    ensures forall i :: 0 <= i < k && c[i].Some? ==> c[i].value.scriptId != 0 && c[i].value.scriptId != id
  {
    if c == [] || For(c[0], id) then 0 else 1 + FirstFor(c[1..], id)
  }
}
