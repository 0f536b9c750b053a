/**
 When the USB remote moves the shutter key: each key event of a run comes at the first
 sample that calls for it, told by the samples and the event before alone.
 */
module UsbTiming {
  import opened UsbRemote

  function Elapsed(samples: seq<Sample>, j: nat, k: nat): int
    requires j < |samples| && k < |samples|
  {
    samples[k].tick - samples[j].tick
  }

  /** The first sample of the unbroken stretch of power that sample k, after sample r, belongs to. */
  function PowerSince(samples: seq<Sample>, r: nat, k: nat): (j: nat)
    requires r < k < |samples| && samples[k].on
    ensures r < j <= k && (j == r + 1 || !samples[j - 1].on)
    ensures forall i :: j <= i <= k ==> samples[i].on
  {
    if k == r + 1 || !samples[k - 1].on then k else PowerSince(samples, r, k - 1)
  }

  /** Sample k is without power, more than the debounce time after sample h. */
  predicate IsGap(samples: seq<Sample>, h: nat, k: nat)
    requires h < |samples| && k < |samples|
  {
    !samples[k].on && Elapsed(samples, h, k) > DEBOUNCE_TIME
  }

  /** The first such sample after h, or n when there is none before n. */
  function FirstGap(samples: seq<Sample>, h: nat, n: nat): (m: nat)
    requires h < n <= |samples|
    ensures h < m <= n && (m < n ==> IsGap(samples, h, m))
    ensures forall i :: h < i < m ==> !IsGap(samples, h, i)
  {
    if n == h + 1 then n
    else
      var m := FirstGap(samples, h, n - 1);
      if m < n - 1 || IsGap(samples, h, n - 1) then m else n
  }

  /** The event prev was the last one before sample k, and sample k calls for the next. */
  predicate Due(sw: Switch, samples: seq<Sample>, prev: Entry, k: nat)
    requires prev.at < k < |samples|
  {
    match prev.key
    case HalfUp =>
      // Power for longer than the debounce time.
      samples[k].on && Elapsed(samples, PowerSince(samples, prev.at, k), k) > DEBOUNCE_TIME
    case HalfDown =>
      if sw == OnePress then IsGap(samples, prev.at, k)
      else
        // After a gap: power again, for a full press, or no power for too long.
        var m := FirstGap(samples, prev.at, k);
        m < k && Elapsed(samples, m, k) > if samples[k].on then DEBOUNCE_TIME else MAX_FULL_PRESS_DELAY
    case FullDown =>
      if sw == OnePress then Elapsed(samples, prev.at, k) > FULL_PRESS_PULSE_TIME else !samples[k].on
    case FullUp => false
  }

  /** The event after prev, when sample k calls for it. */
  function NextKey(sw: Switch, samples: seq<Sample>, prev: Key, k: nat): Key
    requires k < |samples|
  {
    match prev
    case HalfUp => HalfDown
    case HalfDown => if sw == OnePress || samples[k].on then FullDown else HalfUp
    case FullDown => FullUp
    case FullUp => HalfUp
  }

  /** No sample after prev and before n calls for another event. */
  ghost predicate Quiet(sw: Switch, samples: seq<Sample>, prev: Entry, n: nat)
    requires n <= |samples|
  {
    forall k :: prev.at < k < n ==> !Due(sw, samples, prev, k)
  }

  /** e comes with the first sample that calls for an event after prev, or, for the half press, with the end of the full press. */
  ghost predicate Follows(sw: Switch, samples: seq<Sample>, prev: Entry, e: Entry) {
    if prev.key == FullUp then e == Entry(HalfUp, prev.at)
    else
      && prev.at < e.at < |samples| && Due(sw, samples, prev, e.at) && Quiet(sw, samples, prev, e.at)
      && e.key == NextKey(sw, samples, prev.key, e.at)
  }

  ghost predicate AllFollow(sw: Switch, samples: seq<Sample>, log: seq<Entry>) {
    forall i :: 2 <= i < |log| ==> Follows(sw, samples, log[i - 1], log[i])
  }

  /** The releases of the reset, then the events that the samples call for, and all of them. */
  ghost predicate Exact(sw: Switch, samples: seq<Sample>, log: seq<Entry>, n: nat)
    requires n <= |samples|
  {
    && |log| >= 2 && log[..2] == [Entry(FullUp, 0), Entry(HalfUp, 0)]
    && AllFollow(sw, samples, log)
    && log[|log| - 1].key != FullUp && log[|log| - 1].at < n && Quiet(sw, samples, log[|log| - 1], n)
  }

  // ---- the drivers -------------------------------------------------------------------------------

  /** What the driver's state and time stamp stand for after n samples, e being the last event. */
  ghost predicate Stands(sw: Switch, samples: seq<Sample>, n: nat, e: Entry, s: State)
    requires e.at < n <= |samples|
  {
    match s.driver
    case SwIdle => e.key == HalfUp && (e.at == n - 1 || !samples[n - 1].on)
    case SwPowerConnect =>
      e.key == HalfUp && e.at < n - 1 && samples[n - 1].on && s.stamp == samples[PowerSince(samples, e.at, n - 1)].tick
    case SwPowerOn =>
      e.key == HalfDown && s.stamp == samples[e.at].tick && FirstGap(samples, e.at, n) == n
    case SwPowerDisconnect =>
      if sw == OnePress then e.key == FullDown && s.stamp == samples[e.at].tick
      else e.key == HalfDown && FirstGap(samples, e.at, n) < n && s.stamp == samples[FirstGap(samples, e.at, n)].tick
    case SwFullPressActive => sw == TwoPress && e.key == FullDown
    case _ => false
  }

  /** The key events of one more tick, the last event before being e. */
  ghost predicate Ticks(sw: Switch, samples: seq<Sample>, n: nat, e: Entry, s: State)
    requires e.at < n < |samples|
  {
    var s1 := DriverStep(sw, s, samples[n].on, samples[n].tick);
    var (logic, keys) := Shoot(s1.logic, s1.remote);
    var u := s1.(logic := logic);
    if !Due(sw, samples, e, n) then keys == [] && Stands(sw, samples, n + 1, e, u)
    else if e.key == FullDown then keys == [FullUp, HalfUp] && Stands(sw, samples, n + 1, Entry(HalfUp, n), u)
    else
      var key := NextKey(sw, samples, e.key, n);
      key != FullUp && keys == [key] && Stands(sw, samples, n + 1, Entry(key, n), u)
  }

  lemma GapStep(samples: seq<Sample>, h: nat, n: nat)
    requires h < n < |samples|
    ensures FirstGap(samples, h, n + 1) ==
              if FirstGap(samples, h, n) < n || IsGap(samples, h, n) then FirstGap(samples, h, n) else n + 1
  {
  }

  lemma OnePressTicks(samples: seq<Sample>, n: nat, e: Entry, s: State)
    requires e.at < n < |samples| && Agree(OnePress, s) && Stands(OnePress, samples, n, e, s)
    ensures Ticks(OnePress, samples, n, e, s)
  {
    GapStep(samples, e.at, n);
  }

  lemma TwoPressTicks(samples: seq<Sample>, n: nat, e: Entry, s: State)
    requires e.at < n < |samples| && Agree(TwoPress, s) && Stands(TwoPress, samples, n, e, s)
    ensures Ticks(TwoPress, samples, n, e, s)
  {
    GapStep(samples, e.at, n);
  }

  // ---- runs ---------------------------------------------------------------------------------------

  ghost predicate SoFar(sw: Switch, samples: seq<Sample>, n: nat, t: Trace)
    requires n <= |samples|
  {
    Exact(sw, samples, t.log, n) && Stands(sw, samples, n, t.log[|t.log| - 1], t.state)
  }

  lemma TickExact(sw: Switch, samples: seq<Sample>, n: nat, t: Trace)
    requires 0 < n < |samples| && SoFar(sw, samples, n, t) && Agree(sw, t.state)
    ensures SoFar(sw, samples, n + 1, Tick(sw, t, samples[n], n))
  {
    hide DriverStep, Shoot, Stands, Due, Agree, NextKey;
    var e := t.log[|t.log| - 1];
    if sw == OnePress { OnePressTicks(samples, n, e, t.state); } else { TwoPressTicks(samples, n, e, t.state); }
    var u := Tick(sw, t, samples[n], n);
    assert t.log[..2] == u.log[..2];
    assert Due(sw, samples, e, n) && e.key == FullDown ==> NextKey(sw, samples, e.key, n) == FullUp by { NextOfFull(sw, samples, n); }
  }

  lemma NextOfFull(sw: Switch, samples: seq<Sample>, k: nat)
    requires k < |samples|
    ensures NextKey(sw, samples, FullDown, k) == FullUp
  {
  }

  lemma {:induction false} RunSoFar(sw: Switch, samples: seq<Sample>, n: nat)
    requires 0 < n <= |samples|
    ensures SoFar(sw, samples, n, Run(sw, samples[..n]))
  {
    hide Exact, Stands, Tick;
    assert samples[..n][..n - 1] == samples[..n - 1];
    if n == 1 {
      FirstTick(sw, samples);
    } else {
      RunSoFar(sw, samples, n - 1);
      KeyTrace(sw, samples[..n - 1]);
      TickExact(sw, samples, n - 1, Run(sw, samples[..n - 1]));
    }
  }

  lemma FirstTick(sw: Switch, samples: seq<Sample>)
    requires samples != []
    ensures SoFar(sw, samples, 1, Run(sw, samples[..1]))
  {
    hide Tick, Due, PowerSince, FirstGap;
    assert samples[..1][..0] == [] && Run(sw, samples[..0]) == Trace(START, []);
    ResetTick(sw, samples[0]);
  }

  /** The reset releases both keys. */
  lemma ResetTick(sw: Switch, sample: Sample)
    ensures var t := Tick(sw, Trace(START, []), sample, 0);
            t.log == [Entry(FullUp, 0), Entry(HalfUp, 0)] && t.state.driver == SwIdle
  {
  }

  /**
   In every run the key events are the releases of the reset and then, one after the other,
   the events that the samples call for, each at the first sample that does, and none is
   left out.
   */
  lemma KeyTiming(sw: Switch, samples: seq<Sample>)
    requires samples != []
    ensures Exact(sw, samples, Run(sw, samples).log, |samples|)
  {
    RunSoFar(sw, samples, |samples|);
    assert samples[..|samples|] == samples;
  }

  lemma FollowsOnce(sw: Switch, samples: seq<Sample>, prev: Entry, d: Entry, e: Entry)
    requires Follows(sw, samples, prev, d) && Follows(sw, samples, prev, e)
    ensures d == e
  {
    hide Due;
  }

  lemma {:induction false} SameUpTo(sw: Switch, samples: seq<Sample>, a: seq<Entry>, b: seq<Entry>, i: nat)
    requires 2 <= i <= |a| && i <= |b| && a[..2] == b[..2] && AllFollow(sw, samples, a) && AllFollow(sw, samples, b)
    ensures a[i - 1] == b[i - 1] && a[..i] == b[..i]
  {
    hide Follows;
    if i == 2 {
      assert a[1] == a[..2][1] == b[..2][1] == b[1];
    } else {
      SameUpTo(sw, samples, a, b, i - 1);
      FollowsOnce(sw, samples, a[i - 2], a[i - 1], b[i - 1]);
      assert a[..i] == a[..i - 1] + [a[i - 1]] && b[..i] == b[..i - 1] + [b[i - 1]];
    }
  }

  /** Events do not come before earlier ones. */
  lemma {:induction false} LastIsLatest(sw: Switch, samples: seq<Sample>, log: seq<Entry>, i: nat)
    requires 1 <= i < |log| && AllFollow(sw, samples, log)
    ensures log[i].at <= log[|log| - 1].at
    decreases |log| - i
  {
    hide Due;
    if i < |log| - 1 {
      LastIsLatest(sw, samples, log, i + 1);
      assert Follows(sw, samples, log[i], log[i + 1]);
    }
  }

  lemma NotLonger(sw: Switch, samples: seq<Sample>, a: seq<Entry>, b: seq<Entry>, n: nat)
    requires n <= |samples| && Exact(sw, samples, a, n) && Exact(sw, samples, b, n)
    ensures |b| <= |a|
  {
    hide Due;
    if |a| < |b| {
      SameUpTo(sw, samples, a, b, |a|);
      LastIsLatest(sw, samples, b, |a|);
    }
  }

  /** The samples determine the key events. */
  lemma OnlyOneLog(sw: Switch, samples: seq<Sample>, a: seq<Entry>, b: seq<Entry>, n: nat)
    requires n <= |samples| && Exact(sw, samples, a, n) && Exact(sw, samples, b, n)
    ensures a == b
  {
    hide Follows, Quiet;
    NotLonger(sw, samples, a, b, n);
    NotLonger(sw, samples, b, a, n);
    SameUpTo(sw, samples, a, b, |a|);
  }
}
