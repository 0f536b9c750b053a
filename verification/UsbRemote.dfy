/**
 * The USB remote: a driver that times the power on the USB port, and the module that turns the
 * virtual switch it keeps into presses and releases of the shutter key.
 */
module UsbRemote {
  const DEBOUNCE_TIME := 10
  const FULL_PRESS_PULSE_TIME := 1000
  const MAX_FULL_PRESS_DELAY := 1000

  datatype Driver =
    | SwReset | SwIdle | SwPowerConnect | SwPowerOn | SwPowerDisconnect | SwFullPressActive | SwOther
  datatype Remote = RemoteReset | RemoteRelease | RemoteHalfPress | RemoteFullPress
  datatype Logic = LmReset | LmRelease | LmHalfPress | LmFullPress | LmOther
  datatype Key = HalfDown | HalfUp | FullDown | FullUp
  datatype Switch = OnePress | TwoPress

  /** The state the drivers and the module share; stamp is the static time stamp of the driver in use. */
  datatype State = State(driver: Driver, remote: Remote, stamp: int, logic: Logic)

  const START := State(SwReset, RemoteReset, 0, LmReset)

  // ---- one tick -----------------------------------------------------------------------------

  function OnePressStep(s: State, on: bool, now: int): State {
    var late := now - s.stamp > DEBOUNCE_TIME;
    match s.driver
    case SwReset => s.(remote := RemoteRelease, driver := SwIdle)
    case SwIdle =>
      if on then s.(remote := RemoteRelease, driver := SwPowerConnect, stamp := now)
      else s.(remote := RemoteRelease)
    case SwPowerConnect =>
      if !on then s.(driver := SwIdle)
      else if late then s.(driver := SwPowerOn, remote := RemoteHalfPress, stamp := now)
      else s
    case SwPowerOn =>
      if !on && late then s.(driver := SwPowerDisconnect, remote := RemoteFullPress, stamp := now) else s
    case SwPowerDisconnect =>
      if now - s.stamp > FULL_PRESS_PULSE_TIME then s.(driver := SwIdle, remote := RemoteRelease) else s
    case _ => s
  }

  function TwoPressStep(s: State, on: bool, now: int): State {
    var late := now - s.stamp > DEBOUNCE_TIME;
    match s.driver
    case SwReset => s.(remote := RemoteRelease, driver := SwIdle)
    case SwIdle => if on then s.(driver := SwPowerConnect, stamp := now) else s
    case SwPowerConnect =>
      if !on then s.(driver := SwIdle)
      else if late then s.(driver := SwPowerOn, remote := RemoteHalfPress, stamp := now)
      else s
    case SwPowerOn => if !on && late then s.(driver := SwPowerDisconnect, stamp := now) else s
    case SwPowerDisconnect =>
      if on then
        if late then s.(driver := SwFullPressActive, remote := RemoteFullPress, stamp := now) else s
      else if now - s.stamp > MAX_FULL_PRESS_DELAY then s.(driver := SwIdle, remote := RemoteRelease)
      else s
    case SwFullPressActive => if !on then s.(driver := SwIdle, remote := RemoteRelease) else s
    case _ => s
  }

  function DriverStep(sw: Switch, s: State, on: bool, now: int): State {
    if sw == OnePress then OnePressStep(s, on, now) else TwoPressStep(s, on, now)
  }

  /** What the module does to the keys, and the state it moves to, when sync is off. */
  function Shoot(logic: Logic, remote: Remote): (Logic, seq<Key>) {
    match (logic, remote)
    case (LmReset, _) => (LmRelease, [FullUp, HalfUp])
    case (LmRelease, RemoteHalfPress) => (LmHalfPress, [HalfDown])
    case (LmRelease, RemoteFullPress) => (LmFullPress, [HalfDown, FullDown])
    case (LmHalfPress, RemoteRelease) => (LmRelease, [HalfUp])
    case (LmHalfPress, RemoteFullPress) => (LmFullPress, [FullDown])
    case (LmFullPress, RemoteRelease) => (LmRelease, [FullUp, HalfUp])
    case (LmFullPress, RemoteHalfPress) => (LmHalfPress, [FullUp])
    case _ => (logic, [])
  }

  /** The keys that are down, half and full, after some key events. */
  function Down(half: bool, full: bool, keys: seq<Key>): (bool, bool)
    decreases |keys|
  {
    if keys == [] then (half, full)
    else
      match keys[0]
      case HalfDown => Down(true, full, keys[1..])
      case HalfUp => Down(false, full, keys[1..])
      case FullDown => Down(half, true, keys[1..])
      case FullUp => Down(half, false, keys[1..])
  }

  /** Once reset, the module presses exactly the keys that the virtual switch asks for, and no event is idle. */
  lemma KeysFollowSwitch(logic: Logic, remote: Remote)
    requires (logic == LmRelease || logic == LmHalfPress || logic == LmFullPress) && remote != RemoteReset
    ensures var (after, keys) := Shoot(logic, remote);
            && after == (if remote == RemoteRelease then LmRelease else if remote == RemoteHalfPress then LmHalfPress else LmFullPress)
            && Down(logic != LmRelease, logic == LmFullPress, keys) == (remote != RemoteRelease, remote == RemoteFullPress)
            && (keys == [] <==> after == logic) && (forall i, j :: 0 <= i < j < |keys| ==> keys[i] != keys[j])
  {
    var keys := Shoot(logic, remote).1;
    assert |keys| > 0 ==> |keys[1..]| == |keys| - 1;
    assert |keys| == 2 ==> keys[1..][0] == keys[1] && keys[1..][1..] == [];
    assert |keys| == 1 ==> keys[1..] == [];
  }

  // ---- runs -----------------------------------------------------------------------------------

  /** What a driver call sees: whether the port has power, and the tick count. */
  datatype Sample = Sample(on: bool, tick: int)

  /** A key event and the number of the sample it came with. */
  datatype Entry = Entry(key: Key, at: nat)

  datatype Trace = Trace(state: State, log: seq<Entry>)

  function Entries(keys: seq<Key>, at: nat): (r: seq<Entry>)
    ensures |r| == |keys| && forall i :: 0 <= i < |r| ==> r[i] == Entry(keys[i], at)
  {
    seq(|keys|, i requires 0 <= i < |keys| => Entry(keys[i], at))
  }

  function Keys(log: seq<Entry>): (r: seq<Key>)
    ensures |r| == |log| && forall i :: 0 <= i < |r| ==> r[i] == log[i].key
  {
    seq(|log|, i requires 0 <= i < |log| => log[i].key)
  }

  /** The driver, then the module. */
  function Tick(sw: Switch, t: Trace, p: Sample, at: nat): Trace {
    var s := DriverStep(sw, t.state, p.on, p.tick);
    var (logic, keys) := Shoot(s.logic, s.remote);
    Trace(s.(logic := logic), t.log + Entries(keys, at))
  }

  /** A run from a reset, one tick for each sample. */
  function Run(sw: Switch, samples: seq<Sample>): Trace {
    if samples == [] then Trace(START, [])
    else Tick(sw, Run(sw, samples[..|samples| - 1]), samples[|samples| - 1], |samples| - 1)
  }

  // ---- the shape of a trace ---------------------------------------------------------------------

  const SHOT := [HalfDown, FullDown, FullUp, HalfUp]
  const FOCUS := [HalfDown, HalfUp]

  ghost predicate EndsWith(keys: seq<Key>, w: seq<Key>) {
    |w| <= |keys| && keys[|keys| - |w|..] == w
  }

  /** A sequence of whole presses: shots only for the one-press switch, shots and half presses for the other. */
  ghost predicate Presses(sw: Switch, keys: seq<Key>)
    decreases |keys|
  {
    || keys == []
    || (EndsWith(keys, SHOT) && Presses(sw, keys[..|keys| - 4]))
    || (sw == TwoPress && EndsWith(keys, FOCUS) && Presses(sw, keys[..|keys| - 2]))
  }

  /** The keys that are down. */
  function Held(logic: Logic): seq<Key> {
    match logic
    case LmHalfPress => [HalfDown]
    case LmFullPress => [HalfDown, FullDown]
    case _ => []
  }

  lemma AddShot(sw: Switch, keys: seq<Key>)
    requires Presses(sw, keys)
    ensures Presses(sw, keys + SHOT)
  {
    assert (keys + SHOT)[..|keys|] == keys && (keys + SHOT)[|keys|..] == SHOT;
  }

  lemma AddFocus(keys: seq<Key>)
    requires Presses(TwoPress, keys)
    ensures Presses(TwoPress, keys + FOCUS)
  {
    assert (keys + FOCUS)[..|keys|] == keys && (keys + FOCUS)[|keys|..] == FOCUS;
  }

  /** The driver's state, the virtual switch and the module's state agree after each tick. */
  ghost predicate Agree(sw: Switch, s: State) {
    match s.driver
    case SwIdle => s.remote == RemoteRelease && s.logic == LmRelease
    case SwPowerConnect => s.remote == RemoteRelease && s.logic == LmRelease
    case SwPowerOn => s.remote == RemoteHalfPress && s.logic == LmHalfPress
    case SwPowerDisconnect =>
      if sw == OnePress then s.remote == RemoteFullPress && s.logic == LmFullPress
      else s.remote == RemoteHalfPress && s.logic == LmHalfPress
    case SwFullPressActive => sw == TwoPress && s.remote == RemoteFullPress && s.logic == LmFullPress
    case _ => false
  }

  /** Whole presses, then the keys that are still down. */
  ghost predicate Fits(sw: Switch, keys: seq<Key>, logic: Logic) {
    EndsWith(keys, Held(logic)) && Presses(sw, keys[..|keys| - |Held(logic)|])
  }

  ghost predicate Shaped(sw: Switch, t: Trace) {
    && |t.log| >= 2 && t.log[..2] == [Entry(FullUp, 0), Entry(HalfUp, 0)]
    && Agree(sw, t.state)
    && Fits(sw, Keys(t.log[2..]), t.state.logic)
  }

  /** The moves of the virtual switch that the drivers make. */
  predicate Moves(sw: Switch, logic: Logic, remote: Remote) {
    match logic
    case LmRelease => remote == RemoteRelease || remote == RemoteHalfPress
    case LmHalfPress => remote == RemoteHalfPress || remote == RemoteFullPress || (sw == TwoPress && remote == RemoteRelease)
    case LmFullPress => remote == RemoteFullPress || remote == RemoteRelease
    case _ => false
  }

  lemma AgreeTick(sw: Switch, s: State, p: Sample)
    requires Agree(sw, s)
    ensures var u := DriverStep(sw, s, p.on, p.tick);
            && u.logic == s.logic && Moves(sw, s.logic, u.remote)
            && Agree(sw, u.(logic := Shoot(u.logic, u.remote).0))
  {
  }

  lemma FitsStep(sw: Switch, keys: seq<Key>, logic: Logic, remote: Remote)
    requires Fits(sw, keys, logic) && Moves(sw, logic, remote)
    ensures Fits(sw, keys + Shoot(logic, remote).1, Shoot(logic, remote).0)
  {
    hide Presses;
    var whole := keys[..|keys| - |Held(logic)|];
    var (after, more) := Shoot(logic, remote);
    assert keys == whole + Held(logic);
    if more == [] {
      assert keys + more == keys;
    } else if after == LmRelease {
      assert keys + more == whole + (Held(logic) + more);
      if logic == LmHalfPress {
        assert Held(logic) + more == FOCUS;
        AddFocus(whole);
      } else {
        assert Held(logic) + more == SHOT;
        AddShot(sw, whole);
      }
      assert (keys + more)[..|keys + more|] == keys + more && (keys + more)[|keys + more|..] == [];
    } else {
      assert keys + more == whole + Held(after);
      assert (keys + more)[..|whole|] == whole && (keys + more)[|whole|..] == Held(after);
    }
  }

  lemma ShapedTick(sw: Switch, t: Trace, p: Sample, at: nat)
    requires Shaped(sw, t)
    ensures Shaped(sw, Tick(sw, t, p, at))
  {
    hide Fits, Agree, Shoot, DriverStep;
    var s := DriverStep(sw, t.state, p.on, p.tick);
    var more := Shoot(s.logic, s.remote).1;
    AgreeTick(sw, t.state, p);
    FitsStep(sw, Keys(t.log[2..]), s.logic, s.remote);
    KeysMore(t.log, more, at);
  }

  lemma KeysMore(log: seq<Entry>, more: seq<Key>, at: nat)
    requires |log| >= 2
    ensures (log + Entries(more, at))[..2] == log[..2]
    ensures Keys((log + Entries(more, at))[2..]) == Keys(log[2..]) + more
  {
  }

  /**
   * After any samples: the releases of the reset, then whole presses of the kinds the switch
   * has, then the keys that are still down, which the module's state names.
   */
  lemma {:induction false} KeyTrace(sw: Switch, samples: seq<Sample>)
    requires samples != []
    ensures Shaped(sw, Run(sw, samples))
  {
    var n := |samples| - 1;
    if n == 0 {
      assert Run(sw, samples[..0]) == Trace(START, []);
      var t := Run(sw, samples);
      assert t.log == Entries([FullUp, HalfUp], 0);
      assert t.log[2..] == [];
    } else {
      KeyTrace(sw, samples[..n]);
      ShapedTick(sw, Run(sw, samples[..n]), samples[n], n);
    }
  }

  lemma LastShot(keys: seq<Key>)
    requires Presses(OnePress, keys) && keys != []
    ensures |keys| >= 4 && keys[|keys| - 4..] == SHOT && Presses(OnePress, keys[..|keys| - 4])
  {
  }

  lemma Within4(n: nat, i: nat)
    requires n % 4 == 0 && n <= i < n + 4
    ensures i % 4 == i - n && (n + 4) % 4 == 0
  {
  }

  /** With the one-press switch the n-th key event after the reset is known beforehand. */
  lemma {:induction false} ShotsRepeat(keys: seq<Key>, i: nat)
    requires Presses(OnePress, keys) && i < |keys|
    ensures |keys| % 4 == 0 && keys[i] == SHOT[i % 4]
    decreases |keys|
  {
    hide Presses;
    LastShot(keys);
    var n := |keys| - 4;
    if n > 0 {
      ShotsRepeat(keys[..n], if i < n then i else 0);
    }
    Within4(n, if i < n then n else i);
    assert i >= n ==> keys[i] == keys[n..][i - n];
  }

  lemma FitsRepeat(keys: seq<Key>, logic: Logic, i: nat)
    requires Fits(OnePress, keys, logic) && i < |keys|
    ensures keys[i] == SHOT[i % 4]
  {
    hide Presses;
    var n := |keys| - |Held(logic)|;
    if n > 0 {
      ShotsRepeat(keys[..n], if i < n then i else 0);
    }
    if i >= n {
      Within4(n, i);
      assert keys[i] == keys[n..][i - n];
    }
  }

  lemma OnePressCycle(samples: seq<Sample>, i: nat)
    requires samples != []
    requires 2 <= i < |Run(OnePress, samples).log|
    ensures Run(OnePress, samples).log[i].key == SHOT[(i - 2) % 4]
  {
    hide Run, Fits, Agree, Presses;
    KeyTrace(OnePress, samples);
    var t := Run(OnePress, samples);
    var keys := Keys(t.log[2..]);
    FitsRepeat(keys, t.state.logic, i - 2);
    assert keys[i - 2] == t.log[2..][i - 2].key;
  }
}
