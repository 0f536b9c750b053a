/** The drivers and the shooting module of the USB remote, on the variables they share. */
module UsbDevice {
  import opened UsbRemote

  lemma RunMore(sw: Switch, samples: seq<Sample>, p: Sample)
    ensures Run(sw, samples + [p]) == Tick(sw, Run(sw, samples), p, |samples|)
  {
    hide Tick;
    assert (samples + [p])[..|samples|] == samples;
  }

  class RemoteControl {
    const switchType: Switch
    var driverState: Driver
    var virtualRemoteState: Remote
    var logicModuleState: Logic
    var oneTimeStamp: int
    var twoTimeStamp: int
    ghost var samples: seq<Sample>
    ghost var log: seq<Entry>

    ghost function Seen(stamp: int): State
      reads this
    {
      State(driverState, virtualRemoteState, stamp, logicModuleState)
    }

    /** The variables and the key events so far are those of a run over the samples so far. */
    ghost predicate Valid()
      reads this
    {
      Trace(Seen(if switchType == OnePress then oneTimeStamp else twoTimeStamp), log) == Run(switchType, samples)
    }

    constructor (sw: Switch)
      ensures Valid() && switchType == sw && samples == []
    {
      switchType := sw;
      driverState, virtualRemoteState, logicModuleState := SwReset, RemoteReset, LmReset;
      oneTimeStamp, twoTimeStamp := 0, 0;
      samples, log := [], [];
    }

    method OnePressSwitch(on: bool, now: int)
      modifies this`driverState, this`virtualRemoteState, this`oneTimeStamp
      ensures Seen(oneTimeStamp) == OnePressStep(old(Seen(oneTimeStamp)), on, now)
    {
      match driverState {
        case SwReset =>
          virtualRemoteState := RemoteRelease;
          driverState := SwIdle;
        case SwIdle =>
          virtualRemoteState := RemoteRelease;
          if on {
            driverState := SwPowerConnect;
            oneTimeStamp := now;
          }
        case SwPowerConnect =>
          if on {
            if now - oneTimeStamp > DEBOUNCE_TIME {
              driverState := SwPowerOn;
              virtualRemoteState := RemoteHalfPress;
              oneTimeStamp := now;
            }
          } else {
            driverState := SwIdle;
          }
        case SwPowerOn =>
          if !on {
            if now - oneTimeStamp > DEBOUNCE_TIME {
              driverState := SwPowerDisconnect;
              virtualRemoteState := RemoteFullPress;
              oneTimeStamp := now;
            }
          }
        case SwPowerDisconnect =>
          if now - oneTimeStamp > FULL_PRESS_PULSE_TIME {
            driverState := SwIdle;
            virtualRemoteState := RemoteRelease;
          }
        case _ =>
      }
    }

    method TwoPressSwitch(on: bool, now: int)
      modifies this`driverState, this`virtualRemoteState, this`twoTimeStamp
      ensures Seen(twoTimeStamp) == TwoPressStep(old(Seen(twoTimeStamp)), on, now)
    {
      match driverState {
        case SwReset =>
          virtualRemoteState := RemoteRelease;
          driverState := SwIdle;
        case SwIdle =>
          if on {
            driverState := SwPowerConnect;
            twoTimeStamp := now;
          }
        case SwPowerConnect =>
          if on {
            if now - twoTimeStamp > DEBOUNCE_TIME {
              driverState := SwPowerOn;
              virtualRemoteState := RemoteHalfPress;
              twoTimeStamp := now;
            }
          } else {
            driverState := SwIdle;
          }
        case SwPowerOn =>
          if !on {
            if now - twoTimeStamp > DEBOUNCE_TIME {
              driverState := SwPowerDisconnect;
              twoTimeStamp := now;
            }
          }
        case SwPowerDisconnect =>
          if on {
            if now - twoTimeStamp > DEBOUNCE_TIME {
              driverState := SwFullPressActive;
              virtualRemoteState := RemoteFullPress;
              twoTimeStamp := now;
            }
          } else {
            if now - twoTimeStamp > MAX_FULL_PRESS_DELAY {
              virtualRemoteState := RemoteRelease;
              driverState := SwIdle;
            }
          }
        case SwFullPressActive =>
          if !on {
            virtualRemoteState := RemoteRelease;
            driverState := SwIdle;
          }
        case _ =>
      }
    }

    /** The module, sync off; keys are the presses and releases it asks for, in order. */
    method ShootNormal() returns (keys: seq<Key>)
      modifies this`logicModuleState
      ensures logicModuleState == Shoot(old(logicModuleState), virtualRemoteState).0
      ensures keys == Shoot(old(logicModuleState), virtualRemoteState).1
    {
      keys := [];
      match logicModuleState {
        case LmReset =>
          keys := keys + [FullUp];
          keys := keys + [HalfUp];
          logicModuleState := LmRelease;
        case LmRelease =>
          match virtualRemoteState {
            case RemoteHalfPress =>
              keys := keys + [HalfDown];
              logicModuleState := LmHalfPress;
            case RemoteFullPress =>
              keys := keys + [HalfDown];
              keys := keys + [FullDown];
              logicModuleState := LmFullPress;
            case _ =>
          }
        case LmHalfPress =>
          match virtualRemoteState {
            case RemoteRelease =>
              keys := keys + [HalfUp];
              logicModuleState := LmRelease;
            case RemoteFullPress =>
              keys := keys + [FullDown];
              logicModuleState := LmFullPress;
            case _ =>
          }
        case LmFullPress =>
          match virtualRemoteState {
            case RemoteRelease =>
              keys := keys + [FullUp];
              keys := keys + [HalfUp];
              logicModuleState := LmRelease;
            case RemoteHalfPress =>
              keys := keys + [FullUp];
              logicModuleState := LmHalfPress;
            case _ =>
          }
        case _ =>
      }
    }

    /** One call of the remote's handler: the driver, then the module. */
    method HandleUsbRemote(on: bool, now: int) returns (keys: seq<Key>)
      requires Valid()
      modifies this
      ensures Valid() && samples == old(samples) + [Sample(on, now)]
      ensures log == old(log) + Entries(keys, |old(samples)|)
    {
      hide Shoot, OnePressStep, TwoPressStep, Run;
      RunMore(switchType, samples, Sample(on, now));
      if switchType == OnePress {
        OnePressSwitch(on, now);
      } else {
        TwoPressSwitch(on, now);
      }
      keys := ShootNormal();
      log := log + Entries(keys, |samples|);
      samples := samples + [Sample(on, now)];
    }
  }
}
