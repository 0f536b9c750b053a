/**
 What a shot does, told from beginning to end: each wait lasts until the first call whose
 answer ends it, and each event happens at a call of its own.  The stack of frames of
 ActionSpec.dfy, which works from the last frame pushed, does exactly this.
 */
module Shots {
  import opened ActionSpec

  /** An event and the number of the call it happened at. */
  datatype At = At(event: Event, call: nat)

  /** A part of a shot: through, with the number of the next call, or still under way when the answers end. */
  datatype Part = Part(through: bool, next: nat, log: seq<At>) {
    function Then(q: Part): Part {
      if through then Part(q.through, q.next, log + q.log) else this
    }
  }

  // ---- from beginning to end ------------------------------------------------------------------

  /** Wait for the first answer that is ready, and use it up. */
  function Await(envs: seq<Env>, i: nat, ready: Env -> bool): (p: Part)
    ensures p.log == [] && p.next >= i
    ensures p.through ==> i < p.next <= |envs| && ready(envs[p.next - 1]) && forall k :: i <= k < p.next - 1 ==> !ready(envs[k])
    ensures !p.through ==> forall k :: i <= k < |envs| ==> !ready(envs[k])
    decreases |envs| - i
  {
    if i >= |envs| then Part(false, i, [])
    else if ready(envs[i]) then Part(true, i + 1, [])
    else Await(envs, i + 1, ready)
  }

  function Emit(envs: seq<Env>, i: nat, e: Event): Part {
    if i < |envs| then Part(true, i + 1, [At(e, i)]) else Part(false, i, [])
  }

  /** Sleep: the first call sets the end, later ones wait for it; an end at tick 0 counts as none. */
  function Rest(envs: seq<Env>, i: nat, ms: int): (p: Part)
    ensures p.log == [] && p.next >= i
    decreases |envs| - i
  {
    if i >= |envs| then Part(false, i, [])
    else
      var end := envs[i].tick + if ms == -1 then ONE_DAY else ms;
      if end == 0 then Rest(envs, i + 1, ms) else Await(envs, i + 1, (e: Env) => end <= e.tick)
  }

  /** A shot that begins at call i. */
  function Shot(envs: seq<Env>, i: nat): Part {
    if i >= |envs| then Part(false, i, [])
    else Part(true, i + 1, [At(InitShooting, i)]).Then(HalfPress(envs, i + 1, envs[i], true))
  }

  /** The half press of a shot that began with the answer e. */
  function HalfPress(envs: seq<Env>, i: nat, e: Env, retry: bool): Part
    decreases retry, 3
  {
    var press := Emit(envs, i, KeyPress(KEY_SHOOT_HALF));
    var rest := Rest(envs, press.next, e.pressDelay);
    press.Then(rest.Then(Started(envs, rest.next, e.tick + SHOOT_TIMEOUT, retry)))
  }

  /** Until the camera shoots, or shows video, or the time is up, which is reported as 1. */
  function Started(envs: seq<Env>, i: nat, timeout: int, retry: bool): Part
    decreases retry, 2
  {
    var wait := Await(envs, i, (e: Env) => e.shooting || e.video || e.tick >= timeout);
    if !wait.through then wait
    else
      var e := envs[wait.next - 1];
      if e.shooting || e.video then FullPress(envs, wait.next, e, retry)
      else Part(true, wait.next, [At(SetAsRet(1), wait.next - 1)])
  }

  /** The flash, a click of the shutter, and the end of the shot. */
  function FullPress(envs: seq<Env>, i: nat, e: Env, retry: bool): Part
    decreases retry, 1
  {
    var flash := Await(envs, i, (x: Env) => x.flashReady);
    var press := Emit(envs, flash.next, KeyPress(KEY_SHOOT_FULL));
    var held := Rest(envs, press.next, e.pressDelay);
    var release := Emit(envs, held.next, KeyRelease(KEY_SHOOT_FULL));
    var rest := Rest(envs, release.next, e.releaseDelay);
    flash.Then(press.Then(held.Then(release.Then(rest.Then(Ended(envs, rest.next, retry))))))
  }

  /** Until the camera stops: success is reported as 0; a failure is tried again once and then reported as 2. */
  function Ended(envs: seq<Env>, i: nat, retry: bool): Part
    decreases retry, 0
  {
    var wait := Await(envs, i, (e: Env) => !e.shooting);
    if !wait.through then wait
    else
      var (c, n) := (wait.next - 1, wait.next);
      var e := envs[c];
      if !e.progressNone then
        Part(true, n, [At(SetAsRet(0), c)]).Then(if e.shootDelay > 0 then Rest(envs, n, e.shootDelay * 100) else Part(true, n, []))
      else if retry then
        var rest := Rest(envs, n, RETRY_DELAY);
        Part(true, n, [At(InitShooting, c)]).Then(rest.Then(HalfPress(envs, rest.next, e, false)))
      else Part(true, n, [At(SetAsRet(2), c)])
  }

  // ---- the stack, from call i on ---------------------------------------------------------------

  function Stamped(events: seq<Event>, call: nat): (r: seq<At>)
    ensures |r| == |events| && forall i :: 0 <= i < |r| ==> r[i] == At(events[i], call)
  {
    seq(|events|, i requires 0 <= i < |events| => At(events[i], call))
  }

  function Events(log: seq<At>): (r: seq<Event>)
    ensures |r| == |log| && forall i :: 0 <= i < |r| ==> r[i] == log[i].event
  {
    seq(|log|, i requires 0 <= i < |log| => log[i].event)
  }

  /** The calls of a stack until it is empty or the answers end. */
  ghost function StackRun(s: Stack, envs: seq<Env>, i: nat): Part
    decreases |envs| - i
  {
    if s.frames == [] then Part(true, i, [])
    else if i >= |envs| then Part(false, i, [])
    else
      var o := FrameStep(s, envs[i]);
      Part(true, i + 1, Stamped(o.events, i)).Then(StackRun(o.stack, envs, i + 1))
  }

  /** The frames below run on after p. */
  ghost function GoOn(p: Part, below: seq<Frame>, envs: seq<Env>): Part {
    p.Then(StackRun(Stack(below, 0), envs, p.next))
  }

  lemma GoOnThen(p: Part, q: Part, below: seq<Frame>, envs: seq<Env>)
    ensures p.Then(GoOn(q, below, envs)) == GoOn(p.Then(q), below, envs)
  {
    var k := StackRun(Stack(below, 0), envs, q.next);
    assert p.log + (q.log + k.log) == p.log + q.log + k.log;
  }

  /** One call of the function on top. */
  lemma TopCall(below: seq<Frame>, f: Frame, d: int, envs: seq<Env>, i: nat)
    requires i < |envs| && !Kills(f, envs[i])
    ensures var e := Call(f, d, envs[i]);
            StackRun(Stack(below + [f], d), envs, i) ==
              if e.process then Part(true, i + 1, Stamped(e.events, i)).Then(StackRun(Stack(below + e.pushed, e.delay), envs, i + 1))
              else StackRun(Stack(below + [f], e.delay), envs, i + 1)
  {
    hide Call;
    var s := Stack(below + [f], d);
    assert s.frames[..|s.frames| - 1] == below && s.frames[|s.frames| - 1] == f;
    var o := FrameStep(s, envs[i]);
    var rest := StackRun(o.stack, envs, i + 1);
    if !o.process {
      assert Stamped([], i) + rest.log == rest.log;
    }
  }

  /** Calls that return 0 and leave the delay alone, up to the first answer that is ready. */
  lemma {:induction false} Waits(below: seq<Frame>, f: Frame, d: int, envs: seq<Env>, i: nat, ready: Env -> bool)
    requires forall e: Env :: !ready(e) ==> !Kills(f, e) && !Call(f, d, e).process && Call(f, d, e).delay == d
    ensures var wait := Await(envs, i, ready);
            StackRun(Stack(below + [f], d), envs, i) ==
              if wait.through then StackRun(Stack(below + [f], d), envs, wait.next - 1) else wait
    decreases |envs| - i
  {
    hide Call, Kills;
    if i < |envs| && !ready(envs[i]) {
      TopCall(below, f, d, envs, i);
      Waits(below, f, d, envs, i + 1, ready);
    }
  }

  lemma Replaced(below: seq<Frame>, f: Frame, d: int, envs: seq<Env>, i: nat, events: seq<Event>)
    requires i < |envs| && !Kills(f, envs[i]) && Call(f, d, envs[i]) == Effect(true, [], 0, events)
    ensures StackRun(Stack(below + [f], d), envs, i) == GoOn(Part(true, i + 1, Stamped(events, i)), below, envs)
  {
    TopCall(below, f, d, envs, i);
    assert below + [] == below;
  }

  /** A frame that waits and then goes. */
  lemma WaitsAndGoes(below: seq<Frame>, f: Frame, d: int, envs: seq<Env>, i: nat, ready: Env -> bool)
    requires forall e: Env :: !Kills(f, e) && Call(f, d, e) == if ready(e) then Effect(true, [], 0, []) else Effect(false, [], d, [])
    ensures StackRun(Stack(below + [f], d), envs, i) == GoOn(Await(envs, i, ready), below, envs)
  {
    hide Call, Kills;
    Waits(below, f, d, envs, i, ready);
    var wait := Await(envs, i, ready);
    if wait.through {
      Replaced(below, f, d, envs, wait.next - 1, []);
      assert Stamped([], wait.next - 1) == [];
    }
  }

  // ---- each frame does its part ------------------------------------------------------------------

  lemma PressRuns(below: seq<Frame>, key: int, envs: seq<Env>, i: nat)
    ensures StackRun(Stack(below + [Press(key)], 0), envs, i) == GoOn(Emit(envs, i, KeyPress(key)), below, envs)
    ensures StackRun(Stack(below + [Release(key)], 0), envs, i) == GoOn(Emit(envs, i, KeyRelease(key)), below, envs)
  {
    if i < |envs| {
      Replaced(below, Press(key), 0, envs, i, [KeyPress(key)]);
      Replaced(below, Release(key), 0, envs, i, [KeyRelease(key)]);
      assert Stamped([KeyPress(key)], i) == [At(KeyPress(key), i)];
      assert Stamped([KeyRelease(key)], i) == [At(KeyRelease(key), i)];
    }
  }

  lemma FlashRuns(below: seq<Frame>, envs: seq<Env>, i: nat)
    ensures StackRun(Stack(below + [WaitFlash], 0), envs, i) == GoOn(Await(envs, i, (x: Env) => x.flashReady), below, envs)
  {
    WaitsAndGoes(below, WaitFlash, 0, envs, i, (x: Env) => x.flashReady);
  }

  lemma NothingRuns(below: seq<Frame>, f: Frame, envs: seq<Env>, i: nat)
    requires i >= |envs|
    ensures StackRun(Stack(below + [f], 0), envs, i) == GoOn(Part(false, i, []), below, envs)
  {
  }

  /** A sleep whose end is set. */
  lemma SleepsOn(below: seq<Frame>, ms: int, end: int, envs: seq<Env>, i: nat)
    requires end != 0
    ensures StackRun(Stack(below + [Sleep(ms)], end), envs, i) == GoOn(Await(envs, i, (e: Env) => end <= e.tick), below, envs)
  {
    hide StackRun, Await, GoOn;
    WaitsAndGoes(below, Sleep(ms), end, envs, i, (e: Env) => end <= e.tick);
  }

  lemma {:induction false} SleepRuns(below: seq<Frame>, ms: int, envs: seq<Env>, i: nat)
    ensures StackRun(Stack(below + [Sleep(ms)], 0), envs, i) == GoOn(Rest(envs, i, ms), below, envs)
    decreases |envs| - i
  {
    hide GoOn, Await;
    if i >= |envs| {
      NothingRuns(below, Sleep(ms), envs, i);
    } else {
      hide StackRun;
      TopCall(below, Sleep(ms), 0, envs, i);
      var end := envs[i].tick + if ms == -1 then ONE_DAY else ms;
      if end == 0 {
        SleepRuns(below, ms, envs, i + 1);
      } else {
        SleepsOn(below, ms, end, envs, i + 1);
      }
    }
  }

  lemma {:induction false} HalfPressRuns(below: seq<Frame>, n: int, e: Env, envs: seq<Env>, i: nat)
    ensures StackRun(Stack(below + ShootFrames(n, e), 0), envs, i) == GoOn(HalfPress(envs, i, e, n != 0), below, envs)
    decreases n != 0, 3
  {
    hide StackRun, Started;
    var w := WaitShootingInProgress(e.tick + SHOOT_TIMEOUT, n);
    var press := Emit(envs, i, KeyPress(KEY_SHOOT_HALF));
    var rest := Rest(envs, press.next, e.pressDelay);
    var start := Started(envs, rest.next, e.tick + SHOOT_TIMEOUT, n != 0);
    assert below + ShootFrames(n, e) == below + [w] + [Sleep(e.pressDelay)] + [Press(KEY_SHOOT_HALF)];
    PressRuns(below + [w] + [Sleep(e.pressDelay)], KEY_SHOOT_HALF, envs, i);
    SleepRuns(below + [w], e.pressDelay, envs, press.next);
    StartedRuns(below, n, e.tick + SHOOT_TIMEOUT, envs, rest.next);
    GoOnThen(rest, start, below, envs);
    GoOnThen(press, rest.Then(start), below, envs);
  }

  lemma {:induction false} StartedRuns(below: seq<Frame>, n: int, timeout: int, envs: seq<Env>, i: nat)
    ensures StackRun(Stack(below + [WaitShootingInProgress(timeout, n)], 0), envs, i)
         == GoOn(Started(envs, i, timeout, n != 0), below, envs)
    decreases n != 0, 2
  {
    hide StackRun, FullPress;
    var f := WaitShootingInProgress(timeout, n);
    var wait := Await(envs, i, (e: Env) => e.shooting || e.video || e.tick >= timeout);
    Waits(below, f, 0, envs, i, (e: Env) => e.shooting || e.video || e.tick >= timeout);
    if wait.through {
      var (c, e) := (wait.next - 1, envs[wait.next - 1]);
      if e.shooting || e.video {
        TopCall(below, f, 0, envs, c);
        FullPressRuns(below, n, e, envs, wait.next);
        assert Part(true, c + 1, Stamped([], c)).Then(GoOn(FullPress(envs, wait.next, e, n != 0), below, envs))
            == GoOn(FullPress(envs, wait.next, e, n != 0), below, envs);
      } else {
        Replaced(below, f, 0, envs, c, [SetAsRet(1)]);
        assert Stamped([SetAsRet(1)], c) == [At(SetAsRet(1), c)];
      }
    }
  }

  lemma {:induction false} FullPressRuns(below: seq<Frame>, n: int, e: Env, envs: seq<Env>, i: nat)
    ensures StackRun(Stack(below + FullPressFrames(n, e), 0), envs, i) == GoOn(FullPress(envs, i, e, n != 0), below, envs)
    decreases n != 0, 1
  {
    hide StackRun, Ended;
    var flash := Await(envs, i, (x: Env) => x.flashReady);
    var press := Emit(envs, flash.next, KeyPress(KEY_SHOOT_FULL));
    var held := Rest(envs, press.next, e.pressDelay);
    var release := Emit(envs, held.next, KeyRelease(KEY_SHOOT_FULL));
    var rest := Rest(envs, release.next, e.releaseDelay);
    var end := Ended(envs, rest.next, n != 0);
    var b0 := below + [WaitShootingDone(n)];
    var b1 := b0 + [Sleep(e.releaseDelay)];
    var b2 := b1 + [Release(KEY_SHOOT_FULL)];
    var b3 := b2 + [Sleep(e.pressDelay)];
    var b4 := b3 + [Press(KEY_SHOOT_FULL)];
    assert below + FullPressFrames(n, e) == b4 + [WaitFlash];
    FlashRuns(b4, envs, i);
    PressRuns(b3, KEY_SHOOT_FULL, envs, flash.next);
    SleepRuns(b2, e.pressDelay, envs, press.next);
    PressRuns(b1, KEY_SHOOT_FULL, envs, held.next);
    SleepRuns(b0, e.releaseDelay, envs, release.next);
    EndedRuns(below, n, envs, rest.next);
    GoOnThen(rest, end, below, envs);
    GoOnThen(release, rest.Then(end), below, envs);
    GoOnThen(held, release.Then(rest.Then(end)), below, envs);
    GoOnThen(press, held.Then(release.Then(rest.Then(end))), below, envs);
    GoOnThen(flash, press.Then(held.Then(release.Then(rest.Then(end)))), below, envs);
  }

  lemma {:induction false} EndedRuns(below: seq<Frame>, n: int, envs: seq<Env>, i: nat)
    ensures StackRun(Stack(below + [WaitShootingDone(n)], 0), envs, i) == GoOn(Ended(envs, i, n != 0), below, envs)
    decreases n != 0, 0
  {
    hide StackRun, HalfPress;
    var f := WaitShootingDone(n);
    var wait := Await(envs, i, (e: Env) => !e.shooting);
    Waits(below, f, 0, envs, i, (e: Env) => !e.shooting);
    if wait.through {
      var (c, e) := (wait.next - 1, envs[wait.next - 1]);
      TopCall(below, f, 0, envs, c);
      if !e.progressNone {
        assert Stamped([SetAsRet(0)], c) == [At(SetAsRet(0), c)];
        if e.shootDelay > 0 {
          SleepRuns(below, e.shootDelay * 100, envs, wait.next);
          GoOnThen(Part(true, wait.next, [At(SetAsRet(0), c)]), Rest(envs, wait.next, e.shootDelay * 100), below, envs);
        } else {
          Replaced(below, f, 0, envs, c, [SetAsRet(0)]);
        }
      } else if n != 0 {
        assert Stamped([InitShooting], c) == [At(InitShooting, c)];
        var rest := Rest(envs, wait.next, RETRY_DELAY);
        var again := HalfPress(envs, rest.next, e, false);
        assert below + (ShootFrames(0, e) + [Sleep(RETRY_DELAY)]) == below + ShootFrames(0, e) + [Sleep(RETRY_DELAY)];
        SleepRuns(below + ShootFrames(0, e), RETRY_DELAY, envs, wait.next);
        HalfPressRuns(below, 0, e, envs, rest.next);
        GoOnThen(rest, again, below, envs);
        GoOnThen(Part(true, wait.next, [At(InitShooting, c)]), rest.Then(again), below, envs);
      } else {
        Replaced(below, f, 0, envs, c, [SetAsRet(2)]);
        assert Stamped([SetAsRet(2)], c) == [At(SetAsRet(2), c)];
      }
    }
  }

  lemma ShotRuns(below: seq<Frame>, envs: seq<Env>, i: nat)
    ensures StackRun(Stack(below + [Shoot], 0), envs, i) == GoOn(Shot(envs, i), below, envs)
  {
    if i < |envs| {
      hide StackRun, HalfPress;
      var begin := Part(true, i + 1, [At(InitShooting, i)]);
      TopCall(below, Shoot, 0, envs, i);
      assert Stamped([InitShooting], i) == [At(InitShooting, i)];
      HalfPressRuns(below, 1, envs[i], envs, i + 1);
      GoOnThen(begin, HalfPress(envs, i + 1, envs[i], true), below, envs);
    }
  }

  /** A script on the stack: until it is switched off, and its frame goes, or ends, and the stack goes with it. */
  lemma ScriptRuns(below: seq<Frame>, envs: seq<Env>, i: nat)
    ensures var wait := Await(envs, i, (e: Env) => !e.scriptOn || !e.scriptRunning);
            StackRun(Stack(below + [ScriptRun], 0), envs, i) ==
              if wait.through && envs[wait.next - 1].scriptOn then Part(true, wait.next, [At(ScriptEnd, wait.next - 1)])
              else GoOn(wait, below, envs)
  {
    var wait := Await(envs, i, (e: Env) => !e.scriptOn || !e.scriptRunning);
    Waits(below, ScriptRun, 0, envs, i, (e: Env) => !e.scriptOn || !e.scriptRunning);
    if wait.through {
      var c := wait.next - 1;
      assert Stamped([], c) == [] && Stamped([ScriptEnd], c) == [At(ScriptEnd, c)];
      if !envs[c].scriptOn {
        Replaced(below, ScriptRun, 0, envs, c, []);
      } else {
        assert StackRun(Stack([], 0), envs, c + 1) == Part(true, c + 1, []);
      }
    }
  }

  // ---- the theorem about shots -----------------------------------------------------------------

  lemma {:induction false} NoCalls(s: Stack, envs: seq<Env>)
    requires s.frames == []
    ensures Calls(s, envs).stack == s && Calls(s, envs).log == []
    decreases |envs|
  {
    if envs != [] {
      NoCalls(s, envs[..|envs| - 1]);
    }
  }

  /** The events of a run of the stack are those of its calls. */
  lemma {:induction false} StackRunIsCalls(s: Stack, envs: seq<Env>, i: nat)
    requires i <= |envs|
    ensures var (p, t) := (StackRun(s, envs, i), Calls(s, envs[i..]));
            Events(p.log) == t.log && (p.through <==> t.stack.frames == [])
    decreases |envs| - i
  {
    hide FrameStep, AllWords;
    if s.frames == [] {
      NoCalls(s, envs[i..]);
    } else if i < |envs| {
      var (one, o) := ([envs[i]], FrameStep(s, envs[i]));
      StackRunIsCalls(o.stack, envs, i + 1);
      assert one[..0] == [] && envs[i..] == one + envs[i + 1..];
      CallsLast(s, one);
      CallsConcat(s, one, envs[i + 1..]);
      var rest := StackRun(o.stack, envs, i + 1);
      assert Events(Stamped(o.events, i) + rest.log) == o.events + Events(rest.log);
    }
  }

  /** A shot, as the stack does it, is the shot told from beginning to end, event by event and call by call. */
  lemma ShotIs(envs: seq<Env>)
    ensures StackRun(Stack([Shoot], 0), envs, 0) == Shot(envs, 0)
    ensures Calls(Stack([Shoot], 0), envs).log == Events(Shot(envs, 0).log)
    ensures Calls(Stack([Shoot], 0), envs).stack.frames == [] <==> Shot(envs, 0).through
  {
    hide Shot;
    ShotRuns([], envs, 0);
    assert [] + [Shoot] == [Shoot] && envs[0..] == envs;
    var p := Shot(envs, 0);
    assert p.log + [] == p.log;
    StackRunIsCalls(Stack([Shoot], 0), envs, 0);
  }

  // ---- what a shot can leave behind ----------------------------------------------------------

  const HALF_PRESS := [InitShooting, KeyPress(KEY_SHOOT_HALF)]
  const FULL_CLICK := [KeyPress(KEY_SHOOT_FULL), KeyRelease(KEY_SHOOT_FULL)]

  lemma EventsConcat(a: seq<At>, b: seq<At>)
    ensures Events(a + b) == Events(a) + Events(b)
  {
  }

  ghost predicate EndEvents(retry: bool, x: seq<Event>) {
    || x == [SetAsRet(0)] || (!retry && x == [SetAsRet(2)])
    || (retry && (x == HALF_PRESS + [SetAsRet(1)] || x == HALF_PRESS + FULL_CLICK + [SetAsRet(0)]
                  || x == HALF_PRESS + FULL_CLICK + [SetAsRet(2)]))
  }

  ghost predicate StartEvents(retry: bool, x: seq<Event>) {
    x == [SetAsRet(1)] || (|x| >= 2 && x[..2] == FULL_CLICK && EndEvents(retry, x[2..]))
  }

  lemma ReportEvents(retry: bool)
    ensures EndEvents(retry, [SetAsRet(0)]) && EndEvents(false, [SetAsRet(2)])
  {
  }

  lemma RetryEvents(x: seq<Event>)
    requires |x| >= 1 && x[0] == KeyPress(KEY_SHOOT_HALF) && StartEvents(false, x[1..])
    ensures EndEvents(true, [InitShooting] + x)
  {
    var y := x[1..];
    assert [InitShooting] + x == HALF_PRESS + y;
    if y != [SetAsRet(1)] {
      assert HALF_PRESS + y == HALF_PRESS + FULL_CLICK + y[2..];
    }
  }

  lemma {:induction false} EndedEvents(envs: seq<Env>, i: nat, retry: bool)
    ensures Ended(envs, i, retry).through ==> EndEvents(retry, Events(Ended(envs, i, retry).log))
    decreases retry, 0
  {
    hide HalfPress, StartEvents, EndEvents;
    ReportEvents(retry);
    var wait := Await(envs, i, (e: Env) => !e.shooting);
    if wait.through && envs[wait.next - 1].progressNone && retry {
      var rest := Rest(envs, wait.next, RETRY_DELAY);
      var again := HalfPress(envs, rest.next, envs[wait.next - 1], false);
      if Ended(envs, i, retry).through {
        HalfPressEvents(envs, rest.next, envs[wait.next - 1], false);
        assert [] + again.log == again.log;
        EventsConcat([At(InitShooting, wait.next - 1)], again.log);
        RetryEvents(Events(again.log));
        assert Ended(envs, i, retry).log == [At(InitShooting, wait.next - 1)] + again.log;
        assert Events([At(InitShooting, wait.next - 1)]) == [InitShooting];
      }
    } else if wait.through {
      var x := Events(Ended(envs, i, retry).log);
      assert x == if envs[wait.next - 1].progressNone then [SetAsRet(2)] else [SetAsRet(0)];
    }
  }

  lemma {:induction false} HalfPressEvents(envs: seq<Env>, i: nat, e: Env, retry: bool)
    ensures var p := HalfPress(envs, i, e, retry);
            p.through ==> |p.log| >= 1 && Events(p.log)[0] == KeyPress(KEY_SHOOT_HALF) && StartEvents(retry, Events(p.log)[1..])
    decreases retry, 3
  {
    hide Started;
    var press := Emit(envs, i, KeyPress(KEY_SHOOT_HALF));
    var rest := Rest(envs, press.next, e.pressDelay);
    StartedEvents(envs, rest.next, e.tick + SHOOT_TIMEOUT, retry);
    var start := Started(envs, rest.next, e.tick + SHOOT_TIMEOUT, retry);
    assert [] + start.log == start.log;
    EventsConcat(press.log, start.log);
    assert HalfPress(envs, i, e, retry).through ==> Events(HalfPress(envs, i, e, retry).log)[1..] == Events(start.log);
  }

  lemma {:induction false} StartedEvents(envs: seq<Env>, i: nat, timeout: int, retry: bool)
    ensures Started(envs, i, timeout, retry).through ==> StartEvents(retry, Events(Started(envs, i, timeout, retry).log))
    decreases retry, 2
  {
    hide FullPress;
    var wait := Await(envs, i, (e: Env) => e.shooting || e.video || e.tick >= timeout);
    if wait.through {
      FullPressEvents(envs, wait.next, envs[wait.next - 1], retry);
    }
  }

  lemma {:induction false} FullPressEvents(envs: seq<Env>, i: nat, e: Env, retry: bool)
    ensures FullPress(envs, i, e, retry).through ==> StartEvents(retry, Events(FullPress(envs, i, e, retry).log))
    decreases retry, 1
  {
    hide Ended;
    var flash := Await(envs, i, (x: Env) => x.flashReady);
    var press := Emit(envs, flash.next, KeyPress(KEY_SHOOT_FULL));
    var held := Rest(envs, press.next, e.pressDelay);
    var release := Emit(envs, held.next, KeyRelease(KEY_SHOOT_FULL));
    var rest := Rest(envs, release.next, e.releaseDelay);
    EndedEvents(envs, rest.next, retry);
    var end := Ended(envs, rest.next, retry);
    if FullPress(envs, i, e, retry).through {
      assert FullPress(envs, i, e, retry).log == press.log + release.log + end.log;
      EventsConcat(press.log + release.log, end.log);
      var x := Events(FullPress(envs, i, e, retry).log);
      assert x[..2] == FULL_CLICK && x[2..] == Events(end.log);
    }
  }

  /** The five ways a shot can end. */
  ghost function ShotLogs(): set<seq<Event>> {
    {
      HALF_PRESS + [SetAsRet(1)],
      HALF_PRESS + FULL_CLICK + [SetAsRet(0)],
      HALF_PRESS + FULL_CLICK + HALF_PRESS + [SetAsRet(1)],
      HALF_PRESS + FULL_CLICK + HALF_PRESS + FULL_CLICK + [SetAsRet(0)],
      HALF_PRESS + FULL_CLICK + HALF_PRESS + FULL_CLICK + [SetAsRet(2)]
    }
  }

  /**
   A finished shot did one of five things: half press timed out; full click and success;
   full click, failure, second half press timed out; or a second full click, with success
   or failure.  So it reports exactly once and clicks at most twice.
   */
  lemma ShotLog(envs: seq<Env>)
    requires Calls(Stack([Shoot], 0), envs).stack.frames == []
    ensures Calls(Stack([Shoot], 0), envs).log in ShotLogs()
  {
    hide Calls, HalfPress, StackRun;
    ShotIs(envs);
    HalfPressEvents(envs, 1, envs[0], true);
    var half := HalfPress(envs, 1, envs[0], true);
    EventsConcat([At(InitShooting, 0)], half.log);
    var x := Events(half.log);
    assert Events(Shot(envs, 0).log) == HALF_PRESS + x[1..];
    WholeShot(x[1..]);
  }

  lemma WholeShot(x: seq<Event>)
    requires StartEvents(true, x)
    ensures HALF_PRESS + x in ShotLogs()
  {
    if x != [SetAsRet(1)] {
      var y := x[2..];
      assert HALF_PRESS + x == HALF_PRESS + FULL_CLICK + y;
      assert y == HALF_PRESS + [SetAsRet(1)] ==> HALF_PRESS + FULL_CLICK + y == HALF_PRESS + FULL_CLICK + HALF_PRESS + [SetAsRet(1)];
      assert forall k :: y == HALF_PRESS + FULL_CLICK + [SetAsRet(k)] ==>
        HALF_PRESS + FULL_CLICK + y == HALF_PRESS + FULL_CLICK + HALF_PRESS + FULL_CLICK + [SetAsRet(k)];
    }
  }

  /** What the answer to an event's call says: a report is true, and a second shot follows a failure. */
  predicate Says(e: Env, first: bool, event: Event) {
    match event
    case SetAsRet(status) =>
      if status == 0 then !e.shooting && !e.progressNone
      else if status == 1 then !e.shooting && !e.video
      else status == 2 && !e.shooting && e.progressNone
    case InitShooting => first || (!e.shooting && e.progressNone)
    case _ => true
  }

  ghost predicate AllSay(envs: seq<Env>, log: seq<At>) {
    forall k :: 0 <= k < |log| ==> log[k].call < |envs| && Says(envs[log[k].call], log[k].call == 0, log[k].event)
  }

  lemma {:induction false} EndedSays(envs: seq<Env>, i: nat, retry: bool)
    ensures AllSay(envs, Ended(envs, i, retry).log)
    decreases retry, 0
  {
    hide HalfPress;
    var wait := Await(envs, i, (e: Env) => !e.shooting);
    if wait.through && retry {
      HalfPressSays(envs, Rest(envs, wait.next, RETRY_DELAY).next, envs[wait.next - 1], false);
    }
  }

  lemma {:induction false} HalfPressSays(envs: seq<Env>, i: nat, e: Env, retry: bool)
    ensures AllSay(envs, HalfPress(envs, i, e, retry).log)
    decreases retry, 3
  {
    hide FullPress, Ended;
    var rest := Rest(envs, Emit(envs, i, KeyPress(KEY_SHOOT_HALF)).next, e.pressDelay);
    var wait := Await(envs, rest.next, (x: Env) => x.shooting || x.video || x.tick >= e.tick + SHOOT_TIMEOUT);
    if wait.through {
      FullPressSays(envs, wait.next, envs[wait.next - 1], retry);
    }
  }

  lemma {:induction false} FullPressSays(envs: seq<Env>, i: nat, e: Env, retry: bool)
    ensures AllSay(envs, FullPress(envs, i, e, retry).log)
    decreases retry, 1
  {
    hide Ended;
    var flash := Await(envs, i, (x: Env) => x.flashReady);
    var press := Emit(envs, flash.next, KeyPress(KEY_SHOOT_FULL));
    var held := Rest(envs, press.next, e.pressDelay);
    var release := Emit(envs, held.next, KeyRelease(KEY_SHOOT_FULL));
    EndedSays(envs, Rest(envs, release.next, e.releaseDelay).next, retry);
  }

  /** In every run of a shot each report is true of the camera's answer at its call, and only a failure is shot again. */
  lemma ShotSays(envs: seq<Env>)
    ensures AllSay(envs, StackRun(Stack([Shoot], 0), envs, 0).log)
  {
    hide HalfPress, StackRun;
    ShotIs(envs);
    if envs != [] {
      HalfPressSays(envs, 1, envs[0], true);
    }
  }

  /** A report of 1 follows a half press, at least five seconds after the answer that began the shot. */
  ghost predicate Late(envs: seq<Env>, log: seq<At>) {
    forall k :: 0 <= k < |log| && log[k].event == SetAsRet(1) ==> k >= 2 && LateHere(envs, log[k - 2], log[k - 1], log[k])
  }

  predicate LateHere(envs: seq<Env>, begin: At, press: At, report: At) {
    && begin.event == InitShooting && press.event == KeyPress(KEY_SHOOT_HALF)
    && begin.call < press.call < report.call < |envs|
    && envs[report.call].tick >= envs[begin.call].tick + 5000
  }

  lemma LateConcat(envs: seq<Env>, a: seq<At>, b: seq<At>)
    requires Late(envs, a) && Late(envs, b)
    ensures Late(envs, a + b)
  {
    hide LateHere;
    var c := a + b;
    forall k | 0 <= k < |c| && c[k].event == SetAsRet(1) ensures k >= 2 && LateHere(envs, c[k - 2], c[k - 1], c[k]) {
      if k >= |a| {
        assert c[k] == b[k - |a|] && c[k - 2] == b[k - |a| - 2] && c[k - 1] == b[k - |a| - 1];
      }
    }
  }

  lemma {:induction false} EndedLate(envs: seq<Env>, i: nat, retry: bool)
    ensures Late(envs, Ended(envs, i, retry).log)
    decreases retry, 0
  {
    hide HalfPress, Late;
    var wait := Await(envs, i, (e: Env) => !e.shooting);
    var p := Ended(envs, i, retry);
    if wait.through && envs[wait.next - 1].progressNone && retry {
      var rest := Rest(envs, wait.next, RETRY_DELAY);
      HalfPressLate(envs, wait.next - 1, rest.next, false);
      var begin := [At(InitShooting, wait.next - 1)];
      NoneLate(envs, begin);
      assert rest.through ==> p.log == begin + HalfPress(envs, rest.next, envs[wait.next - 1], false).log;
      assert !rest.through ==> p.log == begin;
    } else {
      NoneLate(envs, p.log);
    }
  }

  lemma NoneLate(envs: seq<Env>, log: seq<At>)
    requires SetAsRet(1) !in Events(log)
    ensures Late(envs, log)
  {
    hide LateHere;
    forall k | 0 <= k < |log| ensures log[k].event != SetAsRet(1) {
      assert Events(log)[k] in Events(log);
    }
  }

  /** The half press of the shot that began at call c. */
  lemma {:induction false} HalfPressLate(envs: seq<Env>, c: nat, i: nat, retry: bool)
    requires c < |envs| && c < i
    ensures Late(envs, [At(InitShooting, c)] + HalfPress(envs, i, envs[c], retry).log)
    decreases retry, 3
  {
    hide FullPress, Late;
    var timeout := envs[c].tick + SHOOT_TIMEOUT;
    var press := Emit(envs, i, KeyPress(KEY_SHOOT_HALF));
    var rest := Rest(envs, press.next, envs[c].pressDelay);
    var wait := Await(envs, rest.next, (x: Env) => x.shooting || x.video || x.tick >= timeout);
    var start := Started(envs, rest.next, timeout, retry);
    var (all, begin) := ([At(InitShooting, c)] + HalfPress(envs, i, envs[c], retry).log, [At(InitShooting, c)] + press.log);
    assert all == begin + if press.through && rest.through then start.log else [];
    NoneLate(envs, begin);
    if press.through && rest.through && wait.through {
      var e := envs[wait.next - 1];
      if e.shooting || e.video {
        FullPressLate(envs, wait.next, e, retry);
        LateConcat(envs, begin, start.log);
      } else {
        OneReport(envs, At(InitShooting, c), press.log[0], At(SetAsRet(1), wait.next - 1));
        assert all == [At(InitShooting, c), press.log[0], At(SetAsRet(1), wait.next - 1)];
      }
    } else {
      assert all == begin;
    }
  }

  lemma OneReport(envs: seq<Env>, begin: At, press: At, report: At)
    requires LateHere(envs, begin, press, report)
    ensures Late(envs, [begin, press, report])
  {
  }

  lemma {:induction false} FullPressLate(envs: seq<Env>, i: nat, e: Env, retry: bool)
    ensures Late(envs, FullPress(envs, i, e, retry).log)
    decreases retry, 1
  {
    hide Ended, Late;
    var flash := Await(envs, i, (x: Env) => x.flashReady);
    var press := Emit(envs, flash.next, KeyPress(KEY_SHOOT_FULL));
    var held := Rest(envs, press.next, e.pressDelay);
    var release := Emit(envs, held.next, KeyRelease(KEY_SHOOT_FULL));
    var rest := Rest(envs, release.next, e.releaseDelay);
    var p := FullPress(envs, i, e, retry);
    EndedLate(envs, rest.next, retry);
    if p.log != [] {
      var click := if press.through && held.through then press.log + release.log else press.log;
      NoneLate(envs, click);
      var end := if press.through && held.through && release.through && rest.through then Ended(envs, rest.next, retry).log else [];
      NoneLate(envs, []);
      LateConcat(envs, click, end);
      assert p.log == click + end;
    } else {
      NoneLate(envs, p.log);
    }
  }

  /** A shot is reported as timed out only after its time. */
  lemma ShotLate(envs: seq<Env>)
    ensures Late(envs, StackRun(Stack([Shoot], 0), envs, 0).log)
  {
    hide HalfPress, StackRun, Late;
    ShotIs(envs);
    if envs != [] {
      HalfPressLate(envs, 0, 1, true);
    } else {
      NoneLate(envs, []);
    }
  }
}
