/**
 One action stack (core/action_stack.c): the words on its fixed array, the functions
 that push and pop them, and the step functions that run from its top.
 */
module ActionStackObject {
  import opened ActionSpec

  /** What the step functions call: the camera and the script interface. */
  class Camera {
    /** The camera's answers to the calls, in order. */
    const answers: nat -> Env
    var calls: nat
    var log: seq<Event>

    constructor (answers: nat -> Env)
      ensures this.answers == answers && calls == 0 && log == []
    {
      this.answers := answers;
      calls, log := 0, [];
    }

    method Emit(e: Event)
      modifies `log
      ensures log == old(log) + [e]
    {
      log := log + [e];
    }
  }

  class ActionStack {
    const stack: array<Word>
    var stackPtr: int
    var compId: nat
    var delayTarget: int
    var next: ActionStack?

    /** The frames that the words spell. */
    ghost var frames: seq<Frame>

    /** The words on the stack, top last. */
    ghost function Contents(): seq<Word>
      requires -1 <= stackPtr < stack.Length
      reads this, stack
    {
      stack[..stackPtr + 1]
    }

    ghost predicate InRange()
      reads `stackPtr
    {
      stack.Length == ACTION_STACK_SIZE && -1 <= stackPtr < stack.Length
    }

    ghost function State(): Stack
      reads this
    {
      Stack(frames, delayTarget)
    }

    ghost predicate Valid()
      reads this, stack
    {
      && InRange()
      && Contents() == AllWords(frames)
      && Peak(frames) <= ACTION_STACK_SIZE
    }

    /** A new, cleared memory block. */
    constructor ()
      ensures fresh(stack) && InRange() && stackPtr == 0
    {
      stack := new Word[ACTION_STACK_SIZE](_ => Num(0));
      stackPtr, compId, delayTarget, next := 0, 0, 0, null;
      frames := [];
    }

    // ---- words ----------------------------------------------------------------------

    method Top(n: nat) returns (w: Word)
      requires InRange() && n <= stackPtr
      ensures w == Contents()[|Contents()| - 1 - n]
    {
      w := stack[stackPtr - n];
    }

    method Pop() returns (w: Word)
      requires InRange() && 0 <= stackPtr
      modifies `stackPtr
      ensures InRange() && Contents() == old(Contents())[..|old(Contents())| - 1]
      ensures w == old(Contents())[|old(Contents())| - 1]
    {
      w := stack[stackPtr];
      stackPtr := stackPtr - 1;
    }

    /** Pop a function with n parameters; the result is the last word popped. */
    method PopFunc(n: nat) returns (w: Word)
      requires InRange() && n + 1 <= stackPtr
      modifies `stackPtr
      ensures InRange() && Contents() == old(Contents())[..|old(Contents())| - (n + 2)]
      ensures w == old(Contents())[|old(Contents())| - (n + 2)]
    {
      var k := n;
      while k >= 0
        invariant -1 <= k <= n && InRange() && stackPtr == old(stackPtr) - (n - k)
      {
        w := Pop();
        k := k - 1;
      }
      w := Pop();
    }

    method Push(w: Word)
      requires InRange() && |Contents()| < ACTION_STACK_SIZE
      modifies `stackPtr, stack
      ensures InRange() && Contents() == old(Contents()) + [w]
    {
      stackPtr := stackPtr + 1;
      stack[stackPtr] := w;
    }

    method PushFunc(f: Action)
      requires InRange() && |Contents()| + 2 <= ACTION_STACK_SIZE
      modifies `stackPtr, stack
      ensures InRange() && Contents() == old(Contents()) + [Fun(f), FuncEntry]
    {
      Push(Fun(f));
      Push(FuncEntry);
    }
 
    // ---- frames ---------------------------------------------------------------------

    method PushDelay(ms: int)
      requires InRange() && |Contents()| + 3 <= ACTION_STACK_SIZE
      modifies `stackPtr, stack
      ensures InRange() && Contents() == old(Contents()) + Sleep(ms).Words()
    {
      Push(Num(ms));
      PushFunc(AsSleep);
    }

    method PushPress(key: int, env: Env)
      requires InRange() && |Contents()| + 6 <= ACTION_STACK_SIZE
      modifies `stackPtr, stack
      ensures InRange() && Contents() == old(Contents()) + Sleep(env.pressDelay).Words() + Press(key).Words()
    {
      PushDelay(env.pressDelay);
      Push(Num(key));
      PushFunc(AsPress);
    }

    method PushRelease(key: int, env: Env)
      requires InRange() && |Contents()| + 6 <= ACTION_STACK_SIZE
      modifies `stackPtr, stack
      ensures InRange() && Contents() == old(Contents()) + Sleep(env.releaseDelay).Words() + Release(key).Words()
    {
      PushDelay(env.releaseDelay);
      Push(Num(key));
      PushFunc(AsRelease);
    }

    method PushClick(key: int, env: Env)
      requires InRange() && |Contents()| + 12 <= ACTION_STACK_SIZE
      modifies `stackPtr, stack
      ensures InRange()
      ensures Contents() == old(Contents()) + (Sleep(env.releaseDelay).Words() + Release(key).Words()
                                               + (Sleep(env.pressDelay).Words() + Press(key).Words()))
    {
      PushRelease(key, env);
      PushPress(key, env);
    }

    method PushInProgress(timeout: int, retry: int)
      requires InRange() && |Contents()| + 4 <= ACTION_STACK_SIZE
      modifies `stackPtr, stack
      ensures InRange() && Contents() == old(Contents()) + WaitShootingInProgress(timeout, retry).Words()
    {
      Push(Num(retry));
      Push(Num(timeout));
      PushFunc(AsWaitShootingInProgress);
    }

    method PushShoot(retry: int, env: Env, cam: Camera)
      requires InRange() && |Contents()| + 10 <= ACTION_STACK_SIZE
      modifies `stackPtr, stack, cam`log
      ensures InRange() && cam.log == old(cam.log) + [InitShooting]
      ensures Contents() == old(Contents()) + AllWords(ShootFrames(retry, env)) && |AllWords(ShootFrames(retry, env))| == 10
    {
      hide AllWords;
      ShootWords(retry, env);
      cam.Emit(InitShooting);
      PushInProgress(env.tick + SHOOT_TIMEOUT, retry);
      PushPress(KEY_SHOOT_HALF, env);
    }

    method PushWaitDone(retry: int)
      requires InRange() && |Contents()| + 3 <= ACTION_STACK_SIZE
      modifies `stackPtr, stack
      ensures InRange() && Contents() == old(Contents()) + WaitShootingDone(retry).Words()
    {
      Push(Num(retry));
      PushFunc(AsWaitShootingDone);
    }

    /** The rest of the shoot actions: wait for the flash, click full press, wait for the shot. */
    method PushFullPress(retry: Word, env: Env)
      requires InRange() && |Contents()| + 17 <= ACTION_STACK_SIZE && retry.Num?
      modifies `stackPtr, stack
      ensures InRange()
      ensures Contents() == old(Contents()) + AllWords(FullPressFrames(retry.n, env))
    {
      hide AllWords, FullPressFrames;
      FullPressWords(retry.n, env);
      PushWaitDone(retry.n);
      PushClick(KEY_SHOOT_FULL, env);
      PushFunc(AsWaitFlash);
    }

    // ---- step functions ---------------------------------------------------------------

    ghost function TopFrame(): Frame
      requires frames != []
      reads this
    {
      frames[|frames| - 1]
    }

    /** The words under the top frame. */
    ghost function Below(): seq<Word>
      requires frames != []
      reads this
    {
      AllWords(frames[..|frames| - 1])
    }

    /** What the top frame looks like on the stack, and the room and words after a call. */
    lemma Layout(env: Env)
      requires Valid() && frames != []
      ensures Contents() == Below() + TopFrame().Words()
      ensures var (o, e) := (FrameStep(State(), env), Call(TopFrame(), delayTarget, env));
              && Peak(o.stack.frames) <= ACTION_STACK_SIZE
              && (o.process && !Kills(TopFrame(), env) ==> AllWords(o.stack.frames) == Below() + AllWords(e.pushed))
              && |AllWords(o.stack.frames)| <= ACTION_STACK_SIZE
    {
      hide Call, Peak, Kills;
      StepMeasures(State(), env);
      PeakIsEnough(FrameStep(State(), env).stack.frames);
      if FrameStep(State(), env).process && !Kills(TopFrame(), env) {
        StepWords(State(), env);
      }
    }

    /** The call computed FrameStep. */
    twostate predicate Computes(env: Env, process: bool, cam: Camera)
      requires old(frames) != []
      reads this, cam
    {
      var o := FrameStep(old(State()), env);
      State() == o.stack && process == o.process && cam.log == old(cam.log) + o.events
    }

    method ProcessDelay(delay: int, env: Env) returns (expired: bool)
      modifies `delayTarget
      ensures old(delayTarget) == 0 ==> !expired && delayTarget == env.tick + if delay == -1 then ONE_DAY else delay
      ensures old(delayTarget) != 0 ==> delayTarget == old(delayTarget) && (expired <==> delayTarget <= env.tick)
    {
      var t := env.tick;
      if delayTarget == 0 {
        var d := delay;
        if delay == -1 {
          d := ONE_DAY;
        }
        delayTarget := t + d;
        return false;
      }
      return delayTarget <= t;
    }

    method PopDelay()
      requires InRange() && 2 <= stackPtr
      modifies `stackPtr, `delayTarget
      ensures InRange() && delayTarget == 0 && Contents() == old(Contents())[..|old(Contents())| - 3]
    {
      delayTarget := 0;
      var w := PopFunc(1);
    }

    method CallSleep(env: Env, cam: Camera) returns (process: bool)
      requires Valid() && frames != [] && TopFrame().Sleep?
      modifies `stackPtr, `delayTarget, `frames
      ensures Valid() && Computes(env, process, cam)
    {
      hide AllWords, Peak;
      Layout(env);
      Nothing();
      ghost var (words, below) := (Contents(), Below());
      assert words == below + [Num(TopFrame().ms), Fun(AsSleep), FuncEntry];
      var w := Top(2);
      var expired := ProcessDelay(w.n, env);
      if expired {
        PopDelay();
        assert Contents() == below;
        process := true;
      } else {
        process := false;
      }
      frames := FrameStep(old(State()), env).stack.frames;
    }

    method CallPress(env: Env, cam: Camera) returns (process: bool)
      requires Valid() && frames != [] && TopFrame().Press?
      modifies `stackPtr, `frames, cam`log
      ensures Valid() && Computes(env, process, cam)
    {
      hide AllWords, Peak;
      Layout(env);
      Nothing();
      var w := PopFunc(1);
      cam.Emit(KeyPress(w.n));
      frames := FrameStep(old(State()), env).stack.frames;
      return true;
    }

    method CallRelease(env: Env, cam: Camera) returns (process: bool)
      requires Valid() && frames != [] && TopFrame().Release?
      modifies `stackPtr, `frames, cam`log
      ensures Valid() && Computes(env, process, cam)
    {
      hide AllWords, Peak;
      Layout(env);
      Nothing();
      var w := PopFunc(1);
      cam.Emit(KeyRelease(w.n));
      frames := FrameStep(old(State()), env).stack.frames;
      return true;
    }

    /** The shot is over: report, retry or wait, depending on how it went. */
    method AfterShot(retry: int, env: Env, cam: Camera)
      requires InRange() && !env.shooting
      requires |Contents()| + |AllWords(Call(WaitShootingDone(retry), 0, env).pushed)| <= ACTION_STACK_SIZE
      modifies `stackPtr, stack, cam`log
      ensures InRange()
      ensures Contents() == old(Contents()) + AllWords(Call(WaitShootingDone(retry), 0, env).pushed)
      ensures cam.log == old(cam.log) + Call(WaitShootingDone(retry), 0, env).events
    {
      hide AllWords;
      if env.progressNone {
        if retry != 0 {
          RetryWords(env);
          ShootLength(0, env);
          PushShoot(0, env, cam);
          PushDelay(RETRY_DELAY);
        } else {
          Nothing();
          cam.Emit(SetAsRet(2));
        }
      } else {
        cam.Emit(SetAsRet(0));
        if env.shootDelay > 0 {
          One(Sleep(env.shootDelay * 100));
          PushDelay(env.shootDelay * 100);
        } else {
          Nothing();
        }
      }
    }

    method CallWaitShootingDone(env: Env, cam: Camera) returns (process: bool)
      requires Valid() && frames != [] && TopFrame().WaitShootingDone?
      modifies `stackPtr, `frames, stack, cam`log
      ensures Valid() && Computes(env, process, cam)
    {
      hide AllWords, Peak, Call, FrameStep;
      Layout(env);
      DoneStep(State(), env);
      if !env.shooting {
        ghost var o := FrameStep(State(), env);
        var retry := PopFunc(1);
        AfterShot(retry.n, env, cam);
        frames := o.stack.frames;
        return true;
      }
      return false;
    }

    method CallWaitFlash(env: Env, cam: Camera) returns (process: bool)
      requires Valid() && frames != [] && TopFrame().WaitFlash?
      modifies `stackPtr, `frames
      ensures Valid() && Computes(env, process, cam)
    {
      hide AllWords, Peak;
      Layout(env);
      Nothing();
      if env.flashReady {
        var w := PopFunc(0);
        frames := FrameStep(old(State()), env).stack.frames;
        return true;
      }
      return false;
    }

    /** The shot has begun: on to the full press. */
    method GoOn(retry: Word, env: Env, cam: Camera)
      requires Valid() && frames != [] && TopFrame().WaitShootingInProgress? && (env.shooting || env.video)
      requires retry == Num(TopFrame().retry)
      modifies `stackPtr, `frames, stack
      ensures Valid() && Computes(env, true, cam)
    {
      hide AllWords, Peak, FrameStep, Call, FullPressFrames;
      Layout(env);
      InProgressStep(State(), env);
      FullPressLength(retry.n, env);
      ghost var (words, below, o) := (Contents(), Below(), FrameStep(State(), env));
      var w := PopFunc(2);
      assert Contents() == below;
      PushFullPress(retry, env);
      frames := o.stack.frames;
    }

    /** The half press has timed out. */
    method GiveUp(env: Env, cam: Camera)
      requires Valid() && frames != [] && TopFrame().WaitShootingInProgress? && !env.shooting && !env.video
      requires env.tick >= TopFrame().timeout
      modifies `stackPtr, `frames, cam`log
      ensures Valid() && Computes(env, true, cam)
    {
      hide AllWords, Peak, FrameStep, Call;
      Layout(env);
      InProgressStep(State(), env);
      Nothing();
      ghost var (words, below, o) := (Contents(), Below(), FrameStep(State(), env));
      var w := PopFunc(2);
      assert Contents() == below;
      cam.Emit(SetAsRet(1));
      frames := o.stack.frames;
    }

    method CallWaitShootingInProgress(env: Env, cam: Camera) returns (process: bool)
      requires Valid() && frames != [] && TopFrame().WaitShootingInProgress?
      modifies `stackPtr, `frames, stack, cam`log
      ensures Valid() && Computes(env, process, cam)
    {
      hide AllWords, Peak, FrameStep, Call, FullPressFrames;
      Layout(env);
      InProgressStep(State(), env);
      var timeout := Top(2);
      var retry := Top(3);
      if env.shooting || env.video {
        GoOn(retry, env, cam);
        return true;
      }
      if env.tick >= timeout.n {
        GiveUp(env, cam);
        return true;
      }
      return false;
    }

    method CallShoot(env: Env, cam: Camera) returns (process: bool)
      requires Valid() && frames != [] && TopFrame().Shoot?
      modifies `stackPtr, `frames, stack, cam`log
      ensures Valid() && Computes(env, process, cam)
    {
      hide AllWords, Peak;
      Layout(env);
      ShootLength(1, env);
      var w := PopFunc(0);
      PushShoot(1, env, cam);
      frames := FrameStep(old(State()), env).stack.frames;
      return true;
    }
 
    /** The script has been switched off: its frame goes. */
    method LeaveScript(env: Env, cam: Camera)
      requires Valid() && frames != [] && TopFrame().ScriptRun? && !env.scriptOn
      modifies `stackPtr, `frames
      ensures Valid() && Computes(env, true, cam)
    {
      hide AllWords, Peak;
      Layout(env);
      Nothing();
      var w := PopFunc(0);
      frames := FrameStep(old(State()), env).stack.frames;
    }

    // ---- execution --------------------------------------------------------------------

    /** Call the function on top, one of those that know their own stack only. */
    method CallTop(f: Action, env: Env, cam: Camera) returns (process: bool)
      requires Valid() && frames != [] && !f.AsScriptRun?
      requires Fun(f) == TopFrame().Words()[|TopFrame().Words()| - 2]
      modifies `stackPtr, `delayTarget, `frames, stack, cam`log
      ensures Valid() && Computes(env, process, cam)
    {
      hide FrameStep, Peak, AllWords;
      match f
      case AsSleep => process := CallSleep(env, cam);
      case AsPress => process := CallPress(env, cam);
      case AsRelease => process := CallRelease(env, cam);
      case AsWaitShootingDone => process := CallWaitShootingDone(env, cam);
      case AsWaitFlash => process := CallWaitFlash(env, cam);
      case AsWaitShootingInProgress => process := CallWaitShootingInProgress(env, cam);
      case AsShoot => process := CallShoot(env, cam);
    }

    /** The stack is empty exactly when it has no frame, and otherwise a function is on top. */
    lemma FunctionOnTop()
      requires Valid()
      ensures stackPtr < 0 <==> frames == []
      ensures frames != [] ==>
                && Contents()[|Contents()| - 1] == FuncEntry && 1 <= stackPtr
                && Contents()[|Contents()| - 2] == TopFrame().Words()[|TopFrame().Words()| - 2]
                && Contents()[|Contents()| - 2].Fun?
                && (Contents()[|Contents()| - 2].f.AsScriptRun? <==> TopFrame().ScriptRun?)
    {
    }
  }
}
