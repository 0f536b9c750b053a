/**
 The action stack's programs as values: a stack is a sequence of frames, and one call
 of the topmost step function replaces the last frame by the frames it pushes.
 ActionStack.dfy and ActionStacks.dfy prove that the words on the real stacks always spell
 such frames and that the step functions compute FrameStep.
 */
module ActionSpec {
  /** The step functions of core/action_stack.c, and the one that runs a script (core/script.c). */
  datatype Action =
    | AsSleep | AsPress | AsRelease | AsWaitShootingDone | AsWaitFlash | AsWaitShootingInProgress | AsShoot | AsScriptRun

  /** A word of the stack: a parameter, a function pointer or the function marker. */
  datatype Word = Num(n: int) | Fun(f: Action) | FuncEntry

  /** A function with its parameters, as they lie on the stack. */
  datatype Frame =
    | Sleep(ms: int)
    | Press(key: int)
    | Release(key: int)
    | WaitShootingDone(retry: int)
    | WaitFlash
    | WaitShootingInProgress(timeout: int, retry: int)
    | Shoot
    | ScriptRun
  {
    function Words(): seq<Word> {
      match this
      case Sleep(ms) => [Num(ms), Fun(AsSleep), FuncEntry]
      case Press(key) => [Num(key), Fun(AsPress), FuncEntry]
      case Release(key) => [Num(key), Fun(AsRelease), FuncEntry]
      case WaitShootingDone(retry) => [Num(retry), Fun(AsWaitShootingDone), FuncEntry]
      case WaitFlash => [Fun(AsWaitFlash), FuncEntry]
      case WaitShootingInProgress(timeout, retry) => [Num(retry), Num(timeout), Fun(AsWaitShootingInProgress), FuncEntry]
      case Shoot => [Fun(AsShoot), FuncEntry]
      case ScriptRun => [Fun(AsScriptRun), FuncEntry]
    }
  }

  const KEY_SHOOT_HALF := 6
  const KEY_SHOOT_FULL := 7
  const ACTION_STACK_SIZE: nat := 48
  const SHOOT_TIMEOUT := 5000
  const RETRY_DELAY := 250
  const ONE_DAY := 86400000

  /** What the stack programs do to the camera and to the script. */
  datatype Event = KeyPress(key: int) | KeyRelease(key: int) | SetAsRet(status: int) | InitShooting | ScriptEnd

  /** What the camera answers during one call of a step function. */
  datatype Env = Env(
    tick: int,
    shooting: bool,         // shooting_in_progress()
    video: bool,            // mode_video
    progressNone: bool,     // state_shooting_progress == SHOOTING_PROGRESS_NONE
    flashReady: bool,
    shootDelay: int,        // conf.script_shoot_delay
    pressDelay: int,
    releaseDelay: int,
    scriptOn: bool,         // state_kbd_script_run
    scriptRunning: bool     // script_run() == SCRIPT_RUN_RUNNING
  )

  /** The frames, top last, and the tick at which the sleep on top ends (0 when unset). */
  datatype Stack = Stack(frames: seq<Frame>, delay: int)

  /** The outcome of one call; process is the function's return value. */
  datatype Outcome = Outcome(stack: Stack, events: seq<Event>, process: bool)

  function PressFrames(key: int, env: Env): seq<Frame> {
    [Sleep(env.pressDelay), Press(key)]
  }

  function ReleaseFrames(key: int, env: Env): seq<Frame> {
    [Sleep(env.releaseDelay), Release(key)]
  }

  function ShootFrames(retry: int, env: Env): seq<Frame> {
    [WaitShootingInProgress(env.tick + SHOOT_TIMEOUT, retry)] + PressFrames(KEY_SHOOT_HALF, env)
  }

  function FullPressFrames(retry: int, env: Env): seq<Frame> {
    [WaitShootingDone(retry)] + ReleaseFrames(KEY_SHOOT_FULL, env) + PressFrames(KEY_SHOOT_FULL, env) + [WaitFlash]
  }

  /** What a call of a step function does to its frame: replaced by pushed if process, else kept. */
  datatype Effect = Effect(process: bool, pushed: seq<Frame>, delay: int, events: seq<Event>)

  function Call(top: Frame, delay: int, env: Env): Effect {
    var stay := Effect(false, [], delay, []);
    match top
    case Sleep(ms) =>
      if delay == 0 then stay.(delay := env.tick + if ms == -1 then ONE_DAY else ms)
      else if delay <= env.tick then Effect(true, [], 0, [])
      else stay
    case Press(key) => Effect(true, [], delay, [KeyPress(key)])
    case Release(key) => Effect(true, [], delay, [KeyRelease(key)])
    case WaitFlash => if env.flashReady then Effect(true, [], delay, []) else stay
    case WaitShootingInProgress(timeout, retry) =>
      if env.shooting || env.video then Effect(true, FullPressFrames(retry, env), delay, [])
      else if env.tick >= timeout then Effect(true, [], delay, [SetAsRet(1)])
      else stay
    case WaitShootingDone(retry) =>
      if env.shooting then stay
      else if !env.progressNone then
        Effect(true, if env.shootDelay > 0 then [Sleep(env.shootDelay * 100)] else [], delay, [SetAsRet(0)])
      else if retry != 0 then Effect(true, ShootFrames(0, env) + [Sleep(RETRY_DELAY)], delay, [InitShooting])
      else Effect(true, [], delay, [SetAsRet(2)])
    case Shoot => Effect(true, ShootFrames(1, env), delay, [InitShooting])
    case ScriptRun =>
      if !env.scriptOn then Effect(true, [], delay, [])
      else if !env.scriptRunning then Effect(true, [], delay, [ScriptEnd])
      else stay
  }

  /** The call ends its own stack, with all the frames under its own. */
  predicate Kills(top: Frame, env: Env) {
    top.ScriptRun? && env.scriptOn && !env.scriptRunning
  }

  /** One call of the function on top. */
  function FrameStep(s: Stack, env: Env): Outcome
    requires s.frames != []
  {
    var top := s.frames[|s.frames| - 1];
    var e := Call(top, s.delay, env);
    if Kills(top, env) then Outcome(Stack([], e.delay), e.events, true)
    else if e.process then Outcome(Stack(s.frames[..|s.frames| - 1] + e.pushed, e.delay), e.events, true)
    else Outcome(s.(delay := e.delay), [], false)
  }

  /** A wait for the shot to begin: go on to the full press, give up, or wait. */
  lemma InProgressStep(s: Stack, env: Env)
    requires s.frames != [] && s.frames[|s.frames| - 1].WaitShootingInProgress?
    ensures var (top, below) := (s.frames[|s.frames| - 1], s.frames[..|s.frames| - 1]);
            && !Kills(top, env)
            && (var e := Call(top, s.delay, env);
                if env.shooting || env.video then e == Effect(true, FullPressFrames(top.retry, env), s.delay, [])
                else if env.tick >= top.timeout then e == Effect(true, [], s.delay, [SetAsRet(1)])
                else !e.process)
            && FrameStep(s, env) ==
                 if env.shooting || env.video then
                   Outcome(Stack(below + FullPressFrames(top.retry, env), s.delay), [], true)
                 else if env.tick >= top.timeout then Outcome(Stack(below + [], s.delay), [SetAsRet(1)], true)
                 else Outcome(s, [], false)
  {
    hide FullPressFrames;
  }

  /** The end of a shot: wait for it, or do what it comes to. */
  lemma DoneStep(s: Stack, env: Env)
    requires s.frames != [] && s.frames[|s.frames| - 1].WaitShootingDone?
    ensures var (top, below) := (s.frames[|s.frames| - 1], s.frames[..|s.frames| - 1]);
            var e := Call(top, 0, env);
            && !Kills(top, env) && Call(top, s.delay, env).pushed == e.pushed
            && FrameStep(s, env) ==
                 if env.shooting then Outcome(s, [], false) else Outcome(Stack(below + e.pushed, s.delay), e.events, true)
  {
    hide ShootFrames;
  }

  // ---- how long a stack can run --------------------------------------------------------------

  /** The calls returning 1 that a frame, and all it pushes, can still take. */
  ghost function Weight(f: Frame): nat {
    match f
    case Sleep(_) => 1
    case Press(_) => 1
    case Release(_) => 1
    case WaitFlash => 1
    case WaitShootingDone(retry) => if retry != 0 then 12 else 2
    case WaitShootingInProgress(_, retry) => if retry != 0 then 18 else 8
    case Shoot => 21
    case ScriptRun => 1
  }

  ghost function TotalWeight(fs: seq<Frame>): nat {
    if fs == [] then 0 else TotalWeight(fs[..|fs| - 1]) + Weight(fs[|fs| - 1])
  }

  /** The words a frame, and all it pushes, can take up. */
  ghost function Room(f: Frame): nat {
    match f
    case WaitShootingDone(retry) => if retry != 0 then 17 else 3
    case WaitShootingInProgress(_, _) => 17
    case Shoot => 17
    case _ => |f.Words()|
  }

  ghost function AllWords(fs: seq<Frame>): seq<Word> {
    if fs == [] then [] else AllWords(fs[..|fs| - 1]) + fs[|fs| - 1].Words()
  }

  ghost function Max(a: nat, b: nat): nat {
    if a < b then b else a
  }

  /** The words a stack can come to hold. */
  ghost function Peak(fs: seq<Frame>): nat {
    if fs == [] then 0 else Max(Peak(fs[..|fs| - 1]), |AllWords(fs[..|fs| - 1])| + Room(fs[|fs| - 1]))
  }

  lemma {:induction false} WeightConcat(a: seq<Frame>, b: seq<Frame>)
    ensures TotalWeight(a + b) == TotalWeight(a) + TotalWeight(b)
  {
    if b == [] {
      assert a + b == a;
    } else {
      assert (a + b)[..|a + b| - 1] == a + b[..|b| - 1];
      WeightConcat(a, b[..|b| - 1]);
    }
  }

  lemma {:induction false} WordsConcat(a: seq<Frame>, b: seq<Frame>)
    ensures AllWords(a + b) == AllWords(a) + AllWords(b)
  {
    hide Frame.Words;
    if b == [] {
      assert a + b == a;
    } else {
      var (below, w) := (b[..|b| - 1], b[|b| - 1].Words());
      assert (a + b)[..|a + b| - 1] == a + below;
      WordsConcat(a, below);
      assert AllWords(a) + (AllWords(below) + w) == AllWords(a) + AllWords(below) + w;
    }
  }

  lemma {:induction false} PeakConcat(a: seq<Frame>, b: seq<Frame>)
    ensures Peak(a + b) == Max(Peak(a), |AllWords(a)| + Peak(b))
  {
    hide AllWords;
    if b == [] {
      assert a + b == a;
      PeakIsEnough(a);
    } else {
      assert (a + b)[..|a + b| - 1] == a + b[..|b| - 1];
      PeakConcat(a, b[..|b| - 1]);
      WordsConcat(a, b[..|b| - 1]);
    }
  }

  lemma Concat(a: seq<Frame>, b: seq<Frame>)
    ensures TotalWeight(a + b) == TotalWeight(a) + TotalWeight(b)
    ensures AllWords(a + b) == AllWords(a) + AllWords(b)
    ensures Peak(a + b) == Max(Peak(a), |AllWords(a)| + Peak(b))
  {
    hide *;
    WeightConcat(a, b);
    WordsConcat(a, b);
    PeakConcat(a, b);
  }

  lemma One(f: Frame)
    ensures TotalWeight([f]) == Weight(f) && AllWords([f]) == f.Words() && Peak([f]) == Room(f)
  {
    assert [f][..0] == [];
  }

  lemma {:induction false} PeakIsEnough(fs: seq<Frame>)
    ensures |AllWords(fs)| <= Peak(fs)
  {
    if fs != [] {
      PeakIsEnough(fs[..|fs| - 1]);
    }
  }

  lemma PressMeasures(key: int, env: Env)
    ensures TotalWeight(PressFrames(key, env)) == 2 && |AllWords(PressFrames(key, env))| == Peak(PressFrames(key, env)) == 6
    ensures TotalWeight(ReleaseFrames(key, env)) == 2 && |AllWords(ReleaseFrames(key, env))| == Peak(ReleaseFrames(key, env)) == 6
  {
    hide TotalWeight, AllWords, Peak;
    One(Sleep(env.pressDelay));
    One(Press(key));
    One(Sleep(env.releaseDelay));
    One(Release(key));
    Concat([Sleep(env.pressDelay)], [Press(key)]);
    Concat([Sleep(env.releaseDelay)], [Release(key)]);
    assert PressFrames(key, env) == [Sleep(env.pressDelay)] + [Press(key)];
    assert ReleaseFrames(key, env) == [Sleep(env.releaseDelay)] + [Release(key)];
  }

  lemma ShootMeasures(retry: int, env: Env)
    ensures TotalWeight(ShootFrames(retry, env)) == if retry != 0 then 20 else 10
    ensures |AllWords(ShootFrames(retry, env))| == 10 && Peak(ShootFrames(retry, env)) == 17
  {
    hide TotalWeight, AllWords, Peak;
    var w := WaitShootingInProgress(env.tick + SHOOT_TIMEOUT, retry);
    One(w);
    PressMeasures(KEY_SHOOT_HALF, env);
    Concat([w], PressFrames(KEY_SHOOT_HALF, env));
  }

  lemma FullPressMeasures(retry: int, env: Env)
    ensures TotalWeight(FullPressFrames(retry, env)) == if retry != 0 then 17 else 7
    ensures Peak(FullPressFrames(retry, env)) == 17
  {
    hide TotalWeight, AllWords, Peak;
    var (w, r, p) := ([WaitShootingDone(retry)], ReleaseFrames(KEY_SHOOT_FULL, env), PressFrames(KEY_SHOOT_FULL, env));
    One(WaitShootingDone(retry));
    PressMeasures(KEY_SHOOT_FULL, env);
    One(WaitFlash);
    Concat(w, r);
    Concat(w + r, p);
    Concat(w + r + p, [WaitFlash]);
  }

  /** The frames that replace a frame weigh less and need no more room. */
  lemma CallMeasures(top: Frame, delay: int, env: Env)
    requires Call(top, delay, env).process
    ensures TotalWeight(Call(top, delay, env).pushed) < Weight(top)
    ensures Peak(Call(top, delay, env).pushed) <= Room(top)
  {
    hide TotalWeight, AllWords, Peak;
    assert TotalWeight([]) == 0 && Peak([]) == 0 by { Nothing(); }
    match top
    case Sleep(_) =>
    case Press(_) =>
    case Release(_) =>
    case WaitFlash =>
    case WaitShootingInProgress(_, retry) => FullPressMeasures(retry, env);
    case WaitShootingDone(retry) =>
      ShootMeasures(0, env);
      One(Sleep(RETRY_DELAY));
      One(Sleep(env.shootDelay * 100));
      Concat(ShootFrames(0, env), [Sleep(RETRY_DELAY)]);
    case Shoot => ShootMeasures(1, env);
    case ScriptRun =>
  }

  lemma Nothing()
    ensures TotalWeight([]) == 0 && Peak([]) == 0 && AllWords([]) == []
  {
  }

  lemma WeighsSomething(f: Frame)
    ensures Weight(f) > 0
  {
  }

  lemma KillsProcess(top: Frame, delay: int, env: Env)
    ensures Kills(top, env) ==> Call(top, delay, env).process
  {
  }

  /** A call that returns 1 uses up weight, a call that returns 0 changes no frame, and the room needed never grows. */
  lemma StepMeasures(s: Stack, env: Env)
    requires s.frames != []
    ensures var o := FrameStep(s, env);
            && (if o.process then TotalWeight(o.stack.frames) < TotalWeight(s.frames) else o.stack.frames == s.frames && o.events == [])
            && Peak(o.stack.frames) <= Peak(s.frames)
  {
    hide TotalWeight, AllWords, Peak, Call;
    var below := s.frames[..|s.frames| - 1];
    var top := s.frames[|s.frames| - 1];
    assert s.frames == below + [top];
    Concat(below, [top]);
    One(top);
    Nothing();
    WeighsSomething(top);
    hide Weight, Kills;
    var e := Call(top, s.delay, env);
    KillsProcess(top, s.delay, env);
    if e.process {
      CallMeasures(top, s.delay, env);
      Concat(below, e.pushed);
    }
  }

  /** The words on the stack after a call that returns 1 and does not end the stack. */
  lemma StepWords(s: Stack, env: Env)
    requires s.frames != [] && FrameStep(s, env).process && !Kills(s.frames[|s.frames| - 1], env)
    ensures var (top, below) := (s.frames[|s.frames| - 1], s.frames[..|s.frames| - 1]);
            AllWords(FrameStep(s, env).stack.frames) == AllWords(below) + AllWords(Call(top, s.delay, env).pushed)
  {
    hide AllWords, Call;
    WordsConcat(s.frames[..|s.frames| - 1], Call(s.frames[|s.frames| - 1], s.delay, env).pushed);
  }

  lemma PressWords(key: int, env: Env)
    ensures AllWords(PressFrames(key, env)) == Sleep(env.pressDelay).Words() + Press(key).Words()
    ensures AllWords(ReleaseFrames(key, env)) == Sleep(env.releaseDelay).Words() + Release(key).Words()
  {
    hide AllWords, Frame.Words;
    One(Sleep(env.pressDelay));
    One(Press(key));
    One(Sleep(env.releaseDelay));
    One(Release(key));
    WordsConcat([Sleep(env.pressDelay)], [Press(key)]);
    WordsConcat([Sleep(env.releaseDelay)], [Release(key)]);
    assert PressFrames(key, env) == [Sleep(env.pressDelay)] + [Press(key)];
    assert ReleaseFrames(key, env) == [Sleep(env.releaseDelay)] + [Release(key)];
  }

  lemma ShootWords(retry: int, env: Env)
    ensures AllWords(ShootFrames(retry, env)) == WaitShootingInProgress(env.tick + SHOOT_TIMEOUT, retry).Words()
                                                 + (Sleep(env.pressDelay).Words() + Press(KEY_SHOOT_HALF).Words())
  {
    hide AllWords, Frame.Words;
    One(WaitShootingInProgress(env.tick + SHOOT_TIMEOUT, retry));
    PressWords(KEY_SHOOT_HALF, env);
    WordsConcat([WaitShootingInProgress(env.tick + SHOOT_TIMEOUT, retry)], PressFrames(KEY_SHOOT_HALF, env));
  }

  lemma FullPressWords(retry: int, env: Env)
    ensures AllWords(FullPressFrames(retry, env))
         == WaitShootingDone(retry).Words()
            + (Sleep(env.releaseDelay).Words() + Release(KEY_SHOOT_FULL).Words())
            + (Sleep(env.pressDelay).Words() + Press(KEY_SHOOT_FULL).Words())
            + WaitFlash.Words()
  {
    hide AllWords, Frame.Words;
    var (w, r, p) := ([WaitShootingDone(retry)], ReleaseFrames(KEY_SHOOT_FULL, env), PressFrames(KEY_SHOOT_FULL, env));
    One(WaitShootingDone(retry));
    PressWords(KEY_SHOOT_FULL, env);
    One(WaitFlash);
    WordsConcat(w, r);
    WordsConcat(w + r, p);
    WordsConcat(w + r + p, [WaitFlash]);
  }

  lemma ShootLength(retry: int, env: Env)
    ensures |AllWords(ShootFrames(retry, env))| == 10
  {
    ShootWords(retry, env);
  }

  lemma FullPressLength(retry: int, env: Env)
    ensures |AllWords(FullPressFrames(retry, env))| == 17
  {
    FullPressWords(retry, env);
  }

  lemma RetryWords(env: Env)
    ensures AllWords(ShootFrames(0, env) + [Sleep(RETRY_DELAY)]) == AllWords(ShootFrames(0, env)) + Sleep(RETRY_DELAY).Words()
  {
    hide AllWords, Frame.Words;
    One(Sleep(RETRY_DELAY));
    WordsConcat(ShootFrames(0, env), [Sleep(RETRY_DELAY)]);
  }

  // ---- whole runs ----------------------------------------------------------------------------------

  /** A stack after some calls, what they did, and how many of them returned 1. */
  datatype Trace = Trace(stack: Stack, log: seq<Event>, progress: nat, peak: nat)

  /** The calls of the functions on top of the stack, one for each answer of the camera. */
  ghost function Calls(s: Stack, envs: seq<Env>): Trace
    decreases |envs|
  {
    if envs == [] then Trace(s, [], 0, |AllWords(s.frames)|)
    else
      var t := Calls(s, envs[..|envs| - 1]);
      if t.stack.frames == [] then t
      else
        var o := FrameStep(t.stack, envs[|envs| - 1]);
        Trace(o.stack, t.log + o.events, t.progress + (if o.process then 1 else 0), Max(t.peak, |AllWords(o.stack.frames)|))
  }

  lemma {:induction false} CallsMeasures(s: Stack, envs: seq<Env>)
    ensures Calls(s, envs).progress + TotalWeight(Calls(s, envs).stack.frames) <= TotalWeight(s.frames)
    ensures Calls(s, envs).peak <= Peak(s.frames) && Peak(Calls(s, envs).stack.frames) <= Peak(s.frames)
    decreases |envs|
  {
    if envs == [] {
      PeakIsEnough(s.frames);
    } else {
      CallsMeasures(s, envs[..|envs| - 1]);
      var t := Calls(s, envs[..|envs| - 1]);
      if t.stack.frames != [] {
        StepMeasures(t.stack, envs[|envs| - 1]);
        PeakIsEnough(FrameStep(t.stack, envs[|envs| - 1]).stack.frames);
      }
    }
  }

  /** A shot takes at most 21 progress steps and 17 of the 48 words, whatever the camera answers. */
  lemma ShotBounds(envs: seq<Env>)
    ensures Calls(Stack([Shoot], 0), envs).progress <= 21
    ensures Calls(Stack([Shoot], 0), envs).peak <= 17 < ACTION_STACK_SIZE
  {
    assert [Shoot][..0] == [];
    CallsMeasures(Stack([Shoot], 0), envs);
  }

  // ---- one pass over a stack ------------------------------------------------------------------------

  /** action_stack_process: call the function on top until one returns 0 or the stack is empty. */
  ghost function RunAll(s: Stack, k: nat, answers: nat -> Env): (Stack, nat, seq<Event>)
    decreases TotalWeight(s.frames)
  {
    if s.frames == [] then (s, k, [])
    else
      var o := FrameStep(s, answers(k));
      if !o.process then (o.stack, k + 1, o.events)
      else
        StepMeasures(s, answers(k));
        var r := RunAll(o.stack, k + 1, answers);
        (r.0, r.1, o.events + r.2)
  }

  /** A pass from s with the log so far has come to the stack t, with this log, and goes on if process. */
  ghost predicate Reaches(s: Stack, k: nat, answers: nat -> Env, log: seq<Event>,
                          process: bool, t: Stack, k': nat, log': seq<Event>)
  {
    var (whole, rest) := (RunAll(s, k, answers), if process then RunAll(t, k', answers) else (t, k', []));
    whole.0 == rest.0 && whole.1 == rest.1 && log + whole.2 == log' + rest.2
  }

  lemma ReachesStart(s: Stack, k: nat, answers: nat -> Env, log: seq<Event>)
    ensures Reaches(s, k, answers, log, true, s, k, log)
  {
  }

  lemma RunAllNext(s: Stack, k: nat, answers: nat -> Env)
    requires s.frames != []
    ensures var o := FrameStep(s, answers(k));
            var rest := if o.process then RunAll(o.stack, k + 1, answers) else (o.stack, k + 1, []);
            RunAll(s, k, answers) == (rest.0, rest.1, o.events + rest.2)
  {
    hide FrameStep;
    var o := FrameStep(s, answers(k));
    assert o.events + [] == o.events;
  }

  lemma ReachesNext(s: Stack, k: nat, answers: nat -> Env, log: seq<Event>, t: Stack, k': nat, log': seq<Event>)
    requires Reaches(s, k, answers, log, true, t, k', log') && t.frames != []
    ensures var o := FrameStep(t, answers(k'));
            && Reaches(s, k, answers, log, o.process, o.stack, k' + 1, log' + o.events)
            && (o.process ==> TotalWeight(o.stack.frames) < TotalWeight(t.frames))
            && (!o.process ==> o.stack.frames == t.frames)
  {
    hide FrameStep, TotalWeight, RunAll, Peak;
    StepMeasures(t, answers(k'));
    RunAllNext(t, k', answers);
    var o := FrameStep(t, answers(k'));
    var rest := if o.process then RunAll(o.stack, k' + 1, answers) else (o.stack, k' + 1, []);
    assert log' + (o.events + rest.2) == log' + o.events + rest.2;
  }

  lemma ReachesEnd(s: Stack, k: nat, answers: nat -> Env, log: seq<Event>,
                   process: bool, t: Stack, k': nat, log': seq<Event>)
    requires Reaches(s, k, answers, log, process, t, k', log') && (process ==> t.frames == [])
    ensures RunAll(s, k, answers).0 == t && RunAll(s, k, answers).1 == k' && log + RunAll(s, k, answers).2 == log'
  {
    assert log' + [] == log';
  }

  ghost function Answers(answers: nat -> Env, k: nat, n: nat): seq<Env> {
    seq(n, i requires 0 <= i < n => answers(k + i))
  }

  /** Calls made in two portions. */
  lemma {:induction false} CallsConcat(s: Stack, a: seq<Env>, b: seq<Env>)
    ensures var (t, u) := (Calls(s, a), Calls(Calls(s, a).stack, b));
            && Calls(s, a + b).stack == u.stack
            && Calls(s, a + b).log == t.log + u.log
            && Calls(s, a + b).progress == t.progress + u.progress
    decreases |b|
  {
    hide FrameStep, AllWords;
    if b == [] {
      assert a + b == a;
    } else {
      var b' := b[..|b| - 1];
      assert (a + b)[..|a + b| - 1] == a + b';
      assert (a + b)[|a + b| - 1] == b[|b| - 1];
      CallsConcat(s, a, b');
      CallsLast(s, a + b);
      CallsLast(Calls(s, a).stack, b);
    }
  }

  /** Calls, one at the end. */
  lemma CallsLast(s: Stack, envs: seq<Env>)
    requires envs != []
    ensures var t := Calls(s, envs[..|envs| - 1]);
            if t.stack.frames == [] then Calls(s, envs) == t
            else
              var o := FrameStep(t.stack, envs[|envs| - 1]);
              && Calls(s, envs).stack == o.stack && Calls(s, envs).log == t.log + o.events
              && Calls(s, envs).progress == t.progress + if o.process then 1 else 0
  {
  }

  /** Of the calls k to n - 1 each returns 1; or each but the last, unless the stack is done. */
  ghost predicate RunsToStop(s: Stack, k: nat, answers: nat -> Env, n: nat, done: bool) {
    && k <= n
    && if done then Calls(s, Answers(answers, k, n - k)).progress == n - k
       else k < n && Calls(s, Answers(answers, k, n - k)).progress == n - k - 1
            && Calls(s, Answers(answers, k, n - k - 1)).progress == n - k - 1
  }

  /** A pass over a stack is the calls it makes, so whole-run bounds hold across passes. */
  lemma {:induction false} RunAllIsCalls(s: Stack, k: nat, answers: nat -> Env)
    ensures var r := RunAll(s, k, answers);
            && k <= r.1
            && Calls(s, Answers(answers, k, r.1 - k)).stack == r.0
            && Calls(s, Answers(answers, k, r.1 - k)).log == r.2
    decreases TotalWeight(s.frames)
  {
    hide FrameStep, AllWords;
    var r := RunAll(s, k, answers);
    if s.frames != [] {
      var (o, one) := (FrameStep(s, answers(k)), [answers(k)]);
      assert one[..0] == [];
      CallsLast(s, one);
      assert Calls(s, one).stack == o.stack && Calls(s, one).log == o.events;
      if o.process {
        StepMeasures(s, answers(k));
        RunAllIsCalls(o.stack, k + 1, answers);
        var rest := Answers(answers, k + 1, r.1 - (k + 1));
        assert Answers(answers, k, r.1 - k) == one + rest;
        CallsConcat(s, one, rest);
      } else {
        assert Answers(answers, k, 1) == one;
      }
    }
  }

  /** One more call in front, which returns 1. */
  lemma ProgressFirst(s: Stack, k: nat, answers: nat -> Env, m: nat)
    requires s.frames != [] && FrameStep(s, answers(k)).process
    ensures Calls(s, Answers(answers, k, m + 1)).progress
         == 1 + Calls(FrameStep(s, answers(k)).stack, Answers(answers, k + 1, m)).progress
  {
    hide FrameStep, AllWords;
    var one := [answers(k)];
    assert one[..0] == [] && Answers(answers, k, m + 1) == one + Answers(answers, k + 1, m);
    CallsLast(s, one);
    CallsConcat(s, one, Answers(answers, k + 1, m));
  }

  /** A pass goes on until a call returns 0 or no frame is left, and no further. */
  lemma {:induction false} RunAllStops(s: Stack, k: nat, answers: nat -> Env)
    ensures RunsToStop(s, k, answers, RunAll(s, k, answers).1, RunAll(s, k, answers).0.frames == [])
    decreases TotalWeight(s.frames)
  {
    hide FrameStep, AllWords, Calls;
    if s.frames == [] {
      NoProgress(s, k, answers);
    } else {
      var o := FrameStep(s, answers(k));
      var n := RunAll(s, k, answers).1;
      StepMeasures(s, answers(k));
      if o.process {
        RunAllStops(o.stack, k + 1, answers);
        ProgressFirst(s, k, answers, n - (k + 1));
        if RunAll(s, k, answers).0.frames != [] {
          ProgressFirst(s, k, answers, n - (k + 1) - 1);
        }
      } else {
        NoProgress(s, k, answers);
      }
    }
  }

  lemma NoProgress(s: Stack, k: nat, answers: nat -> Env)
    ensures Calls(s, Answers(answers, k, 0)).progress == 0
    ensures s.frames != [] && !FrameStep(s, answers(k)).process ==> Calls(s, Answers(answers, k, 1)).progress == 0
  {
    hide FrameStep;
    assert Answers(answers, k, 0) == [];
    assert Answers(answers, k, 1)[..0] == [];
    if s.frames != [] {
      CallsLast(s, Answers(answers, k, 1));
    }
  }

  /** action_stack_process_all on the first n of the running stacks: each is run once, in order. */
  ghost function PassUpTo(sts: seq<Stack>, n: nat, k: nat, answers: nat -> Env): (r: (seq<Stack>, nat, seq<Event>))
    requires n <= |sts|
    ensures |r.0| == n
  {
    if n == 0 then ([], k, [])
    else
      var p := PassUpTo(sts, n - 1, k, answers);
      var r := RunAll(sts[n - 1], p.1, answers);
      (p.0 + [r.0], r.1, p.2 + r.2)
  }

  lemma PassStep(sts: seq<Stack>, n: nat, k: nat, answers: nat -> Env, log: seq<Event>)
    requires n < |sts|
    ensures var p := PassUpTo(sts, n, k, answers);
            var r := RunAll(sts[n], p.1, answers);
            && PassUpTo(sts, n + 1, k, answers) == (p.0 + [r.0], r.1, p.2 + r.2)
            && log + (p.2 + r.2) == log + p.2 + r.2
  {
  }

  lemma PassStart(sts: seq<Stack>, k: nat, answers: nat -> Env, log: seq<Event>)
    ensures PassUpTo(sts, 0, k, answers) == ([], k, []) && log + [] == log
  {
  }
}
