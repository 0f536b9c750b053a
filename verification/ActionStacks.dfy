/**
 The list of running action stacks, the free list of their memory blocks, and the
 scheduler that calls each running stack in turn (core/action_stack.c).
 */
module ActionScheduler {
  import opened ActionSpec
  import opened ActionStackObject

  const MAX_ACTION_STACKS: nat := 5
  const ID_RANGE: nat := 0x1_0000_0000

  /** The element at i points to the one after it. */
  ghost predicate NextIs(xs: seq<ActionStack>, i: nat)
    requires i < |xs|
    reads xs`next
  {
    xs[i].next == if i + 1 < |xs| then xs[i + 1] else null
  }

  ghost predicate Chain(head: ActionStack?, xs: seq<ActionStack>)
    reads xs`next
  {
    && head == (if xs == [] then null else xs[0])
    && (forall i :: 0 <= i < |xs| ==> NextIs(xs, i))
  }

  /** No two elements share a block or an array. */
  ghost predicate Distinct(xs: seq<ActionStack>) {
    forall i, j :: 0 <= i < j < |xs| ==> xs[i] != xs[j] && xs[i].stack != xs[j].stack
  }

  ghost predicate Apart(xs: seq<ActionStack>, ys: seq<ActionStack>) {
    forall i, j :: 0 <= i < |xs| && 0 <= j < |ys| ==> xs[i] != ys[j] && xs[i].stack != ys[j].stack
  }

  ghost predicate Running(s: ActionStack)
    reads s, s.stack
  {
    s.Valid() && s.frames != [] && s.compId != 0
  }

  ghost predicate Idle(s: ActionStack)
    reads s`compId, s`stackPtr
  {
    s.stack.Length == ACTION_STACK_SIZE && s.compId == 0 && s.stackPtr == -1
  }

  ghost predicate AllIdle(xs: seq<ActionStack>)
    reads xs`compId, xs`stackPtr
  {
    forall s :: s in xs ==> Idle(s)
  }

  /** Every running stack has an id. */
  ghost predicate AllNamed(xs: seq<ActionStack>)
    reads xs`compId, xs`stackPtr
  {
    forall s :: s in xs ==> s.compId != 0 && s.InRange()
  }

  ghost function Arrays(xs: seq<ActionStack>): set<array<Word>> {
    set s | s in xs :: s.stack
  }

  ghost predicate AllRunning(xs: seq<ActionStack>)
    reads xs, Arrays(xs)
  {
    forall s :: s in xs ==> Running(s)
  }

  /** xs without its i-th element. */
  ghost function Without(xs: seq<ActionStack>, i: nat): seq<ActionStack>
    requires i < |xs|
  {
    xs[..i] + xs[i + 1..]
  }

  /** Moving a block from the running stacks to the free list keeps all blocks distinct. */
  lemma Moved(live: seq<ActionStack>, free: seq<ActionStack>, i: nat)
    requires Distinct(live) && Distinct(free) && Apart(live, free) && i < |live|
    ensures Distinct(Without(live, i)) && Distinct([live[i]] + free) && Apart(Without(live, i), [live[i]] + free)
    ensures forall s :: s in Without(live, i) <==> s in live && s != live[i]
    ensures |Without(live, i)| == |live| - 1 && forall j :: 0 <= j < |Without(live, i)| ==> Without(live, i)[j] != live[i]
    ensures live[i] !in free && forall j :: 0 <= j < |free| ==> free[j] !in live
  {
    var ys := Without(live, i);
    assert forall k :: 0 <= k < |ys| ==> ys[k] == live[if k < i then k else k + 1];
  }

  lemma StillNamed(xs: seq<ActionStack>, i: nat)
    requires AllNamed(xs) && i < |xs|
    ensures AllNamed(Without(xs, i)) && xs[i].InRange()
  {
  }

  lemma NamedWith(p: ActionStack, xs: seq<ActionStack>)
    requires AllNamed(xs) && p.compId != 0 && p.InRange()
    ensures AllNamed([p] + xs)
  {
  }

  lemma RunningWith(p: ActionStack, xs: seq<ActionStack>)
    requires AllRunning(xs) && Running(p)
    ensures AllRunning([p] + xs)
  {
  }

  lemma Unshared(p: ActionStack, xs: seq<ActionStack>)
    requires Apart([p], xs)
    ensures p !in xs && p.stack !in Arrays(xs)
  {
    assert [p][0] == p;
  }

  /** A block that is new to both lists, at the head of the running stacks. */
  lemma Added(p: ActionStack, live: seq<ActionStack>, free: seq<ActionStack>)
    requires Distinct(live) && Apart(live, free) && Apart([p], live) && Apart([p], free)
    ensures Distinct([p] + live) && Apart([p] + live, free)
  {
  }

  /** The functions without parameters, which can start a stack. */
  predicate CanStart(f: Action) {
    f.AsShoot? || f.AsWaitFlash? || f.AsScriptRun?
  }

  /** The frame that a function without parameters makes. */
  function FirstFrame(f: Action): Frame {
    if f.AsShoot? then Shoot else if f.AsWaitFlash? then WaitFlash else ScriptRun
  }

  /** No stack of xs has this id. */
  ghost predicate Unused(id: nat, xs: seq<ActionStack>)
    reads xs`compId
  {
    forall s :: s in xs ==> s.compId != id
  }

  /** No two stacks have the same id. */
  ghost predicate UniqueIds(xs: seq<ActionStack>)
    reads xs`compId
  {
    forall s, t :: s in xs && t in xs && s != t ==> s.compId != t.compId
  }

  /** One more stack: its id has to be a new one. */
  lemma UniqueWith(p: ActionStack, xs: seq<ActionStack>)
    requires p !in xs
    ensures UniqueIds([p] + xs) <==> UniqueIds(xs) && Unused(p.compId, xs)
  {
  }

  class ActionStacks {
    var actionStacks: ActionStack?
    var freeStacks: ActionStack?
    var numStacks: int
    var taskCompId: nat
    const cam: Camera

    /** The running stacks in list order, and the blocks kept for reuse. */
    ghost var live: seq<ActionStack>
    ghost var free: seq<ActionStack>

    /** The two lists are acyclic, share nothing, and hold at most five blocks. */
    ghost predicate Shape()
      reads this, live, free
    {
      && Chain(actionStacks, live) && Chain(freeStacks, free)
      && Distinct(live) && Distinct(free) && Apart(live, free)
      && numStacks == |live| && |live| + |free| <= MAX_ACTION_STACKS
      && 0 < taskCompId < ID_RANGE
      && AllIdle(free) && AllNamed(live)
    }

    ghost predicate Valid()
      reads this, live, free, Arrays(live)
    {
      Shape() && AllRunning(live)
    }

    constructor (cam: Camera)
      ensures Valid() && live == [] && free == [] && taskCompId == 1 && this.cam == cam
    {
      this.cam := cam;
      actionStacks, freeStacks := null, null;
      numStacks, taskCompId := 0, 1;
      live, free := [], [];
    }

    /** action_stack_is_finished: no running stack has this id. */
    method IsFinished(id: nat) returns (finished: bool)
      requires Shape()
      ensures finished <==> Unused(id, live)
    {
      var p := actionStacks;
      ghost var n := 0;
      while p != null
        invariant n <= |live| && p == if n < |live| then live[n] else null
        invariant forall i :: 0 <= i < n ==> live[i].compId != id
        decreases |live| - n
      {
        if p.compId == id {
          assert live[n] in live;
          return false;
        }
        assert NextIs(live, n);
        p := p.next;
        n := n + 1;
      }
      return true;
    }

    /** Take p, the i-th running stack, out of the list. */
    method Unlink(p: ActionStack, ghost i: nat)
      requires Chain(actionStacks, live) && Distinct(live) && i < |live| && live[i] == p
      modifies `actionStacks, live`next
      ensures Chain(actionStacks, Without(live, i))
    {
      if p == actionStacks {
        assert NextIs(live, 0);
        actionStacks := actionStacks.next;
      } else {
        var prev := actionStacks;
        ghost var n := 0;
        while prev != null && prev.next != p
          invariant n < i && prev == live[n]
          decreases i - n
        {
          assert NextIs(live, n);
          prev := prev.next;
          n := n + 1;
          assert NextIs(live, n);
        }
        assert NextIs(live, n);
        if prev != null {
          assert NextIs(live, i);
          prev.next := prev.next.next;
        }
      }
      forall j | 0 <= j < |Without(live, i)|
        ensures NextIs(Without(live, i), j)
      {
        assert old(NextIs(live, if j < i then j else j + 1));
        assert j == i - 1 ==> old(NextIs(live, i));
      }
    }

    /** Take the i-th running stack off the list and keep its block for reuse. */
    method Dispose(p: ActionStack, ghost i: nat)
      requires Shape() && i < |live| && live[i] == p
      modifies `actionStacks, `freeStacks, `numStacks, `live, `free, live`next, p
      ensures Shape() && live == Without(old(live), i) && free == [p] + old(free)
      ensures p.compId == 0 && p.stackPtr == -1 && p.State() == Stack([], old(p.delayTarget))
      ensures forall s :: s in live <==> s in old(live) && s != p
    {
      hide Chain, Distinct, Apart, AllIdle, AllNamed, Without, ActionStack.State;
      ghost var ys := Without(live, i);
      Moved(live, free, i);
      assert forall s :: s in ys <==> s in live && s != p;
      assert forall j :: 0 <= j < |ys| ==> ys[j] != p;
      StillNamed(live, i);
      assert AllNamed(ys);
      Unlink(p, i);
      assert Chain(freeStacks, free);
      Retire(p);
      assert Chain(actionStacks, ys) && AllNamed(ys);
      numStacks := numStacks - 1;
      freeStacks := p;
      live, free := ys, [p] + free;
    }

    /** action_stack_finish: a running stack ends; nothing happens if that was done before. */
    method Finish(p: ActionStack, ghost i: nat)
      requires Shape() && (p.compId != 0 ==> i < |live| && live[i] == p)
      modifies `actionStacks, `freeStacks, `numStacks, `live, `free, live`next, p
      ensures Shape()
      ensures old(p.compId) == 0 ==> live == old(live) && free == old(free) && unchanged(p)
      ensures old(p.compId) != 0 ==>
                live == Without(old(live), i) && free == [p] + old(free)
                && p.compId == 0 && p.stackPtr == -1 && p.State() == Stack([], old(p.delayTarget))
                && forall s :: s in live <==> s in old(live) && s != p
    {
      if p.compId == 0 {
        return;
      }
      Dispose(p, i);
    }

    /** Mark p's block as unused and put it at the head of the free list. */
    method Retire(p: ActionStack)
      requires Chain(freeStacks, free) && AllIdle(free) && p !in free
      requires p.stack.Length == ACTION_STACK_SIZE
      modifies p
      ensures Chain(p, [p] + free) && AllIdle([p] + free)
      ensures p.compId == 0 && p.stackPtr == -1 && p.State() == Stack([], old(p.delayTarget))
    {
      p.compId := 0;
      p.stackPtr := -1;
      p.frames := [];
      p.next := freeStacks;
      forall j | 0 <= j < |[p] + free|
        ensures NextIs([p] + free, j)
      {
        if j > 0 {
          assert ([p] + free)[j] == free[j - 1] && free[j - 1] in free;
          assert old(NextIs(free, j - 1));
        }
      }
    }
 
    /** A block for a new stack: the first one kept for reuse, or a new one. */
    method TakeBlock() returns (p: ActionStack)
      requires Valid() && |live| < MAX_ACTION_STACKS
      modifies `freeStacks, `free
      ensures Chain(actionStacks, live) && Distinct(live) && AllNamed(live) && AllRunning(live)
      ensures Chain(freeStacks, free) && AllIdle(free) && Distinct(free) && Apart(live, free)
      ensures p !in live && p !in free && |live| + |free| < MAX_ACTION_STACKS
      ensures Apart([p], live) && Apart([p], free)
      ensures p.stack.Length == ACTION_STACK_SIZE
      ensures if old(free) == [] then fresh(p) && fresh(p.stack) && free == []
              else old(free) == [p] + free && p in old(free) && p.stack in Arrays(old(free))
    {
      if freeStacks != null {
        p := freeStacks;
        assert NextIs(free, 0) && free[0] in free && Idle(free[0]);
        ghost var rest := free[1..];
        assert forall j :: 0 <= j < |rest| ==> rest[j] == free[j + 1];
        forall j | 0 <= j < |rest|
          ensures NextIs(rest, j)
        {
          assert NextIs(free, j + 1);
        }
        freeStacks := freeStacks.next;
        free := rest;
      } else {
        p := new ActionStack();
      }
    }

    /** memset over the block, and the first function on its stack. */
    method Initialise(p: ActionStack, f: Action, id: nat)
      requires CanStart(f) && 0 < id && p.stack.Length == ACTION_STACK_SIZE
      modifies p, p.stack
      ensures Running(p) && p.compId == id && p.State() == Stack([FirstFrame(f)], 0)
      ensures p.next == old(p.next)
    {
      forall i | 0 <= i < p.stack.Length {
        p.stack[i] := Num(0);
      }
      p.delayTarget := 0;
      p.compId := id;
      p.stack[0] := Fun(f);
      p.stack[1] := FuncEntry;
      p.stackPtr := 1;
      p.frames := [FirstFrame(f)];
      One(FirstFrame(f));
    }

    /** Start a stack when fewer than five are running. */
    method Add(f: Action) returns (p: ActionStack)
      requires Valid() && |live| < MAX_ACTION_STACKS && CanStart(f)
      modifies `actionStacks, `freeStacks, `numStacks, `live, `free, free, Arrays(free)
      ensures Valid() && live == [p] + old(live)
      ensures p.compId == taskCompId && p.State() == Stack([FirstFrame(f)], 0)
      ensures if old(free) == [] then fresh(p) && free == [] else old(free) == [p] + free
      ensures UniqueIds(live) <==> old(UniqueIds(live) && Unused(taskCompId, live))
    {
      hide Distinct, Apart, AllIdle, AllNamed, AllRunning, Chain, UniqueIds, Unused;
      ghost var isNew := UniqueIds(live) && Unused(taskCompId, live);
      p := TakeBlock();
      assert isNew <==> UniqueIds(live) && Unused(taskCompId, live);
      Install(p, f, taskCompId);
      Link(p);
    }

    /** Block p, already linked, becomes the first running stack. */
    method Link(p: ActionStack)
      requires Chain(p, [p] + live) && Distinct([p] + live) && AllNamed([p] + live) && AllRunning([p] + live)
      requires Chain(freeStacks, free) && AllIdle(free) && Distinct(free) && Apart([p] + live, free)
      requires numStacks == |live| && |live| + |free| < MAX_ACTION_STACKS && 0 < taskCompId < ID_RANGE
      modifies `actionStacks, `live, `numStacks
      ensures Valid() && live == [p] + old(live)
    {
      actionStacks := p;
      live := [p] + live;
      numStacks := numStacks + 1;
    }

    /**
     action_stack_create: a new stack runs first, unless five are running.  Only functions
     without parameters can start a stack.
     */
    method Create(f: Action) returns (id: int)
      requires Valid() && CanStart(f)
      modifies this, free, Arrays(free)
      ensures Valid()
      ensures |old(live)| == MAX_ACTION_STACKS ==> id == -1 && live == old(live) && free == old(free) && taskCompId == old(taskCompId)
      ensures |old(live)| < MAX_ACTION_STACKS ==>
                && id == old(taskCompId)
                && |live| == |old(live)| + 1 && live[1..] == old(live)
                && live[0].compId == id && live[0].State() == Stack([FirstFrame(f)], 0)
                && (if old(free) == [] then fresh(live[0]) && free == [] else old(free) == [live[0]] + free)
                && taskCompId == (if old(taskCompId) + 1 == ID_RANGE then 1 else old(taskCompId) + 1)
      ensures |old(live)| < MAX_ACTION_STACKS ==>
                (UniqueIds(live) <==> old(UniqueIds(live) && Unused(taskCompId, live)))
    {
      hide UniqueIds, Unused, Chain, Distinct, Apart, AllIdle, AllNamed;
      if numStacks == MAX_ACTION_STACKS {
        return -1;
      }
      var p := Add(f);
      NextId();
      return p.compId;
    }

    method NextId()
      requires 0 < taskCompId < ID_RANGE
      modifies `taskCompId
      ensures taskCompId == if old(taskCompId) + 1 == ID_RANGE then 1 else old(taskCompId) + 1
    {
      taskCompId := (taskCompId + 1) % ID_RANGE;
      if taskCompId == 0 {
        taskCompId := 1;
      }
    }

    /** Set up block p and link it in front of the running stacks. */
    method Install(p: ActionStack, f: Action, id: nat)
      requires CanStart(f) && 0 < id && p.stack.Length == ACTION_STACK_SIZE
      requires Chain(actionStacks, live) && Distinct(live) && AllNamed(live) && AllRunning(live)
      requires Chain(freeStacks, free) && AllIdle(free) && Apart(live, free)
      requires p !in live && p !in free && Apart([p], live) && Apart([p], free)
      modifies p, p.stack
      ensures Chain(p, [p] + live) && Distinct([p] + live) && AllNamed([p] + live) && AllRunning([p] + live)
      ensures Chain(freeStacks, free) && AllIdle(free) && Apart([p] + live, free)
      ensures p.compId == id && p.State() == Stack([FirstFrame(f)], 0)
      ensures UniqueIds([p] + live) <==> old(UniqueIds(live) && Unused(id, live))
    {
      hide Distinct, Apart, UniqueIds, Unused, AllNamed, AllRunning, AllIdle;
      Unshared(p, live);
      Added(p, live, free);
      Initialise(p, f, id);
      UniqueWith(p, live);
      p.next := actionStacks;
      ghost var xs := [p] + live;
      assert forall j :: 0 < j < |xs| ==> xs[j] == live[j - 1] && xs[j] in live;
      forall j | 0 <= j < |xs|
        ensures NextIs(xs, j)
      {
        assert j > 0 ==> old(NextIs(live, j - 1));
      }
      NamedWith(p, live);
      RunningWith(p, live);
    }
 
    /** Finishing a stack leaves the others as they were; it may have been finished before. */
    method FinishRunning(p: ActionStack, ghost i: nat)
      requires Shape() && (p.compId != 0 ==> i < |live| && live[i] == p)
      requires forall s :: s in live && s != p ==> Running(s)
      requires p.compId == 0 ==> p !in live
      modifies `actionStacks, `freeStacks, `numStacks, `live, `free, live`next, p
      ensures Valid()
      ensures if old(p.compId) == 0 then live == old(live) && free == old(free) && p.State() == old(p.State())
              else live == Without(old(live), i) && free == [p] + old(free) && p.State() == Stack([], old(p.delayTarget))
      ensures p.compId == 0 && p.stackPtr == (if old(p.compId) == 0 then old(p.stackPtr) else -1) && p !in live
      ensures forall s :: s in old(live) && s != p ==> s in live && Same(s)
      ensures forall s :: s in live ==> s in old(live)
      ensures old(UniqueIds(live)) ==> UniqueIds(live)
    {
      ghost var L := live;
      Finish(p, i);
      assert forall s :: s in live ==> s in L && s != p;
      forall s | s in live
        ensures Running(s)
      {
        assert s in L && old(Running(s));
        assert s.Contents() == old(s.Contents());
      }
    }

    /** action_stack_kill: the first running stack with this id ends, if there is one. */
    method Kill(id: nat)
      requires Valid()
      modifies this, live
      ensures Valid() && taskCompId == old(taskCompId)
      ensures var i := old(IdIndex(live, id));
              if i == |old(live)| then live == old(live) && free == old(free)
              else live == Without(old(live), i) && free == [old(live)[i]] + old(free) && Ended(old(live)[i])
      ensures old(UniqueIds(live)) ==> UniqueIds(live)
      ensures forall s :: s in old(live) && s.compId != 0 ==> s in live && Same(s)
    {
      var p := actionStacks;
      ghost var n := 0;
      while p != null
        invariant n <= |live| && p == if n < |live| then live[n] else null
        invariant forall i :: 0 <= i < n ==> live[i].compId != id
        decreases |live| - n
      {
        assert NextIs(live, n);
        if p.compId == id {
          IdIndexIs(live, id, n);
          FinishRunning(p, n);
          return;
        }
        p := p.next;
        n := n + 1;
      }
      IdIndexIs(live, id, n);
    }

    /** A stack has its state, its words and its id from before. */
    twostate predicate Same(s: ActionStack)
      reads s
    {
      s.State() == old(s.State()) && s.compId == old(s.compId)
    }

    /** A stack that has been finished; its delay stays as it was. */
    twostate predicate Ended(s: ActionStack)
      reads s
    {
      s.compId == 0 && s.stackPtr == -1 && s.State() == Stack([], old(s.delayTarget))
    }
    /**
     A turn of the stack p, which was the m-th of the list L: it is still listed, or one of
     its steps has ended it, and then it is at the head of the free list.
     */
    ghost predicate InTurn(p: ActionStack, m: nat, L: seq<ActionStack>, F: seq<ActionStack>)
      reads this, live, free, Arrays(live), p, p.stack
    {
      && Shape() && m < |L| && L[m] == p
      && (forall s :: s in live && s != p ==> Running(s))
      && if p.compId != 0 then live == L && free == F && p.Valid() && (p.stackPtr < 0 <==> p.frames == [])
         else live == Without(L, m) && free == [p] + F && p !in live && p.frames == [] && p.stackPtr == -1
    }

    /** A step that touches its own stack alone. */
    method CallOwn(p: ActionStack, ghost m: nat, f: Action, env: Env) returns (process: bool)
      requires Valid() && m < |live| && live[m] == p && p.frames != []
      requires Fun(f) == p.TopFrame().Words()[|p.TopFrame().Words()| - 2]
      requires f.AsScriptRun? ==> !env.scriptOn && p.TopFrame().ScriptRun?
      modifies p`stackPtr, p`delayTarget, p`frames, p.stack, cam`log
      ensures InTurn(p, m, live, free) && p.compId == old(p.compId) != 0
      ensures p.Computes(env, process, cam)
      ensures forall s :: s in live && s != p ==> Same(s)
    {
      hide Peak, AllWords, FrameStep, Distinct, Apart;
      assert Running(p);
      if f.AsScriptRun? {
        p.LeaveScript(env, cam);
        process := true;
      } else {
        process := p.CallTop(f, env, cam);
      }
      p.FunctionOnTop();
      forall i | 0 <= i < |live|
        ensures NextIs(live, i)
      {
        assert old(NextIs(live, i));
      }
      NotFree(m);
      forall s | s in live && s != p
        ensures Running(s) && Same(s)
      {
        assert old(Running(s));
        Separate(live, s, p);
        assert s.Contents() == old(s.Contents());
      }
    }

    lemma NotFree(m: nat)
      requires Apart(live, free) && m < |live|
      ensures live[m] !in free
    {
    }

    /** action_stack_AS_SCRIPT_RUN; a script that has ended takes its own stack with it. */
    method CallScriptRun(p: ActionStack, ghost m: nat, env: Env) returns (process: bool)
      requires Valid() && UniqueIds(live) && m < |live| && live[m] == p && p.frames != [] && p.TopFrame().ScriptRun?
      modifies this, live, p.stack, cam`log
      ensures InTurn(p, m, old(live), old(free)) && UniqueIds(live) && taskCompId == old(taskCompId)
      ensures p.compId == if old(Kills(p.TopFrame(), env)) then 0 else old(p.compId)
      ensures p.compId == 0 ==> process && p.frames == []
      ensures p.Computes(env, process, cam)
      ensures forall s :: s in old(live) && s != p ==> Same(s)
    {
      assert Running(p);
      if env.scriptOn {
        if !env.scriptRunning {
          ScriptEnded(p, m);
          return true;
        }
        p.FunctionOnTop();
      } else {
        process := CallOwn(p, m, AsScriptRun, env);
        return process;
      }
      return false;
    }

    /** script_end: the stack that runs the script is killed, and the keys are released. */
    method ScriptEnded(p: ActionStack, ghost m: nat)
      requires Valid() && UniqueIds(live) && m < |live| && live[m] == p
      modifies this, live, cam`log
      ensures InTurn(p, m, old(live), old(free)) && UniqueIds(live) && taskCompId == old(taskCompId)
      ensures p.compId == 0 && p.State() == Stack([], old(p.delayTarget))
      ensures cam.log == old(cam.log) + [ScriptEnd]
      ensures forall s :: s in old(live) && s != p ==> Same(s)
    {
      IdIndexIs(live, p.compId, m);
      Kill(p.compId);
      cam.Emit(ScriptEnd);
    }

    /** One iteration of the loop of action_stack_process. */
    method RunTop(p: ActionStack, ghost m: nat) returns (process: bool)
      requires Valid() && UniqueIds(live) && m < |live| && live[m] == p && p.frames != []
      modifies this, live, p.stack, cam
      ensures InTurn(p, m, old(live), old(free)) && UniqueIds(live) && taskCompId == old(taskCompId)
      ensures p.compId == old(p.compId) || (p.compId == 0 && process && p.frames == [])
      ensures p.Computes(cam.answers(old(cam.calls)), process, cam) && cam.calls == old(cam.calls) + 1
      ensures forall s :: s in old(live) && s != p ==> Same(s)
    {
      hide InTurn, FrameStep, UniqueIds, AllWords, Peak, Distinct, Apart, Chain, AllIdle, AllNamed, Frame.Words;
      assert Running(p);
      p.FunctionOnTop();
      var id := p.Top(0);
      var f := p.Top(1);
      if id == FuncEntry {
        var env := cam.answers(cam.calls);
        cam.calls := cam.calls + 1;
        if f.f == AsScriptRun {
          process := CallScriptRun(p, m, env);
        } else {
          process := CallOwn(p, m, f.f, env);
        }
      } else {
        // "Not a Function": no frame leaves anything but the marker on top.
        assert false;
      }
    }

    /** p still has frames, and so it is still listed. */
    lemma GoesOn(p: ActionStack, m: nat, L: seq<ActionStack>, F: seq<ActionStack>)
      requires InTurn(p, m, L, F)
      ensures p.stackPtr < 0 <==> p.frames == []
      ensures p.frames != [] ==> Valid() && live == L && free == F && m < |live| && live[m] == p
    {
    }

    lemma NoneAdded(p: ActionStack, m: nat, L: seq<ActionStack>, F: seq<ActionStack>)
      requires InTurn(p, m, L, F)
      ensures p in L && forall i :: 0 <= i < |live| ==> live[i] in L
    {
    }

    /** p is at its end, and it may have left the list. */
    method End(p: ActionStack, ghost m: nat, ghost L: seq<ActionStack>, ghost F: seq<ActionStack>)
      requires InTurn(p, m, L, F) && p.frames == [] && UniqueIds(live)
      modifies this, live, p
      ensures Valid() && UniqueIds(live) && taskCompId == old(taskCompId)
      ensures live == Without(L, m) && free == [p] + F && p.State() == old(p.State())
      ensures forall s :: s in L && s != p ==> Same(s)
    {
      FinishRunning(p, m);
    }

    /** The loop of action_stack_process: until a step returns 0 or no frame is left. */
    method RunSteps(p: ActionStack, ghost m: nat)
      requires Valid() && UniqueIds(live) && m < |live| && live[m] == p
      modifies this, live, p.stack, cam
      ensures InTurn(p, m, old(live), old(free)) && UniqueIds(live) && taskCompId == old(taskCompId)
      ensures var r := RunAll(old(p.State()), old(cam.calls), cam.answers);
              p.State() == r.0 && cam.calls == r.1 && cam.log == old(cam.log) + r.2
      ensures forall s :: s in old(live) && s != p ==> Same(s)
    {
      hide RunAll, Reaches, FrameStep, InTurn, UniqueIds, Shape, AllRunning, TotalWeight;
      ghost var (L, F, s, k, log) := (live, free, p.State(), cam.calls, cam.log);
      var process := true;
      Started(p, m);
      ReachesStart(s, k, cam.answers, log);
      while process && p.stackPtr >= 0
        invariant InTurn(p, m, L, F) && UniqueIds(live) && taskCompId == old(taskCompId)
        invariant forall s :: s in L && s != p ==> Same(s)
        invariant Reaches(s, k, cam.answers, log, process, p.State(), cam.calls, cam.log)
        decreases TotalWeight(p.frames), process
      {
        GoesOn(p, m, L, F);
        ReachesNext(s, k, cam.answers, log, p.State(), cam.calls, cam.log);
        process := RunTop(p, m);
      }
      GoesOn(p, m, L, F);
      ReachesEnd(s, k, cam.answers, log, process, p.State(), cam.calls, cam.log);
    }

    /**
     action_stack_process: the active stack, the m-th of the list, runs until a step returns 0
     or no frame is left, and then it is finished, unless one of its steps has done that.
     */
    method Process(p: ActionStack, ghost m: nat)
      requires Valid() && UniqueIds(live) && m < |live| && live[m] == p
      modifies this, live, p.stack, cam
      ensures Valid() && UniqueIds(live) && taskCompId == old(taskCompId)
      ensures var r := RunAll(old(p.State()), old(cam.calls), cam.answers);
              && p.State() == r.0 && cam.calls == r.1 && cam.log == old(cam.log) + r.2
              && (if r.0.frames == [] then live == Without(old(live), m) && free == [p] + old(free)
                  else live == old(live) && free == old(free))
      ensures forall s :: s in old(live) && s != p ==> Same(s)
    {
      hide RunAll, InTurn, UniqueIds, Shape, AllRunning, Without;
      ghost var (L, F) := (live, free);
      RunSteps(p, m);
      GoesOn(p, m, L, F);
      if p.stackPtr < 0 {
        NoneAdded(p, m, L, F);
        End(p, m, L, F);
      }
    }

    lemma Started(p: ActionStack, m: nat)
      requires Valid() && m < |live| && live[m] == p
      ensures InTurn(p, m, live, free)
    {
      assert Running(p);
      p.FunctionOnTop();
    }

    /** After some turns of a pass: who is still listed, who has left, what has run and what is still to run. */
    ghost predicate PassState(L: seq<ActionStack>, F: seq<ActionStack>, sts: seq<Stack>, done: seq<Stack>)
      reads this, L
    {
      && |done| <= |L| == |sts| && Distinct(L)
      && live == ListAfter(L, done) && Within(live, L)
      && free == FreeAfter(L, done, F)
      && forall i :: 0 <= i < |L| ==> L[i].State() == if i < |done| then done[i] else sts[i]
    }
    /** One iteration of the scheduler loop. */
    method Turn(p: ActionStack, ghost L: seq<ActionStack>, ghost F: seq<ActionStack>, ghost sts: seq<Stack>,
                ghost done: seq<Stack>)
      returns (next: ActionStack?)
      requires Valid() && UniqueIds(live) && PassState(L, F, sts, done) && |done| < |L| && p == L[|done|]
      modifies this, live, p.stack, cam
      ensures Valid() && UniqueIds(live) && taskCompId == old(taskCompId)
      ensures var r := RunAll(sts[|done|], old(cam.calls), cam.answers);
              && PassState(L, F, sts, done + [r.0])
              && cam.calls == r.1 && cam.log == old(cam.log) + r.2
      ensures next == if |done| + 1 < |L| then L[|done| + 1] else null
    {
      hide RunAll, Shape, Distinct, AllRunning, ListAfter, FreeAfter, Within, Without, UniqueIds;
      ghost var (n, st) := (|done|, RunAll(sts[|done|], cam.calls, cam.answers).0);
      ghost var m := |Survivors(L[..n], done)|;
      SurvivorsStep(L, done, st);
      LeaversStep(L, done, st, F);
      NextAt(m);
      next := p.next;
      ghost var listed := live;
      Process(p, m);
      WithoutWithin(listed, m);
      WithinAll(live, listed, L);
      forall i | 0 <= i < |L| && i != n
        ensures L[i].State() == old(L[i].State())
      {
        NotAgain(L, i, n);
      }
    }

    /**
     action_stack_process_all, when no two running stacks have the same id: every stack running
     at the start runs once, newest first; exactly those whose frames are used up, or that one
     of their own steps has ended, leave the list; and each of these joins the free list once.
     */
    method ProcessAll()
      requires Valid() && UniqueIds(live)
      modifies this, live, Arrays(live), cam
      ensures Valid() && UniqueIds(live) && taskCompId == old(taskCompId)
      ensures var r := PassUpTo(old(States(live)), |old(live)|, old(cam.calls), cam.answers);
              && cam.calls == r.1 && cam.log == old(cam.log) + r.2
              && live == Survivors(old(live), r.0) && free == Leavers(old(live), r.0) + old(free)
              && (forall i :: 0 <= i < |old(live)| ==> old(live)[i].State() == r.0[i])
    {
      hide RunAll, Shape, AllRunning, PassUpTo, Survivors, Leavers, PassState, States, UniqueIds;
      ghost var (L, F, sts, k, log) := (live, free, States(live), cam.calls, cam.log);
      ghost var done: seq<Stack> := [];
      PassStart(sts, k, cam.answers, log);
      BeforePass(L, F, sts);
      var activeStack := actionStacks;
      while activeStack != null
        invariant Valid() && UniqueIds(live) && taskCompId == old(taskCompId)
        invariant |done| <= |L| == |sts| && PassState(L, F, sts, done)
        invariant activeStack == if |done| < |L| then L[|done|] else null
        invariant (done, cam.calls) == (PassUpTo(sts, |done|, k, cam.answers).0, PassUpTo(sts, |done|, k, cam.answers).1)
        invariant cam.log == log + PassUpTo(sts, |done|, k, cam.answers).2
        decreases |L| - |done|
      {
        PassStep(sts, |done|, k, cam.answers, log);
        ghost var st := RunAll(sts[|done|], cam.calls, cam.answers).0;
        assert activeStack in L && activeStack.stack in old(Arrays(live));
        StillListed(L, F, sts, done);
        activeStack := Turn(activeStack, L, F, sts, done);
        done := done + [st];
      }
      AfterPass(L, F, sts, done);
    }

    lemma StillListed(L: seq<ActionStack>, F: seq<ActionStack>, sts: seq<Stack>, done: seq<Stack>)
      requires PassState(L, F, sts, done)
      ensures forall i :: 0 <= i < |live| ==> live[i] in L
    {
      hide ListAfter, FreeAfter;
    }

    lemma AfterPass(L: seq<ActionStack>, F: seq<ActionStack>, sts: seq<Stack>, done: seq<Stack>)
      requires PassState(L, F, sts, done) && |done| >= |L|
      ensures |done| == |L| && live == Survivors(L, done) && free == Leavers(L, done) + F
      ensures forall i :: 0 <= i < |L| ==> L[i].State() == done[i]
    {
      hide Survivors, Leavers;
      assert L[..|done|] == L && L[|done|..] == [] && Survivors(L, done) + [] == Survivors(L, done);
    }

    lemma BeforePass(L: seq<ActionStack>, F: seq<ActionStack>, sts: seq<Stack>)
      requires Valid() && L == live && F == free && sts == States(live)
      ensures PassState(L, F, sts, [])
      ensures actionStacks == if live == [] then null else live[0]
    {
      assert L[..0] == [] && L[0..] == L && [] + L == L && [] + F == F;
    }

    lemma NextAt(m: nat)
      requires Valid() && m < |live|
      ensures live[m].next == if m + 1 < |live| then live[m + 1] else null
    {
      assert NextIs(live, m);
    }

    lemma Separate(xs: seq<ActionStack>, s: ActionStack, p: ActionStack)
      requires Distinct(xs) && s in xs && p in xs && s != p
      ensures s.stack != p.stack
    {
      var i :| 0 <= i < |xs| && xs[i] == s;
      var j :| 0 <= j < |xs| && xs[j] == p;
      assert i < j || j < i;
    }
  }

  /** Every stack of xs is in ys. */
  ghost predicate Within(xs: seq<ActionStack>, ys: seq<ActionStack>) {
    forall i :: 0 <= i < |xs| ==> xs[i] in ys
  }

  lemma WithinAll(xs: seq<ActionStack>, ys: seq<ActionStack>, zs: seq<ActionStack>)
    requires Within(xs, ys) && Within(ys, zs)
    ensures Within(xs, zs)
  {
    forall i | 0 <= i < |xs|
      ensures xs[i] in zs
    {
      var j :| 0 <= j < |ys| && ys[j] == xs[i];
      assert ys[j] in zs;
    }
  }

  lemma WithoutWithin(xs: seq<ActionStack>, i: nat)
    requires i < |xs|
    ensures Within(xs, xs) && Within(Without(xs, i), xs)
  {
  }

  lemma NotAgain(xs: seq<ActionStack>, i: nat, n: nat)
    requires Distinct(xs) && i < |xs| && n < |xs| && i != n
    ensures xs[i] != xs[n]
  {
    assert i < n || n < i;
  }

  ghost function States(xs: seq<ActionStack>): seq<Stack>
    reads xs
  {
    seq(|xs|, i requires 0 <= i < |xs| reads xs => xs[i].State())
  }

  /** The stacks that still have frames. */
  ghost function Survivors(xs: seq<ActionStack>, sts: seq<Stack>): seq<ActionStack>
    requires |xs| == |sts|
  {
    if xs == [] then []
    else
      var k := |xs| - 1;
      Survivors(xs[..k], sts[..k]) + if sts[k].frames == [] then [] else [xs[k]]
  }

  /** The stacks that are at their end, the last first. */
  ghost function Leavers(xs: seq<ActionStack>, sts: seq<Stack>): seq<ActionStack>
    requires |xs| == |sts|
  {
    if xs == [] then []
    else
      var k := |xs| - 1;
      (if sts[k].frames == [] then [xs[k]] else []) + Leavers(xs[..k], sts[..k])
  }

  /** The free list after some turns, when it was F at first. */
  ghost function FreeAfter(xs: seq<ActionStack>, done: seq<Stack>, F: seq<ActionStack>): seq<ActionStack>
    requires |done| <= |xs|
  {
    Leavers(xs[..|done|], done) + F
  }

  lemma LeaversStep(xs: seq<ActionStack>, done: seq<Stack>, st: Stack, F: seq<ActionStack>)
    requires |done| < |xs|
    ensures FreeAfter(xs, done + [st], F) == (if st.frames == [] then [xs[|done|]] else []) + FreeAfter(xs, done, F)
  {
    var n := |done|;
    assert xs[..n + 1][..n] == xs[..n] && (done + [st])[..n] == done;
    var x := if st.frames == [] then [xs[n]] else [];
    assert Leavers(xs[..n + 1], done + [st]) == x + Leavers(xs[..n], done);
    assert x + Leavers(xs[..n], done) + F == x + (Leavers(xs[..n], done) + F);
  }

  /** The list after some turns: those that survived them, then those still to run. */
  ghost function ListAfter(xs: seq<ActionStack>, done: seq<Stack>): seq<ActionStack>
    requires |done| <= |xs|
  {
    Survivors(xs[..|done|], done) + xs[|done|..]
  }

  /** The list after one more turn, as the list edit that the turn makes. */
  lemma SurvivorsStep(xs: seq<ActionStack>, done: seq<Stack>, st: Stack)
    requires |done| < |xs|
    ensures var (n, list, m) := (|done|, ListAfter(xs, done), |Survivors(xs[..|done|], done)|);
            && m < |list| && list[m] == xs[n]
            && (m + 1 < |list| <==> n + 1 < |xs|) && (n + 1 < |xs| ==> list[m + 1] == xs[n + 1])
            && ListAfter(xs, done + [st]) == if st.frames == [] then Without(list, m) else list
  {
    var n := |done|;
    assert xs[..n + 1][..n] == xs[..n] && (done + [st])[..n] == done;
    assert Survivors(xs[..n + 1], done + [st]) == Survivors(xs[..n], done) + if st.frames == [] then [] else [xs[n]];
  }

  /** The position of the first stack with this id, or the length of the list. */
  ghost function IdIndex(xs: seq<ActionStack>, id: nat): (n: nat)
    reads xs`compId
    ensures n <= |xs| && (n < |xs| ==> xs[n].compId == id)
    ensures forall i :: 0 <= i < n ==> xs[i].compId != id
  {
    if xs == [] then 0 else if xs[0].compId == id then 0 else 1 + IdIndex(xs[1..], id)
  }

  lemma IdIndexIs(xs: seq<ActionStack>, id: nat, n: nat)
    requires n <= |xs| && (forall i :: 0 <= i < n ==> xs[i].compId != id)
    requires n < |xs| ==> xs[n].compId == id
    ensures IdIndex(xs, id) == n
  {
  }

  /** Killing a stack's own id ends that stack, unless a newer one has the same id. */
  lemma OwnIdEndsOwn(xs: seq<ActionStack>, n: nat)
    requires n < |xs|
    ensures IdIndex(xs, xs[n].compId) == n <==> Unused(xs[n].compId, xs[..n])
  {
    var k := IdIndex(xs, xs[n].compId);
    if k < n {
      assert xs[..n][k] == xs[k] && xs[k].compId == xs[n].compId;
    }
  }
}
