/**
 The bakery mutex of core/gps.c, for any number of tasks.  Every access to another
 task's entry of the shared arrays is a step of its own, so number[i] may change
 between the comparison and the assignment of the scan, and between the three reads of
 the wait condition.
 */
module Bakery {
  /** Where a task is in lock or unlock; i is the loop index. */
  datatype PC =
    | Idle
    | Scan(i: nat)           // about to compare number[i] with max
    | Reread(i: nat)         // about to assign number[i] to max
    | SetNumber              // about to take max + 1
    | ClearEntering
    | WaitEntering(i: nat)   // about to test entering[i]
    | TestZero(i: nat)       // about to test number[i] != 0
    | TestLess(i: nat)       // about to test number[i] < number[n_task]
    | TestEqual(i: nat)      // about to test number[i] == number[n_task]
    | Inside

  datatype Task = Task(pc: PC, max: nat) {
    predicate InRange(n: nat) {
      pc.Scan? || pc.Reread? || pc.WaitEntering? || pc.TestZero? || pc.TestLess? || pc.TestEqual? ==> pc.i < n
    }
  }

  datatype State = State(entering: seq<nat>, number: seq<nat>, tasks: seq<Task>) {
    function N(): nat {
      |tasks|
    }

    predicate Shaped() {
      && |entering| == |number| == |tasks|
      && (forall p :: 0 <= p < N() ==> tasks[p].InRange(N()))
    }
  }

  function Init(n: nat): State {
    State(seq(n, _ => 0), seq(n, _ => 0), seq(n, _ => Task(Idle, 0)))
  }

  function AfterScan(n: nat, i: nat): PC {
    if i + 1 < n then Scan(i + 1) else SetNumber
  }

  /** The second loop continues at i, skipping the task itself. */
  function WaitFrom(n: nat, p: nat, i: nat): PC {
    var j := if i == p then i + 1 else i;
    if j < n then WaitEntering(j) else Inside
  }

  function Go(s: State, p: nat, pc: PC): State
    requires p < s.N()
  {
    s.(tasks := s.tasks[p := s.tasks[p].(pc := pc)])
  }

  /** One step of task p. */
  function Step(s: State, p: nat): State
    requires s.Shaped() && p < s.N()
  {
    var n := s.N();
    match s.tasks[p].pc
    case Idle =>
      s.(entering := s.entering[p := 1], tasks := s.tasks[p := Task(Scan(0), 0)])
    case Scan(i) =>
      if s.number[i] > s.tasks[p].max then Go(s, p, Reread(i)) else Go(s, p, AfterScan(n, i))
    case Reread(i) =>
      s.(tasks := s.tasks[p := Task(AfterScan(n, i), s.number[i])])
    case SetNumber =>
      Go(s.(number := s.number[p := s.tasks[p].max + 1]), p, ClearEntering)
    case ClearEntering =>
      Go(s.(entering := s.entering[p := 0]), p, WaitFrom(n, p, 0))
    case WaitEntering(i) =>
      if s.entering[i] != 0 then s else Go(s, p, TestZero(i))
    case TestZero(i) =>
      if s.number[i] != 0 then Go(s, p, TestLess(i)) else Go(s, p, WaitFrom(n, p, i + 1))
    case TestLess(i) =>
      if s.number[i] < s.number[p] then Go(s, p, TestZero(i)) else Go(s, p, TestEqual(i))
    case TestEqual(i) =>
      if s.number[i] == s.number[p] && i < p then Go(s, p, TestZero(i)) else Go(s, p, WaitFrom(n, p, i + 1))
    case Inside =>
      Go(s.(number := s.number[p := 0]), p, Idle)
  }

  ghost predicate Schedule(sched: seq<nat>, n: nat) {
    forall k :: 0 <= k < |sched| ==> sched[k] < n
  }

  /** A step keeps the shape and touches no other task's entries. */
  lemma StepShaped(s: State, p: nat)
    requires s.Shaped() && p < s.N()
    ensures Step(s, p).Shaped() && Step(s, p).N() == s.N()
    ensures forall q :: 0 <= q < s.N() && q != p ==> Step(s, p).tasks[q] == s.tasks[q]
    ensures forall q :: 0 <= q < s.N() && q != p ==> Step(s, p).number[q] == s.number[q] && Step(s, p).entering[q] == s.entering[q]
  {
    var n := s.N();
    assert Step(s, p).tasks[p].InRange(n);
    forall q | 0 <= q < n
      ensures Step(s, p).tasks[q].InRange(n)
    {
      assert s.tasks[q].InRange(n);
    }
  }

  /** The state after the tasks have taken steps in the order of the schedule. */
  function Run(s: State, sched: seq<nat>): (s': State)
    requires s.Shaped() && Schedule(sched, s.N())
    ensures s'.Shaped() && s'.N() == s.N()
    decreases |sched|
  {
    if sched == [] then s
    else
      var r := Run(s, sched[..|sched| - 1]);
      StepShaped(r, sched[|sched| - 1]);
      Step(r, sched[|sched| - 1])
  }

  // ---- the invariant -------------------------------------------------------------------

  predicate Doorway(t: Task) {
    t.pc.Scan? || t.pc.Reread? || t.pc.SetNumber?
  }

  predicate Waiting(t: Task) {
    t.pc.WaitEntering? || t.pc.TestZero? || t.pc.TestLess? || t.pc.TestEqual?
  }

  predicate Ticketed(t: Task) {
    t.pc.ClearEntering? || Waiting(t) || t.pc.Inside?
  }

  /** The shared entries of a task say which phase it is in. */
  ghost predicate Consistent(s: State, p: nat)
    requires s.Shaped() && p < s.N()
  {
    var t := s.tasks[p];
    && s.entering[p] == (if Doorway(t) || t.pc.ClearEntering? then 1 else 0)
    && (Ticketed(t) <==> s.number[p] != 0)
    && (Waiting(t) ==> t.pc.i != p)
  }

  /** Task p has dealt with j in its second loop. */
  ghost predicate Passed(s: State, p: nat, j: nat)
    requires s.Shaped() && p < s.N()
  {
    s.tasks[p].pc.Inside? || (Waiting(s.tasks[p]) && j < s.tasks[p].pc.i)
  }

  /** Task p is past the test of entering[j]. */
  ghost predicate Near(s: State, p: nat, j: nat)
    requires s.Shaped() && p < s.N()
  {
    Passed(s, p, j) || (Waiting(s.tasks[p]) && !s.tasks[p].pc.WaitEntering? && s.tasks[p].pc.i == j)
  }

  /**
   Task j, in its doorway, is bound to take a number above p's: it has yet to look at p,
   or its maximum is already that high.  While j is about to assign number[i] the value
   may have changed since the comparison; it is still above p's number, because a task
   with a larger number than p's cannot leave while p waits.
   */
  ghost predicate Catches(s: State, j: nat, p: nat)
    requires s.Shaped() && j < s.N() && p < s.N()
  {
    match s.tasks[j].pc
    case Scan(i) => i <= p || s.number[p] <= s.tasks[j].max
    case Reread(i) => i <= p || (s.number[p] <= s.tasks[j].max && s.number[p] < s.number[i])
    case SetNumber => s.number[p] <= s.tasks[j].max
    case _ => true
  }

  ghost predicate Before(s: State, p: nat, j: nat)
    requires s.Shaped() && j < s.N() && p < s.N()
  {
    s.number[p] < s.number[j] || (s.number[p] == s.number[j] && p < j)
  }

  ghost predicate Pair(s: State, p: nat, j: nat)
    requires s.Shaped() && j < s.N() && p < s.N()
  {
    && (Near(s, p, j) && Doorway(s.tasks[j]) ==> Catches(s, j, p))
    && (Passed(s, p, j) && Ticketed(s.tasks[j]) ==> Before(s, p, j))
    && (s.tasks[p].pc == TestEqual(j) && Ticketed(s.tasks[j]) ==> s.number[p] <= s.number[j])
  }

  ghost predicate Inv(s: State) {
    && s.Shaped()
    && (forall p :: 0 <= p < s.N() ==> Consistent(s, p))
    && (forall p, j :: 0 <= p < s.N() && 0 <= j < s.N() && p != j ==> Pair(s, p, j))
  }

  lemma ConsistentKept(s: State, t: nat, p: nat)
    requires Inv(s) && t < s.N() && p < s.N()
    ensures Step(s, t).Shaped() && Consistent(Step(s, t), p)
  {
    StepShaped(s, t);
    assert Consistent(s, t) && Consistent(s, p);
  }

  /** p's own step keeps what it knows about j. */
  lemma PairKeptByFirst(s: State, p: nat, j: nat)
    requires Inv(s) && p < s.N() && j < s.N() && p != j
    ensures Step(s, p).Shaped() && Pair(Step(s, p), p, j)
  {
    StepShaped(s, p);
    assert Consistent(s, p) && Consistent(s, j) && Pair(s, p, j);
  }

  /** j's step in its doorway: it stays bound to take a larger number. */
  lemma CatchesKept(s: State, p: nat, j: nat)
    requires Inv(s) && p < s.N() && j < s.N() && p != j
    ensures Step(s, j).Shaped()
    ensures Near(Step(s, j), p, j) && Doorway(Step(s, j).tasks[j]) ==> Catches(Step(s, j), j, p)
  {
    StepShaped(s, j);
    assert Consistent(s, p) && Consistent(s, j) && Pair(s, p, j);
  }

  /** So does j's step: it takes a larger number. */
  lemma PairKeptBySecond(s: State, p: nat, j: nat)
    requires Inv(s) && p < s.N() && j < s.N() && p != j
    ensures Step(s, j).Shaped() && Pair(Step(s, j), p, j)
  {
    StepShaped(s, j);
    CatchesKept(s, p, j);
    assert Consistent(s, p) && Consistent(s, j) && Pair(s, p, j);
  }

  /** And a third task's: it cannot leave with a number above p's while p waits. */
  lemma PairKeptByThird(s: State, t: nat, p: nat, j: nat)
    requires Inv(s) && t < s.N() && p < s.N() && j < s.N() && p != j && t != p && t != j
    ensures Step(s, t).Shaped() && Pair(Step(s, t), p, j)
  {
    StepShaped(s, t);
    assert Consistent(s, t) && Consistent(s, p) && Pair(s, p, j) && Pair(s, t, p);
  }

  lemma StepInv(s: State, t: nat)
    requires Inv(s) && t < s.N()
    ensures Inv(Step(s, t))
  {
    StepShaped(s, t);
    forall p | 0 <= p < s.N()
      ensures Consistent(Step(s, t), p)
    {
      ConsistentKept(s, t, p);
    }
    forall p, j | 0 <= p < s.N() && 0 <= j < s.N() && p != j
      ensures Pair(Step(s, t), p, j)
    {
      if t == p {
        PairKeptByFirst(s, p, j);
      } else if t == j {
        PairKeptBySecond(s, p, j);
      } else {
        PairKeptByThird(s, t, p, j);
      }
    }
  }

  lemma {:induction false} RunInv(n: nat, sched: seq<nat>)
    requires Schedule(sched, n)
    ensures Inv(Run(Init(n), sched))
  {
    if sched != [] {
      RunInv(n, sched[..|sched| - 1]);
      StepInv(Run(Init(n), sched[..|sched| - 1]), sched[|sched| - 1]);
    }
  }

  /** Mutual exclusion: under no schedule are two tasks between lock and unlock. */
  lemma MutualExclusion(n: nat, sched: seq<nat>, p: nat, q: nat)
    requires Schedule(sched, n) && p < n && q < n && p != q
    ensures var s := Run(Init(n), sched); !(s.tasks[p].pc.Inside? && s.tasks[q].pc.Inside?)
  {
    RunInv(n, sched);
    var s := Run(Init(n), sched);
    assert Pair(s, p, q) && Pair(s, q, p);
  }

  // ---- first come, first served -----------------------------------------------------------

  /** p holds a number and q started, or will start, its doorway after p took it. */
  ghost predicate Ahead(s: State, p: nat, q: nat)
    requires s.Shaped() && q < s.N() && p < s.N()
  {
    && Ticketed(s.tasks[p])
    && (Doorway(s.tasks[q]) ==> Catches(s, q, p))
    && (Ticketed(s.tasks[q]) ==> s.number[p] < s.number[q])
  }

  lemma AheadKept(s: State, t: nat, p: nat, q: nat)
    requires Inv(s) && t < s.N() && p < s.N() && q < s.N() && p != q && Ahead(s, p, q)
    requires t == p ==> !s.tasks[p].pc.Inside?
    ensures Step(s, t).Shaped() && Ahead(Step(s, t), p, q)
  {
    hide Step, Inv, Ahead;
    if t == p {
      FirstKeepsAhead(s, p, q);
    } else if t == q {
      SecondKeepsAhead(s, p, q);
    } else {
      OtherKeepsAhead(s, t, p, q);
    }
  }

  lemma FirstKeepsAhead(s: State, p: nat, q: nat)
    requires Inv(s) && p < s.N() && q < s.N() && p != q && Ahead(s, p, q) && !s.tasks[p].pc.Inside?
    ensures Step(s, p).Shaped() && Ahead(Step(s, p), p, q)
  {
    StepShaped(s, p);
    assert Consistent(s, p) && Consistent(s, q);
    assert Step(s, p).number[p] == s.number[p];
  }

  lemma SecondKeepsAhead(s: State, p: nat, q: nat)
    requires Inv(s) && p < s.N() && q < s.N() && p != q && Ahead(s, p, q)
    ensures Step(s, q).Shaped() && Ahead(Step(s, q), p, q)
  {
    StepShaped(s, q);
    assert Consistent(s, p) && Consistent(s, q);
  }

  lemma OtherKeepsAhead(s: State, t: nat, p: nat, q: nat)
    requires Inv(s) && t < s.N() && p < s.N() && q < s.N() && p != q && t != p && t != q && Ahead(s, p, q)
    ensures Step(s, t).Shaped() && Ahead(Step(s, t), p, q)
  {
    StepShaped(s, t);
    assert Consistent(s, t) && Consistent(s, p) && Consistent(s, q) && Pair(s, t, p);
  }

  /** Task p does not leave its critical section during the schedule. */
  ghost predicate Holds(s: State, sched: seq<nat>, p: nat)
    requires s.Shaped() && Schedule(sched, s.N()) && p < s.N()
  {
    forall k :: 0 <= k < |sched| && sched[k] == p ==> !Run(s, sched[..k]).tasks[p].pc.Inside?
  }

  /**
   First come, first served: once p has its number and q is not yet in lock, q does not
   get inside before p has been inside and left.
   */
  lemma FirstComeFirstServed(n: nat, past: seq<nat>, sched: seq<nat>, p: nat, q: nat)
    requires Schedule(past, n) && Schedule(sched, n) && p < n && q < n && p != q
    requires var s := Run(Init(n), past);
             Ticketed(s.tasks[p]) && s.tasks[q].pc.Idle? && Holds(s, sched, p)
    ensures !Run(Run(Init(n), past), sched).tasks[q].pc.Inside?
  {
    var s := Run(Init(n), past);
    RunInv(n, past);
    StayAhead(s, sched, p, q);
    var r := Run(s, sched);
    assert Pair(r, q, p);
  }

  lemma {:induction false} StayAhead(s: State, sched: seq<nat>, p: nat, q: nat)
    requires Inv(s) && Schedule(sched, s.N()) && p < s.N() && q < s.N() && p != q
    requires Ahead(s, p, q) && Holds(s, sched, p)
    ensures Inv(Run(s, sched)) && Ahead(Run(s, sched), p, q)
  {
    if sched != [] {
      var k := |sched| - 1;
      var init := sched[..k];
      assert forall l :: 0 <= l < k ==> init[..l] == sched[..l];
      StayAhead(s, init, p, q);
      StepInv(Run(s, init), sched[k]);
      AheadKept(Run(s, init), sched[k], p, q);
    }
  }

  // ---- bounded overtaking -------------------------------------------------------------------

  /** How often task q is inside during the schedule, a stay at its beginning included. */
  ghost function Visits(s: State, sched: seq<nat>, q: nat): nat
    requires s.Shaped() && Schedule(sched, s.N()) && q < s.N()
  {
    if sched == [] then (if s.tasks[q].pc.Inside? then 1 else 0)
    else
      var init := sched[..|sched| - 1];
      Visits(s, init, q)
      + if !Run(s, init).tasks[q].pc.Inside? && Run(s, sched).tasks[q].pc.Inside? then 1 else 0
  }

  /** A step while p has its number: p keeps it, and a task that leaves is behind p. */
  lemma LeavesBehind(s: State, t: nat, p: nat, q: nat)
    requires Inv(s) && t < s.N() && p < s.N() && q < s.N() && p != q && Ticketed(s.tasks[p])
    requires t == p ==> !s.tasks[p].pc.Inside?
    ensures Step(s, t).Shaped() && Ticketed(Step(s, t).tasks[p])
    ensures t == q && s.tasks[q].pc.Inside? ==> Ahead(Step(s, t), p, q)
    ensures t != q ==> Step(s, t).tasks[q] == s.tasks[q]
  {
    StepShaped(s, t);
  }

  lemma BehindIsOutside(s: State, p: nat, q: nat)
    requires Inv(s) && p < s.N() && q < s.N() && p != q && Ahead(s, p, q)
    ensures !s.tasks[q].pc.Inside?
  {
    assert Pair(s, q, p);
  }

  /** While p has its number, another task is inside at most once; then it is behind p. */
  lemma {:induction false} OneVisit(s: State, sched: seq<nat>, p: nat, q: nat)
    requires Inv(s) && Schedule(sched, s.N()) && p < s.N() && q < s.N() && p != q
    requires Ticketed(s.tasks[p]) && Holds(s, sched, p)
    ensures var r := Run(s, sched);
            && Inv(r) && Ticketed(r.tasks[p]) && Visits(s, sched, q) <= 1
            && (Visits(s, sched, q) == 1 ==> r.tasks[q].pc.Inside? || Ahead(r, p, q))
  {
    hide Step, Consistent, Pair, Ahead, Ticketed;
    if sched != [] {
      var k := |sched| - 1;
      var init := sched[..k];
      assert forall l :: 0 <= l < k ==> init[..l] == sched[..l];
      OneVisit(s, init, p, q);
      var (r, t) := (Run(s, init), sched[k]);
      StepInv(r, t);
      StepShaped(r, t);
      LeavesBehind(r, t, p, q);
      if Ahead(r, p, q) {
        AheadKept(r, t, p, q);
        BehindIsOutside(Step(r, t), p, q);
      }
    }
  }

  /** The visits of tasks 0 to m - 1 other than p. */
  ghost function OtherVisits(s: State, sched: seq<nat>, p: nat, m: nat): nat
    requires s.Shaped() && Schedule(sched, s.N()) && m <= s.N()
  {
    if m == 0 then 0 else OtherVisits(s, sched, p, m - 1) + if m - 1 == p then 0 else Visits(s, sched, m - 1)
  }

  /**
   Bounded overtaking: from the moment p has its number until it has been inside and left,
   every other task is inside at most once, and so they are at most n - 1 times together.
   */
  lemma BoundedOvertaking(n: nat, past: seq<nat>, sched: seq<nat>, p: nat)
    requires Schedule(past, n) && Schedule(sched, n) && p < n
    requires var s := Run(Init(n), past); Ticketed(s.tasks[p]) && Holds(s, sched, p)
    ensures var s := Run(Init(n), past);
            && (forall q :: 0 <= q < n && q != p ==> Visits(s, sched, q) <= 1)
            && OtherVisits(s, sched, p, n) <= n - 1
  {
    hide Inv, Visits, Run, Holds, Ticketed;
    RunInv(n, past);
    var s := Run(Init(n), past);
    forall q | 0 <= q < n && q != p
      ensures Visits(s, sched, q) <= 1
    {
      OneVisit(s, sched, p, q);
    }
    VisitsAddUp(s, sched, p, n);
  }

  lemma {:induction false} VisitsAddUp(s: State, sched: seq<nat>, p: nat, m: nat)
    requires s.Shaped() && Schedule(sched, s.N()) && m <= s.N()
    requires forall q :: 0 <= q < m && q != p ==> Visits(s, sched, q) <= 1
    ensures OtherVisits(s, sched, p, m) + (if p < m then 1 else 0) <= m
  {
    if m > 0 {
      VisitsAddUp(s, sched, p, m - 1);
    }
  }

  // ---- progress ----------------------------------------------------------------------------

  /**
   An upper bound on the steps task p needs to get inside when no test makes it wait.
   A task that finds number[i] cleared at its second test repeats the first one.
   */
  ghost function Rank(s: State, p: nat): int
    requires s.Shaped() && p < s.N() && s.tasks[p].InRange(s.N())
  {
    var n := s.N();
    match s.tasks[p].pc
    case Idle => 0
    case Scan(i) => 6 * n + 2 + 2 * (n - i)
    case Reread(i) => 6 * n + 1 + 2 * (n - i)
    case SetNumber => 6 * n + 2
    case ClearEntering => 6 * n + 1
    case WaitEntering(i) => 6 * (n - i)
    case TestZero(i) => 6 * (n - i) - 2
    case TestLess(i) => 6 * (n - i) - if s.number[i] == 0 then 1 else 3
    case TestEqual(i) => 6 * (n - i) - 4
    case Inside => 0
  }

  ghost predicate Busy(s: State, p: nat)
    requires p < s.N()
  {
    !s.tasks[p].pc.Idle? && !s.tasks[p].pc.Inside?
  }

  /** p is as early in the waiting order as any waiting task below m. */
  ghost predicate First(s: State, p: nat, m: nat)
    requires s.Shaped() && p < s.N() && m <= s.N()
  {
    Waiting(s.tasks[p]) && forall j :: 0 <= j < m && j != p && Waiting(s.tasks[j]) ==> Before(s, p, j)
  }

  lemma {:induction false} FirstExists(s: State, q: nat, m: nat) returns (p: nat)
    requires s.Shaped() && q < s.N() && Waiting(s.tasks[q]) && m <= s.N()
    ensures p < s.N() && First(s, p, m)
  {
    if m == 0 {
      p := q;
    } else {
      p := FirstExists(s, q, m - 1);
      if Waiting(s.tasks[m - 1]) && m - 1 != p && !Before(s, p, m - 1) {
        p := m - 1;
      }
    }
  }

  /** The step of a task in its doorway, or of the first waiting task, is an advance. */
  lemma Advances(s: State, p: nat)
    requires Inv(s) && p < s.N() && Busy(s, p)
    requires Waiting(s.tasks[p]) ==>
               && First(s, p, s.N())
               && forall j :: 0 <= j < s.N() ==> s.tasks[j].pc.Idle? || Waiting(s.tasks[j])
    ensures Step(s, p).Shaped() && Step(s, p).N() == s.N() && Step(s, p).tasks[p].InRange(s.N())
    ensures Rank(Step(s, p), p) < Rank(s, p)
  {
    StepShaped(s, p);
    assert s.tasks[p].InRange(s.N()) && Step(s, p).tasks[p].InRange(s.N());
    assert Consistent(s, p);
    if Waiting(s.tasks[p]) {
      var j := s.tasks[p].pc.i;
      assert Consistent(s, j);
    }
  }

  /** Whenever some task is in lock and none is inside, some task can advance. */
  lemma SomeTaskAdvances(s: State, q: nat) returns (p: nat)
    requires Inv(s) && q < s.N() && Busy(s, q)
    requires forall j :: 0 <= j < s.N() ==> !s.tasks[j].pc.Inside?
    ensures p < s.N() && Busy(s, p)
    ensures Step(s, p).Shaped() && Step(s, p).N() == s.N() && Step(s, p).tasks[p].InRange(s.N())
    ensures Rank(Step(s, p), p) < Rank(s, p)
  {
    if d :| 0 <= d < s.N() && (Doorway(s.tasks[d]) || s.tasks[d].pc.ClearEntering?) {
      p := d;
    } else {
      p := FirstExists(s, q, s.N());
    }
    Advances(s, p);
  }

  /** The steps left for tasks 0 to m - 1 together. */
  ghost function TotalRank(s: State, m: nat): int
    requires s.Shaped() && m <= s.N()
  {
    if m == 0 then 0 else
      assert s.tasks[m - 1].InRange(s.N());
      TotalRank(s, m - 1) + Rank(s, m - 1)
  }

  lemma {:induction false} TotalRankNonNegative(s: State, m: nat)
    requires s.Shaped() && m <= s.N()
    ensures 0 <= TotalRank(s, m)
  {
    if m > 0 {
      TotalRankNonNegative(s, m - 1);
      assert s.tasks[m - 1].InRange(s.N());
    }
  }

  /** A busy task's step brings no other task further from the inside. */
  lemma OthersNoFurther(s: State, a: nat, q: nat)
    requires Inv(s) && a < s.N() && q < s.N() && q != a && Busy(s, a)
    ensures Step(s, a).Shaped() && Step(s, a).N() == s.N()
    ensures s.tasks[q].InRange(s.N()) && Step(s, a).tasks[q].InRange(s.N()) && Rank(Step(s, a), q) <= Rank(s, q)
  {
    StepShaped(s, a);
    assert Consistent(s, a) && s.tasks[q].InRange(s.N());
  }

  /** No task is further from the inside in s', and a is nearer. */
  ghost predicate Nearer(s: State, s': State, a: nat)
    requires s.Shaped() && s'.Shaped() && s'.N() == s.N() && a < s.N()
  {
    forall q :: 0 <= q < s.N() ==>
                  s.tasks[q].InRange(s.N()) && s'.tasks[q].InRange(s.N())
                  && Rank(s', q) <= Rank(s, q) && (q == a ==> Rank(s', q) < Rank(s, q))
  }

  lemma {:induction false} TotalRankDrops(s: State, s': State, a: nat, m: nat)
    requires s.Shaped() && s'.Shaped() && s'.N() == s.N() && a < s.N() && m <= s.N()
    requires Nearer(s, s', a)
    ensures TotalRank(s', m) <= TotalRank(s, m)
    ensures a < m ==> TotalRank(s', m) < TotalRank(s, m)
  {
    hide Rank;
    if m > 0 {
      TotalRankDrops(s, s', a, m - 1);
    }
  }

  lemma {:induction false} RunFirst(s: State, p: nat, sched: seq<nat>)
    requires s.Shaped() && p < s.N() && Schedule(sched, s.N())
    ensures Step(s, p).Shaped() && Step(s, p).N() == s.N()
    ensures Schedule([p] + sched, s.N()) && Run(s, [p] + sched) == Run(Step(s, p), sched)
  {
    StepShaped(s, p);
    if sched == [] {
      assert [p] + sched == [p];
      assert [p][..0] == [];
    } else {
      var k := |sched| - 1;
      RunFirst(s, p, sched[..k]);
      assert ([p] + sched)[..k + 1] == [p] + sched[..k];
    }
  }

  lemma RankDrops(s: State, a: nat)
    requires Inv(s) && a < s.N() && Busy(s, a)
    requires Step(s, a).Shaped() && Step(s, a).N() == s.N() && Step(s, a).tasks[a].InRange(s.N())
    requires Rank(Step(s, a), a) < Rank(s, a)
    ensures 0 <= TotalRank(Step(s, a), s.N()) < TotalRank(s, s.N())
  {
    hide Step, Rank;
    var s' := Step(s, a);
    TotalRankNonNegative(s', s.N());
    forall q | 0 <= q < s.N() && q != a
      ensures s.tasks[q].InRange(s.N()) && s'.tasks[q].InRange(s.N()) && Rank(s', q) <= Rank(s, q)
    {
      OthersNoFurther(s, a, q);
    }
    TotalRankDrops(s, s', a, s.N());
  }

  /**
   No deadlock: from every reachable state in which a task is in lock and none is inside,
   steps of the tasks already in lock alone bring one of them inside.
   */
  lemma {:induction false} SomeTaskEnters(s: State, q: nat) returns (sched: seq<nat>, p: nat)
    requires Inv(s) && q < s.N() && Busy(s, q)
    ensures Schedule(sched, s.N()) && p < s.N()
    ensures forall k :: 0 <= k < |sched| ==> !s.tasks[sched[k]].pc.Idle?
    ensures Run(s, sched).tasks[p].pc.Inside?
    decreases TotalRank(s, s.N())
  {
    hide Step, Rank, TotalRank;
    if d :| 0 <= d < s.N() && s.tasks[d].pc.Inside? {
      return [], d;
    }
    var a := SomeTaskAdvances(s, q);
    var s' := Step(s, a);
    StepInv(s, a);
    RankDrops(s, a);
    var rest: seq<nat>;
    if s'.tasks[a].pc.Inside? {
      rest, p := [], a;
    } else {
      BusyStays(s, a);
      rest, p := SomeTaskEnters(s', a);
    }
    sched := [a] + rest;
    RunFirst(s, a, rest);
  }

  lemma BusyStays(s: State, a: nat)
    requires s.Shaped() && a < s.N() && Busy(s, a)
    ensures !Step(s, a).tasks[a].pc.Idle?
    ensures forall q :: 0 <= q < s.N() && q != a ==> Step(s, a).tasks[q] == s.tasks[q]
  {
    StepShaped(s, a);
  }
}
