/** The park/wake protocol of `block_on`: one polling thread and any number of waker threads, every
    interleaving of their atomic steps. */
module Executor {
  import opened Options

  datatype Thread = Poller | Waker(index: nat)

  /** Where the polling thread is.  `In…`, `Leave…`, `Checking`, `AtWait` and `SelfNotifying` hold the lock. */
  datatype PollerAt =
    | AtClear | InClear | LeaveClear
    | AtPoll
    | Pending(selfWakes: nat)
    | AtSelfWake(selfWakes: nat) | InSelfWake(selfWakes: nat) | SelfNotifying(selfWakes: nat)
    | LeaveSelfWake(selfWakes: nat)
    | AtPark | Checking | AtWait | Blocked | Woken | LeavePark
    | DropsWaker | DropsParker | Done

  /** How far a waker thread is with its readiness: not stored, stored, or stored and signalled. */
  datatype Phase = Before | Stored | Signalled

  /** Where a waker thread is.  `left` bounds its calls of `wake_by_ref`; a wake by value gives up
      the waker.  `InWake`, `Notifying` and `LeaveWake` hold the lock. */
  datatype WakerAt =
    | Unborn(left: nat)
    | Holding(left: nat, phase: Phase)
    | AtWake(left: nat, phase: Phase, byValue: bool)
    | InWake(left: nat, phase: Phase, byValue: bool)
    | Notifying(left: nat, phase: Phase, byValue: bool)
    | LeaveWake(left: nat, phase: Phase, byValue: bool)
    | Dropping(phase: Phase)
    | Gone(phase: Phase)

  /** `notified` and its lock, the readiness the future waits for, and the strong count of the parker. */
  datatype State = State(poller: PollerAt, wakers: seq<WakerAt>, holder: Option<Thread>, notified: bool, ready: bool,
                         strong: nat, freed: bool)

  datatype Step =
    | ClearLock | ClearStore | ClearUnlock
    | PollReady | PollPending(selfWakes: nat) | GiveWaker(target: nat) | EnterPark
    | SelfWake | SelfLock | SelfSet | SelfNotify | SelfUnlock
    | ParkLock | ParkCheck | ParkWait | ParkSpurious | ParkRelock | ParkUnlock
    | DropContext | DropParker
    | StoreReady(index: nat) | WakeByRef(index: nat) | WakeByValue(index: nat)
    | WakeLock(index: nat) | WakeSet(index: nat) | WakeNotify(index: nat) | WakeUnlock(index: nat)
    | DropWaker(index: nat) | DropArc(index: nat) | CloneWaker(index: nat, target: nat)

  function PhaseOf(waker: WakerAt): Phase {
    if waker.Unborn? then Before else waker.phase
  }

  /** The start of `block_on`: the parker and the context's waker are the two owners. */
  function Start(budgets: seq<nat>): State {
    State(AtClear, seq(|budgets|, i requires 0 <= i < |budgets| => Unborn(budgets[i])), None, false, false, 2, false)
  }

  predicate Enabled(s: State, step: Step) {
    match step
    case ClearLock => s.poller.AtClear? && s.holder.None?
    case ClearStore => s.poller.InClear?
    case ClearUnlock => s.poller.LeaveClear?
    case PollReady => s.poller.AtPoll?
    case PollPending(_) => s.poller.AtPoll? && !s.ready
    case GiveWaker(target) => s.poller.Pending? && target < |s.wakers| && s.wakers[target].Unborn?
    case EnterPark => s.poller.Pending?
    case SelfWake => s.poller.Pending? && s.poller.selfWakes > 0
    case SelfLock => s.poller.AtSelfWake? && s.holder.None?
    case SelfSet => s.poller.InSelfWake?
    case SelfNotify => s.poller.SelfNotifying?
    case SelfUnlock => s.poller.LeaveSelfWake?
    case ParkLock => s.poller.AtPark? && s.holder.None?
    case ParkCheck => s.poller.Checking?
    case ParkWait => s.poller.AtWait?
    case ParkSpurious => s.poller.Blocked?
    case ParkRelock => s.poller.Woken? && s.holder.None?
    case ParkUnlock => s.poller.LeavePark?
    case DropContext => s.poller.DropsWaker?
    case DropParker => s.poller.DropsParker?
    case StoreReady(i) => i < |s.wakers| && s.wakers[i].Holding? && s.wakers[i].phase.Before?
    case WakeByRef(i) => i < |s.wakers| && s.wakers[i].Holding? && s.wakers[i].left > 0
    case WakeByValue(i) => i < |s.wakers| && s.wakers[i].Holding?
    case WakeLock(i) => i < |s.wakers| && s.wakers[i].AtWake? && s.holder.None?
    case WakeSet(i) => i < |s.wakers| && s.wakers[i].InWake?
    case WakeNotify(i) => i < |s.wakers| && s.wakers[i].Notifying?
    case WakeUnlock(i) => i < |s.wakers| && s.wakers[i].LeaveWake?
    case DropWaker(i) => i < |s.wakers| && s.wakers[i].Holding? && !s.wakers[i].phase.Stored?
    case DropArc(i) => i < |s.wakers| && s.wakers[i].Dropping?
    case CloneWaker(i, target) =>
      i < |s.wakers| && s.wakers[i].Holding? && target < |s.wakers| && s.wakers[target].Unborn?
  }

  /** `Arc` bookkeeping: one owner fewer, and the parker is freed with the last. */
  function Release(s: State): State {
    var strong := if s.strong > 0 then s.strong - 1 else 0;
    s.(strong := strong, freed := s.freed || strong == 0)
  }

  function Move(s: State, i: nat, waker: WakerAt): State
    requires i < |s.wakers|
  {
    s.(wakers := s.wakers[i := waker])
  }

  function Arm(s: State, target: nat): State
    requires target < |s.wakers| && s.wakers[target].Unborn?
  {
    Move(s, target, Holding(s.wakers[target].left, Before)).(strong := s.strong + 1)
  }

  function Apply(s: State, step: Step): State
    requires Enabled(s, step)
  {
    match step
    case ClearLock => s.(poller := InClear, holder := Some(Poller))
    case ClearStore => s.(poller := LeaveClear, notified := false)
    case ClearUnlock => s.(poller := AtPoll, holder := None)
    case PollReady => s.(poller := DropsWaker)
    case PollPending(selfWakes) => s.(poller := Pending(selfWakes))
    case GiveWaker(target) => Arm(s, target)
    case EnterPark => s.(poller := AtPark)
    case SelfWake => s.(poller := AtSelfWake(s.poller.selfWakes - 1))
    case SelfLock => s.(poller := InSelfWake(s.poller.selfWakes), holder := Some(Poller))
    case SelfSet => s.(poller := SelfNotifying(s.poller.selfWakes), notified := true)
    case SelfNotify => s.(poller := LeaveSelfWake(s.poller.selfWakes))
    case SelfUnlock => s.(poller := Pending(s.poller.selfWakes), holder := None)
    case ParkLock => s.(poller := Checking, holder := Some(Poller))
    case ParkCheck => s.(poller := if s.notified then LeavePark else AtWait)
    case ParkWait => s.(poller := Blocked, holder := None)
    case ParkSpurious => s.(poller := Woken)
    case ParkRelock => s.(poller := Checking, holder := Some(Poller))
    case ParkUnlock => s.(poller := AtClear, holder := None)
    case DropContext => Release(s).(poller := DropsParker)
    case DropParker => Release(s).(poller := Done)
    case StoreReady(i) => Move(s, i, Holding(s.wakers[i].left, Stored)).(ready := true)
    case WakeByRef(i) => Move(s, i, AtWake(s.wakers[i].left - 1, s.wakers[i].phase, false))
    case WakeByValue(i) => Move(s, i, AtWake(s.wakers[i].left, s.wakers[i].phase, true))
    case WakeLock(i) =>
      Move(s, i, InWake(s.wakers[i].left, s.wakers[i].phase, s.wakers[i].byValue)).(holder := Some(Waker(i)))
    case WakeSet(i) =>
      var phase := if s.wakers[i].phase.Before? then Before else Signalled;
      Move(s, i, Notifying(s.wakers[i].left, phase, s.wakers[i].byValue)).(notified := true)
    case WakeNotify(i) =>
      Move(s, i, LeaveWake(s.wakers[i].left, s.wakers[i].phase, s.wakers[i].byValue))
      .(poller := if s.poller.Blocked? then Woken else s.poller)
    case WakeUnlock(i) =>
      Move(s, i,
           if s.wakers[i].byValue then Dropping(s.wakers[i].phase) else Holding(s.wakers[i].left, s.wakers[i].phase))
      .(holder := None)
    case DropWaker(i) => Move(s, i, Dropping(s.wakers[i].phase))
    case DropArc(i) => Release(Move(s, i, Gone(s.wakers[i].phase)))
    case CloneWaker(_, target) => Arm(s, target)
  }

  // ---- runs ----

  /** The state after a run, if every step of it could be taken. */
  function Run(s: State, steps: seq<Step>): Option<State>
    decreases |steps|
  {
    if steps == [] then Some(s)
    else if Enabled(s, steps[0]) then Run(Apply(s, steps[0]), steps[1..])
    else None
  }

  ghost predicate Reachable(s: State) {
    exists budgets: seq<nat>, steps: seq<Step> :: Run(Start(budgets), steps) == Some(s)
  }

  // ---- what every step keeps ----

  predicate PollerHolds(at: PollerAt) {
    at.InClear? || at.LeaveClear? || at.InSelfWake? || at.SelfNotifying? || at.LeaveSelfWake? || at.Checking?
    || at.AtWait?
    || at.LeavePark?
  }

  predicate WakerHolds(at: WakerAt) {
    at.InWake? || at.Notifying? || at.LeaveWake?
  }

  /** The lock has at most one holder, and it is the thread inside the critical section. */
  ghost predicate Exclusive(s: State) {
    && (s.holder == Some(Poller) <==> PollerHolds(s.poller))
    && (forall i: nat :: i < |s.wakers| ==> (s.holder == Some(Waker(i)) <==> WakerHolds(s.wakers[i])))
    && (s.holder.Some? && s.holder.value.Waker? ==> s.holder.value.index < |s.wakers|)
  }

  /** The poll to come will see whatever is ready now. */
  predicate PollsNext(at: PollerAt) {
    at.AtClear? || at.InClear? || at.LeaveClear? || at.AtPoll?
  }

  predicate Leaving(at: PollerAt) {
    at.DropsWaker? || at.DropsParker? || at.Done?
  }

  ghost predicate AnyStored(wakers: seq<WakerAt>) {
    exists i :: 0 <= i < |wakers| && !PhaseOf(wakers[i]).Before?
  }

  ghost predicate AnySignalled(wakers: seq<WakerAt>) {
    exists i :: 0 <= i < |wakers| && PhaseOf(wakers[i]).Signalled?
  }

  ghost predicate AnyNotifying(wakers: seq<WakerAt>) {
    exists i :: 0 <= i < |wakers| && wakers[i].Notifying?
  }

  /** Readiness is what some thread has stored; a signalled one is not forgotten before a poll sees it. */
  ghost predicate Remembered(s: State) {
    && (s.ready <==> AnyStored(s.wakers))
    && (AnySignalled(s.wakers) ==> s.notified || PollsNext(s.poller) || Leaving(s.poller))
    && (s.poller.LeavePark? ==> s.notified)
    && (s.poller.AtWait? ==> !s.notified)
  }

  /** A blocked poller with the flag up is about to be notified. */
  ghost predicate AboutToNotify(s: State) {
    s.poller.Blocked? && s.notified ==> AnyNotifying(s.wakers)
  }

  function PollerRefs(at: PollerAt): nat {
    if at.Done? then 0 else if at.DropsParker? then 1 else 2
  }

  function WakerRefs(at: WakerAt): nat {
    if at.Unborn? || at.Gone? then 0 else 1
  }

  function AllRefs(wakers: seq<WakerAt>): nat {
    if wakers == [] then 0 else WakerRefs(wakers[0]) + AllRefs(wakers[1..])
  }

  /** The strong count is the number of owners, and the parker lives as long as it has one. */
  ghost predicate Counted(s: State) {
    s.strong == PollerRefs(s.poller) + AllRefs(s.wakers) && (s.freed <==> s.strong == 0)
  }

  /** A thread that stores readiness does not give up its waker before it has set the flag. */
  predicate KeepsPromise(at: WakerAt) {
    at.Notifying? || at.LeaveWake? || at.Dropping? || at.Gone? ==> !at.phase.Stored?
  }

  ghost predicate Promised(s: State) {
    forall i :: 0 <= i < |s.wakers| ==> KeepsPromise(s.wakers[i])
  }

  ghost predicate Safe(s: State) {
    Exclusive(s) && Remembered(s) && AboutToNotify(s) && Counted(s) && Promised(s)
  }

  lemma {:induction false} RefsAfterMove(wakers: seq<WakerAt>, i: nat, waker: WakerAt)
    requires i < |wakers|
    ensures AllRefs(wakers[i := waker]) == AllRefs(wakers) - WakerRefs(wakers[i]) + WakerRefs(waker)
    ensures AllRefs(wakers) >= WakerRefs(wakers[i])
  {
    if i > 0 {
      RefsAfterMove(wakers[1..], i - 1, waker);
      assert wakers[i := waker][1..] == wakers[1..][i - 1 := waker];
    } else {
      assert wakers[i := waker][1..] == wakers[1..];
    }
  }

  /** The one waker thread a step changes. */
  function Mover(step: Step): Option<nat> {
    match step
    case GiveWaker(target) => Some(target)
    case CloneWaker(_, target) => Some(target)
    case StoreReady(i) => Some(i)
    case WakeByRef(i) => Some(i)
    case WakeByValue(i) => Some(i)
    case WakeLock(i) => Some(i)
    case WakeSet(i) => Some(i)
    case WakeNotify(i) => Some(i)
    case WakeUnlock(i) => Some(i)
    case DropWaker(i) => Some(i)
    case DropArc(i) => Some(i)
    case _ => None
  }

  lemma OthersStay(s: State, step: Step)
    requires Enabled(s, step)
    ensures match Mover(step)
            case None => Apply(s, step).wakers == s.wakers
            case Some(i) =>
              i < |s.wakers| && i < |Apply(s, step).wakers|
              && Apply(s, step).wakers == s.wakers[i := Apply(s, step).wakers[i]]
  {
  }

  lemma AnyAfterMove(wakers: seq<WakerAt>, i: nat, waker: WakerAt)
    requires i < |wakers|
    ensures var moved := wakers[i := waker];
            && (AnyStored(moved) ==> AnyStored(wakers) || !PhaseOf(waker).Before?)
            && (!PhaseOf(waker).Before? ==> AnyStored(moved))
            && (AnyStored(wakers) && PhaseOf(wakers[i]).Before? ==> AnyStored(moved))
            && (AnySignalled(moved) ==> AnySignalled(wakers) || PhaseOf(waker).Signalled?)
            && (!PhaseOf(wakers[i]).Before? ==> AnyStored(wakers))
            && (PhaseOf(wakers[i]).Signalled? ==> AnySignalled(wakers))
            && (waker.Notifying? ==> AnyNotifying(moved))
            && (AnyNotifying(wakers) && !wakers[i].Notifying? ==> AnyNotifying(moved))
  {
    var moved := wakers[i := waker];
    assert moved[i] == waker;
    assert forall k :: 0 <= k < |wakers| && k != i ==> moved[k] == wakers[k];
    if AnyStored(moved) {
      var k :| 0 <= k < |moved| && !PhaseOf(moved[k]).Before?;
      assert k != i ==> !PhaseOf(wakers[k]).Before?;
    }
    if AnyStored(wakers) {
      var k :| 0 <= k < |wakers| && !PhaseOf(wakers[k]).Before?;
      assert k != i ==> !PhaseOf(moved[k]).Before?;
    }
    if AnySignalled(moved) {
      var k :| 0 <= k < |moved| && PhaseOf(moved[k]).Signalled?;
      assert k != i ==> PhaseOf(wakers[k]).Signalled?;
    }
    if AnyNotifying(wakers) {
      var k :| 0 <= k < |wakers| && wakers[k].Notifying?;
      assert k != i ==> moved[k].Notifying?;
    }
  }

  lemma WakerKeepsLock(s: State, step: Step)
    requires Exclusive(s) && Enabled(s, step) && Mover(step).Some?
    ensures Exclusive(Apply(s, step))
  {
    OthersStay(s, step);
    var moved := Apply(s, step);
    var i := Mover(step).value;
    assert forall k: nat :: k < |s.wakers| && k != i ==> moved.wakers[k] == s.wakers[k];
  }

  lemma StepKeepsLock(s: State, step: Step)
    requires Exclusive(s) && Enabled(s, step)
    ensures Exclusive(Apply(s, step))
  {
    if Mover(step).Some? {
      WakerKeepsLock(s, step);
    }
  }

  lemma SignalledIsStored(wakers: seq<WakerAt>)
    ensures AnySignalled(wakers) ==> AnyStored(wakers)
  {
  }

  lemma StepRemembers(s: State, step: Step)
    requires Exclusive(s) && Remembered(s) && Enabled(s, step)
    ensures Remembered(Apply(s, step))
  {
    hide AnyStored, AnySignalled, AnyNotifying;
    OthersStay(s, step);
    if Mover(step).Some? {
      AnyAfterMove(s.wakers, Mover(step).value, Apply(s, step).wakers[Mover(step).value]);
    }
    SignalledIsStored(s.wakers);
  }

  lemma StepNotifies(s: State, step: Step)
    requires Exclusive(s) && Remembered(s) && AboutToNotify(s) && Enabled(s, step)
    ensures AboutToNotify(Apply(s, step))
  {
    hide AnyStored, AnySignalled, AnyNotifying;
    OthersStay(s, step);
    if Mover(step).Some? {
      AnyAfterMove(s.wakers, Mover(step).value, Apply(s, step).wakers[Mover(step).value]);
    }
  }

  lemma RefsChange(s: State, step: Step)
    requires Enabled(s, step) && Mover(step).Some?
    ensures var i := Mover(step).value;
            && i < |s.wakers| && i < |Apply(s, step).wakers|
            && AllRefs(Apply(s, step).wakers)
               == AllRefs(s.wakers) - WakerRefs(s.wakers[i]) + WakerRefs(Apply(s, step).wakers[i])
            && AllRefs(s.wakers) >= WakerRefs(s.wakers[i])
  {
    hide AllRefs, WakerRefs, Apply, Enabled;
    OthersStay(s, step);
    RefsAfterMove(s.wakers, Mover(step).value, Apply(s, step).wakers[Mover(step).value]);
  }

  lemma WakerCounts(s: State, step: Step)
    requires Counted(s) && Enabled(s, step) && Mover(step).Some?
    ensures Counted(Apply(s, step))
  {
    hide AllRefs;
    RefsChange(s, step);
    if step.CloneWaker? {
      RefsAfterMove(s.wakers, step.index, s.wakers[step.index]);
    }
  }

  lemma StepCounts(s: State, step: Step)
    requires Counted(s) && Enabled(s, step)
    ensures Counted(Apply(s, step))
  {
    hide AllRefs;
    if Mover(step).Some? {
      WakerCounts(s, step);
    }
  }

  lemma StepKeepsPromise(s: State, step: Step)
    requires Promised(s) && Enabled(s, step)
    ensures Promised(Apply(s, step))
  {
    OthersStay(s, step);
  }

  lemma StepIsSafe(s: State, step: Step)
    requires Safe(s) && Enabled(s, step)
    ensures Safe(Apply(s, step))
  {
    hide Exclusive, Remembered, AboutToNotify, Counted, Promised, Enabled, Apply;
    StepKeepsLock(s, step);
    StepRemembers(s, step);
    StepNotifies(s, step);
    StepCounts(s, step);
    StepKeepsPromise(s, step);
  }

  lemma {:induction false} UnbornRefs(wakers: seq<WakerAt>)
    requires forall i :: 0 <= i < |wakers| ==> wakers[i].Unborn?
    ensures AllRefs(wakers) == 0
  {
    if wakers != [] {
      UnbornRefs(wakers[1..]);
    }
  }

  lemma StartIsSafe(budgets: seq<nat>)
    ensures Safe(Start(budgets))
  {
    UnbornRefs(Start(budgets).wakers);
  }

  lemma {:induction false} RunIsSafe(s: State, steps: seq<Step>)
    requires Safe(s) && Run(s, steps).Some?
    ensures Safe(Run(s, steps).value)
    decreases |steps|
  {
    hide Safe, Apply, Enabled;
    if steps != [] {
      StepIsSafe(s, steps[0]);
      RunIsSafe(Apply(s, steps[0]), steps[1..]);
    }
  }

  lemma ReachableIsSafe(s: State)
    requires Reachable(s)
    ensures Safe(s)
  {
    hide Safe, Run;
    var budgets, steps :| Run(Start(budgets), steps) == Some(s);
    StartIsSafe(budgets);
    RunIsSafe(Start(budgets), steps);
  }

  // ---- no lost wake-up ----

  /** Thread `i` has stored readiness and its wake has returned from `Parker::wake`. */
  predicate WakeCompleted(s: State, i: nat) {
    i < |s.wakers| && PhaseOf(s.wakers[i]).Signalled? && !WakerHolds(s.wakers[i])
  }

  /** Once some wake has completed after its store, the poller is on its way to a poll that sees it,
      or it has already returned, or the flag is up, and a poller still blocked under the raised
      flag is about to be notified by the thread that holds the lock. */
  lemma NoLostWakeUp(s: State, i: nat)
    requires Reachable(s) && WakeCompleted(s, i)
    ensures s.ready
    ensures s.notified || PollsNext(s.poller) || Leaving(s.poller)
    ensures !(s.poller.Blocked? && !s.notified)
    ensures s.poller.Blocked? ==>
              exists k: nat :: s.holder == Some(Waker(k)) && k < |s.wakers| && s.wakers[k].Notifying?
  {
    hide Reachable;
    ReachableIsSafe(s);
    assert AnySignalled(s.wakers) && AnyStored(s.wakers);
    if s.poller.Blocked? {
      var k :| 0 <= k < |s.wakers| && s.wakers[k].Notifying?;
      assert s.holder == Some(Waker(k));
    }
  }

  /** `park` returns only with the flag up, and it holds the lock when it sees that; a spurious
      return goes back to the test. */
  lemma ParkEndsNotified(s: State, step: Step)
    requires Reachable(s) && Enabled(s, step)
    ensures Apply(s, step).poller.LeavePark? && !s.poller.LeavePark? ==>
              s.poller.Checking? && s.notified && s.holder == Some(Poller)
    ensures s.poller.LeavePark? ==> s.notified && s.holder == Some(Poller)
    ensures step.ParkSpurious? ==> Apply(s, step).poller.Woken? && Apply(s, step).notified == s.notified
  {
    hide Reachable;
    ReachableIsSafe(s);
  }

  predicate Raises(step: Step) {
    step.WakeSet? || step.SelfSet?
  }

  /** Between a moment with the flag down and a return from `park` some thread has set the flag,
      however many spurious returns the run contains. */
  lemma {:induction false} ParkNeedsWake(s: State, steps: seq<Step>)
    requires Safe(s) && !s.notified && Run(s, steps).Some? && Run(s, steps).value.poller.LeavePark?
    ensures exists k :: 0 <= k < |steps| && Raises(steps[k])
    decreases |steps|
  {
    hide Exclusive, AboutToNotify, Counted, Promised;
    RunIsSafe(s, steps);
    if steps != [] && !Raises(steps[0]) {
      StepIsSafe(s, steps[0]);
      ParkNeedsWake(Apply(s, steps[0]), steps[1..]);
      var k :| 0 <= k < |steps[1..]| && Raises(steps[1..][k]);
      assert Raises(steps[k + 1]);
    }
  }

  // ---- the strong count ----

  /** Every step but a plain store of readiness reads or writes the parker; it finds it alive. */
  lemma NoUseAfterFree(s: State, step: Step)
    requires Reachable(s) && Enabled(s, step)
    ensures !s.freed && s.strong > 0
  {
    hide Reachable, AllRefs;
    ReachableIsSafe(s);
    if Mover(step).Some? && !step.GiveWaker? {
      var i := if step.CloneWaker? then step.index else Mover(step).value;
      RefsAfterMove(s.wakers, i, s.wakers[i]);
    }
  }

  lemma {:induction false} RefsAreZero(wakers: seq<WakerAt>)
    ensures AllRefs(wakers) == 0 <==> forall i :: 0 <= i < |wakers| ==> wakers[i].Unborn? || wakers[i].Gone?
  {
    if wakers != [] {
      RefsAreZero(wakers[1..]);
      assert wakers == [wakers[0]] + wakers[1..];
    }
  }

  /** The parker is freed exactly when `block_on` has returned and every waker is gone. */
  lemma FreedExactly(s: State)
    requires Reachable(s)
    ensures s.freed <==> s.poller.Done? && forall i :: 0 <= i < |s.wakers| ==> s.wakers[i].Unborn? || s.wakers[i].Gone?
  {
    hide Reachable;
    ReachableIsSafe(s);
    RefsAreZero(s.wakers);
  }

  // ---- what a wake leaves behind ----

  /** A stored readiness is signalled once the wake has set the flag. */
  function PhaseAfter(phase: Phase): Phase {
    if phase.Before? then Before else Signalled
  }

  /** The thread is inside a call of `wake` that it entered with `phase`, and has `left` calls to go. */
  predicate InCall(at: WakerAt, left: nat, phase: Phase, byValue: bool) {
    || at == AtWake(left, phase, byValue)
    || at == InWake(left, phase, byValue)
    || at == Notifying(left, PhaseAfter(phase), byValue)
    || at == LeaveWake(left, PhaseAfter(phase), byValue)
  }

  /** How the call comes back: with the waker still held, or with the waker to be dropped. */
  function Returned(left: nat, phase: Phase, byValue: bool): WakerAt {
    if byValue then Dropping(PhaseAfter(phase)) else Holding(left, PhaseAfter(phase))
  }

  lemma CallGoesOn(s: State, step: Step, i: nat, left: nat, phase: Phase, byValue: bool)
    requires Enabled(s, step) && i < |s.wakers| && InCall(s.wakers[i], left, phase, byValue)
    ensures |Apply(s, step).wakers| == |s.wakers|
    ensures step == WakeUnlock(i) ==> Apply(s, step).wakers[i] == Returned(left, phase, byValue)
    ensures step != WakeUnlock(i) ==> InCall(Apply(s, step).wakers[i], left, phase, byValue)
  {
    if Mover(step) != Some(i) {
      OthersStay(s, step);
    }
  }

  /** The first `WakeUnlock` of the thread is the last step. */
  ghost predicate EndsCall(steps: seq<Step>, i: nat) {
    steps != [] && steps[|steps| - 1] == WakeUnlock(i) && forall k :: 0 <= k < |steps| - 1 ==> steps[k] != WakeUnlock(i)
  }

  lemma {:induction false} CallReturns(s: State, steps: seq<Step>, i: nat, left: nat, phase: Phase, byValue: bool)
    requires i < |s.wakers| && InCall(s.wakers[i], left, phase, byValue)
    requires Run(s, steps).Some? && EndsCall(steps, i)
    ensures i < |Run(s, steps).value.wakers|
    ensures Run(s, steps).value.wakers[i] == Returned(left, phase, byValue)
    decreases |steps|
  {
    hide Apply, Enabled, InCall, Returned;
    CallGoesOn(s, steps[0], i, left, phase, byValue);
    if |steps| > 1 {
      CallReturns(Apply(s, steps[0]), steps[1..], i, left, phase, byValue);
    } else {
      assert steps[1..] == [];
    }
  }

  lemma CallStarts(s: State, i: nat, byValue: bool)
    requires Enabled(s, if byValue then WakeByValue(i) else WakeByRef(i))
    ensures i < |s.wakers| && s.wakers[i].Holding? && (!byValue ==> s.wakers[i].left > 0)
    ensures var next := Apply(s, if byValue then WakeByValue(i) else WakeByRef(i));
            var left := if byValue then s.wakers[i].left else s.wakers[i].left - 1;
            i < |next.wakers| && InCall(next.wakers[i], left, s.wakers[i].phase, byValue)
  {
  }

  /** Whatever the other threads do meanwhile, a thread comes out of `wake_by_ref` with its waker and
      one call fewer to make, and out of `wake` with a waker to drop; readiness it had stored is
      signalled. */
  lemma WakeReturns(s: State, steps: seq<Step>, i: nat)
    requires |steps| > 1 && Run(s, steps).Some? && EndsCall(steps[1..], i)
    requires steps[0] == WakeByRef(i) || steps[0] == WakeByValue(i)
    ensures i < |s.wakers| && s.wakers[i].Holding? && i < |Run(s, steps).value.wakers|
    ensures var phase := if s.wakers[i].phase == Before then Before else Signalled;
            Run(s, steps).value.wakers[i]
            == if steps[0] == WakeByRef(i) then Holding(s.wakers[i].left - 1, phase) else Dropping(phase)
  {
    hide Apply, Enabled, InCall, EndsCall;
    var byValue := steps[0].WakeByValue?;
    CallStarts(s, i, byValue);
    var left := if byValue then s.wakers[i].left else s.wakers[i].left - 1;
    CallReturns(Apply(s, steps[0]), steps[1..], i, left, s.wakers[i].phase, byValue);
  }

  predicate DropsOwner(step: Step) {
    step.DropContext? || step.DropParker? || step.DropArc?
  }

  /** How often the run makes an owner, and how often it drops one. */
  function Gains(steps: seq<Step>): nat {
    if steps == [] then 0
    else (if steps[0].GiveWaker? || steps[0].CloneWaker? then 1 else 0) + Gains(steps[1..])
  }

  function Losses(steps: seq<Step>): nat {
    if steps == [] then 0
    else (if DropsOwner(steps[0]) then 1 else 0) + Losses(steps[1..])
  }

  lemma WakerCountsOwners(s: State, step: Step)
    requires Enabled(s, step) && (DropsOwner(step) ==> s.strong > 0) && Mover(step).Some?
    ensures Apply(s, step).strong
            == s.strong + (if step.GiveWaker? || step.CloneWaker? then 1 else 0) - (if DropsOwner(step) then 1 else 0)
  {
  }

  lemma StepCountsOwners(s: State, step: Step)
    requires Enabled(s, step) && (DropsOwner(step) ==> s.strong > 0)
    ensures Apply(s, step).strong
            == s.strong + (if step.GiveWaker? || step.CloneWaker? then 1 else 0) - (if DropsOwner(step) then 1 else 0)
  {
    if Mover(step).Some? {
      WakerCountsOwners(s, step);
    }
  }

  lemma DropsAnOwner(s: State, step: Step)
    requires Safe(s) && Enabled(s, step) && DropsOwner(step)
    ensures s.strong > 0
  {
    hide AllRefs, Exclusive, Remembered, AboutToNotify, Promised;
    if step.DropArc? {
      RefsAfterMove(s.wakers, step.index, s.wakers[step.index]);
    }
  }

  /** Only clones and drops move the strong count: a wake by reference leaves it as it was, however
      often it is called. */
  lemma {:induction false} WakesKeepCount(s: State, steps: seq<Step>)
    requires Safe(s) && Run(s, steps).Some?
    ensures Run(s, steps).value.strong == s.strong + Gains(steps) - Losses(steps)
    decreases |steps|
  {
    hide Safe, Apply, Enabled;
    if steps != [] {
      if DropsOwner(steps[0]) {
        DropsAnOwner(s, steps[0]);
      }
      StepCountsOwners(s, steps[0]);
      StepIsSafe(s, steps[0]);
      WakesKeepCount(Apply(s, steps[0]), steps[1..]);
    }
  }

  // ---- block_on returns ----

  /** A thread that has stored readiness but not signalled it. */
  ghost function Owing(wakers: seq<WakerAt>): (i: nat)
    requires AnyStored(wakers)
    ensures i < |wakers| && !PhaseOf(wakers[i]).Before?
  {
    var i :| 0 <= i < |wakers| && !PhaseOf(wakers[i]).Before?;
    i
  }

  function PollerStep(s: State): Step {
    match s.poller
    case AtClear => ClearLock
    case InClear => ClearStore
    case LeaveClear => ClearUnlock
    case AtPoll => PollReady
    case Pending(_) => EnterPark
    case AtSelfWake(_) => SelfLock
    case InSelfWake(_) => SelfSet
    case SelfNotifying(_) => SelfNotify
    case LeaveSelfWake(_) => SelfUnlock
    case AtPark => ParkLock
    case Checking => ParkCheck
    case AtWait => ParkWait
    case Blocked => ParkSpurious
    case Woken => ParkRelock
    case LeavePark => ParkUnlock
    case DropsWaker => DropContext
    case DropsParker => DropParker
    case Done => DropParker
  }

  function WakerStep(s: State, i: nat): Step
    requires i < |s.wakers|
  {
    match s.wakers[i]
    case AtWake(_, _, _) => WakeLock(i)
    case InWake(_, _, _) => WakeSet(i)
    case Notifying(_, _, _) => WakeNotify(i)
    case LeaveWake(_, _, _) => WakeUnlock(i)
    case _ => WakeByValue(i)
  }

  lemma PollerCanStep(s: State)
    requires !s.poller.Blocked? && !s.poller.Done? && (PollerHolds(s.poller) || s.holder.None?) && s.ready
    ensures Enabled(s, PollerStep(s)) && !PollerStep(s).ParkSpurious?
  {
  }

  lemma WakerCanStep(s: State, i: nat)
    requires i < |s.wakers| && (WakerHolds(s.wakers[i]) || (s.holder.None? && PhaseOf(s.wakers[i]).Stored?))
    requires KeepsPromise(s.wakers[i])
    ensures Enabled(s, WakerStep(s, i)) && !WakerStep(s, i).ParkSpurious?
  {
  }

  /** A blocked poller and a free lock: the readiness that was stored is still owed its signal. */
  lemma SomeoneOwes(s: State)
    requires Exclusive(s) && Remembered(s) && AboutToNotify(s) && s.ready && s.poller.Blocked? && s.holder.None?
    ensures AnyStored(s.wakers) && PhaseOf(s.wakers[Owing(s.wakers)]).Stored?
  {
    var i := Owing(s.wakers);
    assert PhaseOf(s.wakers[i]).Signalled? ==> AnySignalled(s.wakers);
  }

  /** Who moves: the holder of the lock, else the poller, else a thread that owes its wake. */
  lemma Progress(s: State) returns (step: Step)
    requires Safe(s) && s.ready && !s.poller.Done?
    ensures Enabled(s, step) && !step.ParkSpurious?
  {
    hide Enabled, PollerStep, WakerStep, Remembered, AboutToNotify, Counted, KeepsPromise;
    match s.holder
    case Some(Waker(i)) =>
      WakerCanStep(s, i);
      step := WakerStep(s, i);
    case Some(Poller) =>
      PollerCanStep(s);
      step := PollerStep(s);
    case None =>
      if s.poller.Blocked? {
        SomeoneOwes(s);
        WakerCanStep(s, Owing(s.wakers));
        step := WakerStep(s, Owing(s.wakers));
      } else {
        PollerCanStep(s);
        step := PollerStep(s);
      }
  }

  /** Once readiness is stored somebody can move without waiting for a spurious return, until
      `block_on` has returned. */
  lemma NoDeadlock(s: State)
    requires Reachable(s) && s.ready && !s.poller.Done?
    ensures exists step :: Enabled(s, step) && !step.ParkSpurious?
  {
    hide Reachable;
    ReachableIsSafe(s);
    var step := Progress(s);
    assert Enabled(s, step);
  }

  // How much is left to do once readiness is stored.

  function PollerWork(at: PollerAt): nat {
    match at
    case AtClear => 6
    case InClear => 5
    case LeaveClear => 4
    case AtPoll => 3
    case Pending(k) => 12 + 5 * k
    case AtSelfWake(k) => 16 + 5 * k
    case InSelfWake(k) => 15 + 5 * k
    case SelfNotifying(k) => 14 + 5 * k
    case LeaveSelfWake(k) => 13 + 5 * k
    case AtPark => 11
    case Checking => 10
    case AtWait => 9
    case Blocked => 8
    case Woken => 11
    case LeavePark => 7
    case DropsWaker => 2
    case DropsParker => 1
    case Done => 0
  }

  function HoldingWork(left: nat, phase: Phase): nat {
    10 + 8 * left + if phase.Before? then 1 else 0
  }

  function AfterWake(left: nat, phase: Phase, byValue: bool): nat {
    if byValue then 1 else HoldingWork(left, phase)
  }

  function WakerWork(at: WakerAt): nat {
    match at
    case Unborn(left) => HoldingWork(left, Before) + 1
    case Holding(left, phase) => HoldingWork(left, phase)
    case AtWake(left, phase, byValue) => AfterWake(left, phase, byValue) + 7
    case InWake(left, phase, byValue) => AfterWake(left, phase, byValue) + 6
    case Notifying(left, phase, byValue) => AfterWake(left, phase, byValue) + 5
    case LeaveWake(left, phase, byValue) => AfterWake(left, phase, byValue) + 1
    case Dropping(_) => 1
    case Gone(_) => 0
  }

  function AllWork(wakers: seq<WakerAt>): nat {
    if wakers == [] then 0 else WakerWork(wakers[0]) + AllWork(wakers[1..])
  }

  function Work(s: State): nat {
    PollerWork(s.poller) + AllWork(s.wakers)
  }

  lemma {:induction false} WorkAfterMove(wakers: seq<WakerAt>, i: nat, waker: WakerAt)
    requires i < |wakers|
    ensures AllWork(wakers[i := waker]) == AllWork(wakers) - WakerWork(wakers[i]) + WakerWork(waker)
  {
    if i > 0 {
      WorkAfterMove(wakers[1..], i - 1, waker);
      assert wakers[i := waker][1..] == wakers[1..][i - 1 := waker];
    } else {
      assert wakers[i := waker][1..] == wakers[1..];
    }
  }

  lemma SelfWakeProgresses(s: State, step: Step)
    requires Enabled(s, step)
    requires step.SelfWake? || step.SelfLock? || step.SelfSet? || step.SelfNotify? || step.SelfUnlock?
    ensures PollerWork(Apply(s, step).poller) < PollerWork(s.poller)
  {
  }

  lemma ParkProgresses(s: State, step: Step)
    requires s.ready && Enabled(s, step) && Mover(step).None?
    requires !(step.SelfWake? || step.SelfLock? || step.SelfSet? || step.SelfNotify? || step.SelfUnlock?)
    ensures PollerWork(Apply(s, step).poller) + (if step.ParkSpurious? then 0 else 1)
            <= PollerWork(s.poller) + if step.ParkSpurious? then 3 else 0
  {
  }

  lemma PollerProgresses(s: State, step: Step)
    requires s.ready && Enabled(s, step) && Mover(step).None?
    ensures Apply(s, step).ready
    ensures Work(Apply(s, step)) + (if step.ParkSpurious? then 0 else 1)
            <= Work(s) + if step.ParkSpurious? then 3 else 0
  {
    hide AllWork, PollerWork;
    OthersStay(s, step);
    if step.SelfWake? || step.SelfLock? || step.SelfSet? || step.SelfNotify? || step.SelfUnlock? {
      SelfWakeProgresses(s, step);
    } else {
      ParkProgresses(s, step);
    }
  }

  lemma WorkChange(s: State, step: Step)
    requires Enabled(s, step) && Mover(step).Some?
    ensures var i := Mover(step).value;
            && i < |s.wakers| && i < |Apply(s, step).wakers|
            && AllWork(Apply(s, step).wakers)
               == AllWork(s.wakers) - WakerWork(s.wakers[i]) + WakerWork(Apply(s, step).wakers[i])
  {
    hide AllWork, WakerWork, Apply, Enabled;
    OthersStay(s, step);
    WorkAfterMove(s.wakers, Mover(step).value, Apply(s, step).wakers[Mover(step).value]);
  }

  lemma WakerProgresses(s: State, step: Step)
    requires s.ready && Enabled(s, step) && Mover(step).Some?
    ensures Apply(s, step).ready && Work(Apply(s, step)) < Work(s) && !step.ParkSpurious?
  {
    hide AllWork;
    WorkChange(s, step);
  }

  /** Readiness stays, and every step but a spurious return leaves less to do. */
  lemma StepProgresses(s: State, step: Step)
    requires s.ready && Enabled(s, step)
    ensures Apply(s, step).ready
    ensures Work(Apply(s, step)) + (if step.ParkSpurious? then 0 else 1)
            <= Work(s) + if step.ParkSpurious? then 3 else 0
  {
    hide Work, Apply, Enabled;
    if Mover(step).Some? {
      WakerProgresses(s, step);
    } else {
      PollerProgresses(s, step);
    }
  }

  function Spurious(steps: seq<Step>): nat {
    if steps == [] then 0 else (if steps[0].ParkSpurious? then 1 else 0) + Spurious(steps[1..])
  }

  /** A run after readiness is no longer than the work there was and the spurious returns it contains. */
  lemma {:induction false} RunsEnd(s: State, steps: seq<Step>)
    requires s.ready && Run(s, steps).Some?
    ensures Run(s, steps).value.ready
    ensures |steps| + Work(Run(s, steps).value) <= Work(s) + 4 * Spurious(steps)
    decreases |steps|
  {
    hide Work, Apply, Enabled;
    if steps != [] {
      StepProgresses(s, steps[0]);
      RunsEnd(Apply(s, steps[0]), steps[1..]);
    }
  }

  lemma {:induction false} RunsCompose(s: State, first: seq<Step>, second: seq<Step>)
    requires Run(s, first).Some?
    ensures Run(s, first + second) == Run(Run(s, first).value, second)
    decreases |first|
  {
    hide Apply, Enabled;
    if first == [] {
      assert first + second == second;
    } else {
      RunsCompose(Apply(s, first[0]), first[1..], second);
      assert (first + second)[1..] == first[1..] + second;
    }
  }

  lemma RunStaysReachable(s: State, steps: seq<Step>)
    requires Reachable(s) && Run(s, steps).Some?
    ensures Reachable(Run(s, steps).value)
  {
    hide Apply, Enabled, Run, Start;
    var budgets, before :| Run(Start(budgets), before) == Some(s);
    RunsCompose(Start(budgets), before, steps);
  }

  /** Hence `block_on` returns: from a reachable state with readiness stored, a run that nobody can
      extend except by a spurious return is bounded in length and ends with `block_on` returned. */
  lemma BlockOnReturns(s: State, steps: seq<Step>)
    requires Reachable(s) && s.ready && Run(s, steps).Some?
    requires forall step :: Enabled(Run(s, steps).value, step) ==> step.ParkSpurious?
    ensures Run(s, steps).value.poller.Done?
    ensures |steps| <= Work(s) + 4 * Spurious(steps)
  {
    hide Enabled, Apply, Work, Run;
    RunsEnd(s, steps);
    RunStaysReachable(s, steps);
    var end := Run(s, steps).value;
    if !end.poller.Done? {
      NoDeadlock(end);
    }
  }
}
