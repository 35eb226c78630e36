/**
The enclave's worker pool: one main thread that collects tasks and runs a round of
them, and any number of worker threads parked in the enclave.

Main thread and workers share one slot per worker, guarded by a lock and a condition
variable. The model is a state machine whose steps are the atomic actions of the two
loops, in the order of the source; any interleaving of them is a run. Waiting on a
condition variable releases the lock and falls asleep in one step, waking up may
happen without a notification, and a notification wakes at most one sleeper.

Tasks are numbered in the order in which they are accepted: `base` is the first task
of the current round (the one the main thread keeps for itself) and slot i receives
task base + 1 + i.
*/
module WorkerPool {
  import opened Options

  datatype Owner = Free | ByMain | ByWorker

  /** Where a worker stands in its endless loop. */
  datatype WorkerPc =
    | Lock        // about to take the lock
    | Check       // holds the lock, about to test `ready`
    | Asleep      // waiting on the condition variable
    | Relock      // woken up, about to take the lock again
    | Run         // holds the lock, about to call the task
    | ClearReady  // holds the lock, task returned
    | SetDone     // holds the lock, `ready` cleared
    | Unlock      // holds the lock, `done` set
    | Notify      // released the lock, about to notify

  /** Where the main thread stands; the index is the slot it works on. */
  datatype MainPc =
    | Idle
    | Signal(i: nat, signal: SignalStage)
    | RunMain
    | Collect(i: nat, collect: CollectStage)
    | Finish

  datatype SignalStage = TakeLock | SetReady | DropLock | NotifyWorker

  datatype CollectStage = WaitLock | WaitCheck | WaitAsleep | WaitRelock | WaitUnlock | ResetDone | ResetArgs

  datatype Slot = Slot(lock: Owner, ready: bool, done: bool, task: Option<nat>, pc: WorkerPc)

  /** `log` lists the tasks in the order they were called; None is a call on cleared arguments. */
  datatype State = State(
    slots: seq<Slot>,
    main: MainPc,
    mainTask: Option<nat>,
    nrTasks: nat,
    base: nat,
    next: nat,
    log: seq<Option<nat>>
  )

  datatype Step =
    | Register                           // a thread enters the enclave
    | AddWork                            // the main thread offers a task
    | StartWork                          // the main thread calls thread_do_work
    | MainStep(wakeMain: bool)           // its next action inside thread_do_work
    | WorkerStep(w: nat, wakeMain: bool) // the next action of worker w
    | SpuriousWorker(w: nat)             // worker w wakes up unasked
    | SpuriousMain                       // the main thread wakes up unasked

  const INITIAL := State([], Idle, None, 0, 0, 0, [])

  // ------------------------------------------------------------------ transitions

  function SignalAt(i: nat, n: nat): MainPc {
    if i < n then Signal(i, TakeLock) else RunMain
  }

  function WaitAt(i: nat, n: nat): MainPc {
    if i < n then Collect(i, WaitLock) else Finish
  }

  /** One sleeper of slot i, if there is any, has to take the lock again. */
  function NotifyOne(s: State, i: nat, wakeMain: bool): State
    requires i < |s.slots|
  {
    if s.main == Collect(i, WaitAsleep) && (wakeMain || s.slots[i].pc != Asleep) then
      s.(main := Collect(i, WaitRelock))
    else if s.slots[i].pc == Asleep then
      s.(slots := s.slots[i := s.slots[i].(pc := Relock)])
    else
      s
  }

  function MainNext(s: State, wakeMain: bool): Option<State> {
    match s.main
    case Idle => None
    case Signal(i, TakeLock) =>
      if i < |s.slots| && s.slots[i].lock == Free then
        Some(s.(slots := s.slots[i := s.slots[i].(lock := ByMain)], main := Signal(i, SetReady)))
      else None
    case Signal(i, SetReady) =>
      if i < |s.slots| then
        Some(s.(slots := s.slots[i := s.slots[i].(ready := true)], main := Signal(i, DropLock)))
      else None
    case Signal(i, DropLock) =>
      if i < |s.slots| then
        Some(s.(slots := s.slots[i := s.slots[i].(lock := Free)], main := Signal(i, NotifyWorker)))
      else None
    case Signal(i, NotifyWorker) =>
      if i < |s.slots| then
        Some(NotifyOne(s, i, wakeMain).(main := SignalAt(i + 1, s.nrTasks)))
      else None
    case RunMain =>
      Some(s.(log := s.log + [s.mainTask], main := WaitAt(0, s.nrTasks)))
    case Collect(i, WaitLock) =>
      if i < |s.slots| && s.slots[i].lock == Free then
        Some(s.(slots := s.slots[i := s.slots[i].(lock := ByMain)], main := Collect(i, WaitCheck)))
      else None
    case Collect(i, WaitRelock) =>
      if i < |s.slots| && s.slots[i].lock == Free then
        Some(s.(slots := s.slots[i := s.slots[i].(lock := ByMain)], main := Collect(i, WaitCheck)))
      else None
    case Collect(i, WaitCheck) =>
      if i < |s.slots| then
        if s.slots[i].done then Some(s.(main := Collect(i, WaitUnlock)))
        else Some(s.(slots := s.slots[i := s.slots[i].(lock := Free)], main := Collect(i, WaitAsleep)))
      else None
    case Collect(i, WaitAsleep) => None
    case Collect(i, WaitUnlock) =>
      if i < |s.slots| then
        Some(s.(slots := s.slots[i := s.slots[i].(lock := Free)], main := Collect(i, ResetDone)))
      else None
    case Collect(i, ResetDone) =>
      if i < |s.slots| then
        Some(s.(slots := s.slots[i := s.slots[i].(done := false)], main := Collect(i, ResetArgs)))
      else None
    case Collect(i, ResetArgs) =>
      if i < |s.slots| then
        Some(s.(slots := s.slots[i := s.slots[i].(task := None)], main := WaitAt(i + 1, s.nrTasks)))
      else None
    case Finish =>
      Some(s.(main := Idle, mainTask := None, nrTasks := 0, base := s.next))
  }

  function WorkerNext(s: State, w: nat, wakeMain: bool): Option<State>
    requires w < |s.slots|
  {
    var t := s.slots[w];
    match t.pc
    case Lock =>
      if t.lock == Free then Some(s.(slots := s.slots[w := t.(lock := ByWorker, pc := Check)])) else None
    case Relock =>
      if t.lock == Free then Some(s.(slots := s.slots[w := t.(lock := ByWorker, pc := Check)])) else None
    case Check =>
      if t.ready then Some(s.(slots := s.slots[w := t.(pc := Run)]))
      else Some(s.(slots := s.slots[w := t.(lock := Free, pc := Asleep)]))
    case Asleep => None
    case Run => Some(s.(slots := s.slots[w := t.(pc := ClearReady)], log := s.log + [t.task]))
    case ClearReady => Some(s.(slots := s.slots[w := t.(ready := false, pc := SetDone)]))
    case SetDone => Some(s.(slots := s.slots[w := t.(done := true, pc := Unlock)]))
    case Unlock => Some(s.(slots := s.slots[w := t.(lock := Free, pc := Notify)]))
    case Notify =>
      var n := NotifyOne(s, w, wakeMain);
      Some(n.(slots := n.slots[w := n.slots[w].(pc := Lock)]))
  }

  /** thread_add_work: the first task stays with the main thread, the others fill slots, the rest is refused. */
  function AddTask(s: State): State {
    if s.mainTask.None? then s.(mainTask := Some(s.next), next := s.next + 1)
    else if s.nrTasks < |s.slots| then
      s.(slots := s.slots[s.nrTasks := s.slots[s.nrTasks].(task := Some(s.next))],
         nrTasks := s.nrTasks + 1, next := s.next + 1)
    else s
  }

  /** The state after `step`, or None when the step cannot be taken. */
  function Next(s: State, step: Step): Option<State> {
    match step
    case Register => Some(s.(slots := s.slots + [Slot(Free, false, false, None, Lock)]))
    case AddWork => if s.main == Idle then Some(AddTask(s)) else None
    case StartWork => if s.main == Idle && s.mainTask.Some? then Some(s.(main := SignalAt(0, s.nrTasks))) else None
    case MainStep(wakeMain) => MainNext(s, wakeMain)
    case WorkerStep(w, wakeMain) => if w < |s.slots| then WorkerNext(s, w, wakeMain) else None
    case SpuriousWorker(w) =>
      if w < |s.slots| && s.slots[w].pc == Asleep then Some(s.(slots := s.slots[w := s.slots[w].(pc := Relock)]))
      else None
    case SpuriousMain =>
      if s.main.Collect? && s.main.collect == WaitAsleep then Some(s.(main := Collect(s.main.i, WaitRelock))) else None
  }

  // -------------------------------------------------------------------- invariant

  /** The main thread has handed slot i its task and has not yet taken the result back. */
  predicate Pending(main: MainPc, n: nat, i: nat) {
    i < n &&
    match main
    case Idle => false
    case Signal(k, stage) => i < k || (i == k && (stage == DropLock || stage == NotifyWorker))
    case RunMain => true
    case Collect(k, stage) => k < i || (i == k && stage != ResetArgs)
    case Finish => false
  }

  /** The main thread has taken the result of slot i back in this round. */
  predicate Collected(main: MainPc, n: nat, i: nat) {
    i < n &&
    match main
    case Collect(k, stage) => i < k || (i == k && stage == ResetArgs)
    case Finish => true
    case _ => false
  }

  /** The main thread has called its own task in this round. */
  predicate MainRan(main: MainPc) {
    main.Collect? || main.Finish?
  }

  predicate SlotRan(main: MainPc, n: nat, i: nat, t: Slot) {
    Collected(main, n, i) || (Pending(main, n, i) && (t.done || t.pc == ClearReady || t.pc == SetDone))
  }

  predicate MainOwns(main: MainPc, i: nat) {
    main == Signal(i, SetReady) || main == Signal(i, DropLock) || main == Collect(i, WaitCheck)
      || main == Collect(i, WaitUnlock)
  }

  predicate WorkerOwns(pc: WorkerPc) {
    pc == Check || pc == Run || pc == ClearReady || pc == SetDone || pc == Unlock
  }

  predicate Parked(pc: WorkerPc) {
    pc == Lock || pc == Check || pc == Asleep || pc == Relock || pc == Notify
  }

  predicate MainIndexOk(main: MainPc, n: nat) {
    main.Signal? || main.Collect? ==> main.i < n
  }

  /** The handshake of one slot. */
  predicate SlotOk(main: MainPc, n: nat, base: nat, i: nat, t: Slot) {
    && (t.lock == ByMain <==> MainOwns(main, i))
    && (t.lock == ByWorker <==> WorkerOwns(t.pc))
    && !(t.ready && t.done)
    && (!Pending(main, n, i) ==> !t.ready && !t.done && Parked(t.pc))
    && (Pending(main, n, i) ==>
          || (t.ready && (Parked(t.pc) || t.pc == Run || t.pc == ClearReady))
          || (!t.ready && !t.done && t.pc == SetDone)
          || (t.done && (Parked(t.pc) || t.pc == Unlock)))
    // a worker only sleeps through `ready` while the main thread is about to notify it
    && (t.pc == Asleep && t.ready ==> main == Signal(i, DropLock) || main == Signal(i, NotifyWorker))
    // the main thread only sleeps through `done` while the worker is about to notify it
    && (main == Collect(i, WaitAsleep) && t.done ==> t.pc == Unlock || t.pc == Notify)
    && (main == Collect(i, WaitUnlock) || main == Collect(i, ResetDone) ==> t.done && Parked(t.pc))
    // until it is collected, the slot holds its task of this round
    && (i < n && !Collected(main, n, i) ==> t.task == Some(base + 1 + i))
  }

  /** Exactly the tasks of earlier rounds and those already called in this round are in the log. */
  predicate Called(s: State, task: nat) {
    || task < s.base
    || (task == s.base < s.next && MainRan(s.main))
    || (s.base < task < s.next && task - s.base - 1 < |s.slots|
        && SlotRan(s.main, s.nrTasks, task - s.base - 1, s.slots[task - s.base - 1]))
  }

  ghost predicate LogOk(s: State) {
    && (forall a :: 0 <= a < |s.log| ==> s.log[a].Some?)
    && (forall a, b :: 0 <= a < b < |s.log| ==> s.log[a] != s.log[b])
    && (forall task: nat :: Some(task) in s.log <==> Called(s, task))
  }

  predicate CountsOk(s: State) {
    && s.nrTasks <= |s.slots|
    && MainIndexOk(s.main, s.nrTasks)
    && (s.main != Idle ==> s.mainTask.Some?)
    && (s.mainTask.Some? ==> s.mainTask.value == s.base && s.next == s.base + 1 + s.nrTasks)
    && (s.mainTask.None? ==> s.next == s.base && s.nrTasks == 0)
  }

  predicate SlotsOk(s: State) {
    forall i :: 0 <= i < |s.slots| ==> SlotOk(s.main, s.nrTasks, s.base, i, s.slots[i])
  }

  ghost predicate Inv(s: State) {
    CountsOk(s) && SlotsOk(s) && LogOk(s)
  }

  lemma InitialInv()
    ensures Inv(INITIAL)
  {
  }

  lemma MainKeepsCounts(s: State, wakeMain: bool)
    requires CountsOk(s) && MainNext(s, wakeMain).Some?
    ensures CountsOk(MainNext(s, wakeMain).value)
  {
    match s.main {
      case Signal(k, stage) =>
      case RunMain =>
      case Collect(k, stage) =>
      case Finish =>
    }
  }

  /** A worker's step changes no counter, and the main thread's place only by waking it up. */
  lemma WorkerKeepsCounts(s: State, w: nat, wakeMain: bool)
    requires CountsOk(s) && w < |s.slots| && WorkerNext(s, w, wakeMain).Some?
    ensures CountsOk(WorkerNext(s, w, wakeMain).value)
  {
    hide CountsOk;
    var t := WorkerNext(s, w, wakeMain).value;
    assert |t.slots| == |s.slots| && t.nrTasks == s.nrTasks && t.mainTask == s.mainTask;
    assert t.base == s.base && t.next == s.next;
    assert t.main == s.main || (s.main.Collect? && t.main == Collect(s.main.i, WaitRelock));
    SameCounts(s, t);
  }

  lemma SameCounts(s: State, t: State)
    requires CountsOk(s) && |t.slots| == |s.slots| && t.nrTasks == s.nrTasks && t.mainTask == s.mainTask
    requires t.base == s.base && t.next == s.next
    requires t.main == s.main || (s.main.Collect? && t.main == Collect(s.main.i, WaitRelock))
    ensures CountsOk(t)
  {
  }

  lemma CountsKept(s: State, step: Step)
    requires CountsOk(s) && Next(s, step).Some?
    ensures CountsOk(Next(s, step).value)
  {
    match step
    case MainStep(wakeMain) => MainKeepsCounts(s, wakeMain);
    case WorkerStep(w, wakeMain) => WorkerKeepsCounts(s, w, wakeMain);
    case _ => EnvironmentKeepsCounts(s, step);
  }

  lemma EnvironmentKeepsCounts(s: State, step: Step)
    requires CountsOk(s) && Next(s, step).Some? && !step.MainStep? && !step.WorkerStep?
    ensures CountsOk(Next(s, step).value)
  {
  }

  /** The slot the main thread works on, if it works on one. */
  predicate IsMainSlot(main: MainPc, i: nat) {
    (main.Signal? || main.Collect?) && main.i == i
  }

  /** Beyond the slots around the main thread's place, its step leaves everything as it is. */
  lemma MainLeavesSlot(s: State, wakeMain: bool, i: nat)
    requires CountsOk(s) && i < |s.slots| && MainNext(s, wakeMain).Some? && !IsMainSlot(s.main, i)
    ensures var s' := MainNext(s, wakeMain).value;
            && |s'.slots| == |s.slots| && s'.slots[i] == s.slots[i]
            && (s.main != Finish ==> s'.base == s.base && s'.nrTasks == s.nrTasks)
  {
  }

  lemma MainKeepsOtherSlot(s: State, wakeMain: bool, i: nat)
    requires CountsOk(s) && i < |s.slots| && SlotOk(s.main, s.nrTasks, s.base, i, s.slots[i])
    requires MainNext(s, wakeMain).Some? && !IsMainSlot(s.main, i)
    ensures var s' := MainNext(s, wakeMain).value;
            |s'.slots| == |s.slots| && SlotOk(s'.main, s'.nrTasks, s'.base, i, s'.slots[i])
  {
    MainLeavesSlot(s, wakeMain, i);
    match s.main {
      case Signal(k, stage) =>
      case RunMain =>
      case Collect(k, stage) =>
      case Finish =>
    }
  }

  lemma SignalKeepsSlot(s: State, wakeMain: bool, i: nat)
    requires CountsOk(s) && i < |s.slots| && SlotOk(s.main, s.nrTasks, s.base, i, s.slots[i])
    requires MainNext(s, wakeMain).Some? && s.main.Signal? && s.main.i == i
    ensures var s' := MainNext(s, wakeMain).value;
            |s'.slots| == |s.slots| && SlotOk(s'.main, s'.nrTasks, s'.base, i, s'.slots[i])
  {
    match s.main.signal {
      case TakeLock =>
      case SetReady =>
      case DropLock =>
      case NotifyWorker =>
    }
  }

  lemma CollectKeepsSlot(s: State, wakeMain: bool, i: nat)
    requires CountsOk(s) && i < |s.slots| && SlotOk(s.main, s.nrTasks, s.base, i, s.slots[i])
    requires MainNext(s, wakeMain).Some? && s.main.Collect? && s.main.i == i
    ensures var s' := MainNext(s, wakeMain).value;
            |s'.slots| == |s.slots| && SlotOk(s'.main, s'.nrTasks, s'.base, i, s'.slots[i])
  {
    match s.main.collect {
      case WaitLock =>
      case WaitCheck =>
      case WaitRelock =>
      case WaitUnlock =>
      case ResetDone =>
      case ResetArgs =>
    }
  }

  /** A step of the main thread keeps the handshake of every slot. */
  lemma MainKeepsSlot(s: State, wakeMain: bool, i: nat)
    requires CountsOk(s) && i < |s.slots| && SlotOk(s.main, s.nrTasks, s.base, i, s.slots[i])
    requires MainNext(s, wakeMain).Some?
    ensures var s' := MainNext(s, wakeMain).value;
            |s'.slots| == |s.slots| && SlotOk(s'.main, s'.nrTasks, s'.base, i, s'.slots[i])
  {
    hide MainNext, SlotOk, CountsOk;
    if !IsMainSlot(s.main, i) {
      MainKeepsOtherSlot(s, wakeMain, i);
    } else if s.main.Signal? {
      SignalKeepsSlot(s, wakeMain, i);
    } else {
      CollectKeepsSlot(s, wakeMain, i);
    }
  }

  /** The step of another worker changes neither this slot nor how the main thread stands to it. */
  lemma WorkerKeepsOtherSlot(s: State, w: nat, wakeMain: bool, i: nat)
    requires CountsOk(s) && i < |s.slots| && SlotOk(s.main, s.nrTasks, s.base, i, s.slots[i])
    requires w < |s.slots| && w != i && WorkerNext(s, w, wakeMain).Some?
    ensures var s' := WorkerNext(s, w, wakeMain).value;
            |s'.slots| == |s.slots| && SlotOk(s'.main, s'.nrTasks, s'.base, i, s'.slots[i])
  {
    OtherWorkerMoves(s, w, wakeMain, i);
    hide WorkerNext, CountsOk;
  }

  lemma OtherWorkerMoves(s: State, w: nat, wakeMain: bool, i: nat)
    requires i < |s.slots| && w < |s.slots| && w != i && WorkerNext(s, w, wakeMain).Some?
    ensures var s' := WorkerNext(s, w, wakeMain).value;
            && |s'.slots| == |s.slots| && s'.slots[i] == s.slots[i] && s'.nrTasks == s.nrTasks && s'.base == s.base
            && (s'.main == s.main || (s.main == Collect(w, WaitAsleep) && s'.main == Collect(w, WaitRelock)))
  {
  }

  /** Worker i takes, tests or leaves its lock. */
  lemma WorkerLockStep(s: State, i: nat, wakeMain: bool)
    requires CountsOk(s) && i < |s.slots| && SlotOk(s.main, s.nrTasks, s.base, i, s.slots[i])
    requires WorkerNext(s, i, wakeMain).Some?
    requires var pc := s.slots[i].pc; pc == Lock || pc == Relock || pc == Check || pc == Unlock
    ensures var s' := WorkerNext(s, i, wakeMain).value;
            |s'.slots| == |s.slots| && SlotOk(s'.main, s'.nrTasks, s'.base, i, s'.slots[i])
  {
  }

  /** Worker i calls its task and sets the flags. */
  lemma WorkerTaskStep(s: State, i: nat, wakeMain: bool)
    requires CountsOk(s) && i < |s.slots| && SlotOk(s.main, s.nrTasks, s.base, i, s.slots[i])
    requires WorkerNext(s, i, wakeMain).Some?
    requires var pc := s.slots[i].pc; pc == Run || pc == ClearReady || pc == SetDone
    ensures var s' := WorkerNext(s, i, wakeMain).value;
            |s'.slots| == |s.slots| && SlotOk(s'.main, s'.nrTasks, s'.base, i, s'.slots[i])
  {
  }

  lemma WorkerNotifyStep(s: State, i: nat, wakeMain: bool)
    requires CountsOk(s) && i < |s.slots| && SlotOk(s.main, s.nrTasks, s.base, i, s.slots[i])
    requires WorkerNext(s, i, wakeMain).Some? && s.slots[i].pc == Notify
    ensures var s' := WorkerNext(s, i, wakeMain).value;
            |s'.slots| == |s.slots| && SlotOk(s'.main, s'.nrTasks, s'.base, i, s'.slots[i])
  {
  }

  /** A step of worker w keeps the handshake of every slot. */
  lemma WorkerKeepsSlot(s: State, w: nat, wakeMain: bool, i: nat)
    requires CountsOk(s) && i < |s.slots| && SlotOk(s.main, s.nrTasks, s.base, i, s.slots[i])
    requires w < |s.slots| && WorkerNext(s, w, wakeMain).Some?
    ensures var s' := WorkerNext(s, w, wakeMain).value;
            |s'.slots| == |s.slots| && SlotOk(s'.main, s'.nrTasks, s'.base, i, s'.slots[i])
  {
    SleeperHasNoStep(s, w, wakeMain);
    hide WorkerNext, SlotOk, CountsOk;
    if w != i {
      WorkerKeepsOtherSlot(s, w, wakeMain, i);
    } else {
      match s.slots[i].pc
      case Run => WorkerTaskStep(s, i, wakeMain);
      case ClearReady => WorkerTaskStep(s, i, wakeMain);
      case SetDone => WorkerTaskStep(s, i, wakeMain);
      case Notify => WorkerNotifyStep(s, i, wakeMain);
      case _ => WorkerLockStep(s, i, wakeMain);
    }
  }

  lemma SleeperHasNoStep(s: State, w: nat, wakeMain: bool)
    requires w < |s.slots| && WorkerNext(s, w, wakeMain).Some?
    ensures s.slots[w].pc != Asleep
  {
  }

  lemma AddTaskKeepsSlot(s: State, i: nat)
    requires CountsOk(s) && s.main == Idle && i < |s.slots| && SlotOk(s.main, s.nrTasks, s.base, i, s.slots[i])
    ensures var s' := AddTask(s);
            |s'.slots| == |s.slots| && SlotOk(s'.main, s'.nrTasks, s'.base, i, s'.slots[i])
  {
  }

  lemma StartKeepsSlot(s: State, i: nat)
    requires CountsOk(s) && s.main == Idle && i < |s.slots| && SlotOk(s.main, s.nrTasks, s.base, i, s.slots[i])
    ensures SlotOk(SignalAt(0, s.nrTasks), s.nrTasks, s.base, i, s.slots[i])
  {
  }

  lemma WakingKeepsSlot(s: State, step: Step, i: nat)
    requires CountsOk(s) && i < |s.slots| && SlotOk(s.main, s.nrTasks, s.base, i, s.slots[i])
    requires (step.SpuriousWorker? || step.SpuriousMain?) && Next(s, step).Some?
    ensures var s' := Next(s, step).value;
            |s'.slots| == |s.slots| && SlotOk(s'.main, s'.nrTasks, s'.base, i, s'.slots[i])
  {
  }

  lemma RegisterKeepsSlot(s: State, i: nat)
    requires CountsOk(s) && i <= |s.slots| && (i < |s.slots| ==> SlotOk(s.main, s.nrTasks, s.base, i, s.slots[i]))
    ensures SlotOk(s.main, s.nrTasks, s.base, i, Next(s, Register).value.slots[i])
  {
  }

  lemma OtherStepKeepsSlot(s: State, step: Step, i: nat)
    requires CountsOk(s) && SlotsOk(s) && Next(s, step).Some? && i < |Next(s, step).value.slots|
    requires !step.MainStep? && !step.WorkerStep?
    ensures var s' := Next(s, step).value; SlotOk(s'.main, s'.nrTasks, s'.base, i, s'.slots[i])
  {
    hide SlotOk, CountsOk, MainNext, WorkerNext, AddTask, SignalAt;
    assert i < |s.slots| ==> SlotOk(s.main, s.nrTasks, s.base, i, s.slots[i]);
    SizeKept(s, step);
    match step
    case Register => RegisterKeepsSlot(s, i);
    case AddWork => AddTaskKeepsSlot(s, i);
    case StartWork => StartKeepsSlot(s, i);
    case _ => WakingKeepsSlot(s, step, i);
  }

  lemma SlotsKept(s: State, step: Step)
    requires CountsOk(s) && SlotsOk(s) && Next(s, step).Some?
    ensures SlotsOk(Next(s, step).value)
  {
    var s' := Next(s, step).value;
    forall i | 0 <= i < |s'.slots| ensures SlotOk(s'.main, s'.nrTasks, s'.base, i, s'.slots[i]) {
      match step
      case MainStep(wakeMain) =>
        SizeKept(s, step);
        MainKeepsSlot(s, wakeMain, i);
      case WorkerStep(w, wakeMain) =>
        SizeKept(s, step);
        WorkerKeepsSlot(s, w, wakeMain, i);
      case _ =>
        OtherStepKeepsSlot(s, step, i);
    }
  }

  lemma SizeKept(s: State, step: Step)
    requires Next(s, step).Some?
    ensures |Next(s, step).value.slots| == |s.slots| + if step.Register? then 1 else 0
  {
  }

  // ------------------------------------------------------------- the task log

  /** The log entries a step adds. */
  function Logged(s: State, step: Step): (entries: seq<Option<nat>>)
    requires Next(s, step).Some?
    ensures Next(s, step).value.log == s.log + entries
  {
    match step
    case MainStep(_) => if s.main == RunMain then [s.mainTask] else []
    case WorkerStep(w, _) => if s.slots[w].pc == Run then [s.slots[w].task] else []
    case _ => []
  }

  /** A step calls at most one task, one of this round that was not called before. */
  lemma LoggedIsNew(s: State, step: Step, entry: Option<nat>)
    requires CountsOk(s) && SlotsOk(s) && Next(s, step).Some? && entry in Logged(s, step)
    ensures entry.Some? && s.base <= entry.value < s.next && !Called(s, entry.value)
    ensures Called(Next(s, step).value, entry.value)
  {
    match step
    case MainStep(_) =>
    case WorkerStep(w, _) =>
      assert SlotOk(s.main, s.nrTasks, s.base, w, s.slots[w]);
  }

  predicate SlotRanIn(s: State, i: nat) {
    i < |s.slots| && SlotRan(s.main, s.nrTasks, i, s.slots[i])
  }

  lemma MainKeepsRan(s: State, wakeMain: bool, i: nat)
    requires CountsOk(s) && i < |s.slots| && SlotOk(s.main, s.nrTasks, s.base, i, s.slots[i])
    requires MainNext(s, wakeMain).Some? && s.main != Finish
    ensures SlotRanIn(MainNext(s, wakeMain).value, i) <==> SlotRanIn(s, i)
  {
  }

  lemma OtherWorkerKeepsRan(s: State, w: nat, wakeMain: bool, i: nat)
    requires CountsOk(s) && i < |s.slots| && w < |s.slots| && w != i && WorkerNext(s, w, wakeMain).Some?
    ensures SlotRanIn(WorkerNext(s, w, wakeMain).value, i) <==> SlotRanIn(s, i)
  {
    OtherWorkerMoves(s, w, wakeMain, i);
    hide WorkerNext, CountsOk;
  }

  lemma OwnWorkerKeepsRan(s: State, wakeMain: bool, i: nat)
    requires CountsOk(s) && i < |s.slots| && SlotOk(s.main, s.nrTasks, s.base, i, s.slots[i])
    requires WorkerNext(s, i, wakeMain).Some?
    ensures SlotRanIn(WorkerNext(s, i, wakeMain).value, i) <==> SlotRanIn(s, i) || s.slots[i].pc == Run
  {
  }

  lemma WorkerKeepsRan(s: State, w: nat, wakeMain: bool, i: nat)
    requires CountsOk(s) && i < |s.slots| && SlotOk(s.main, s.nrTasks, s.base, i, s.slots[i])
    requires w < |s.slots| && WorkerNext(s, w, wakeMain).Some?
    ensures SlotRanIn(WorkerNext(s, w, wakeMain).value, i)
       <==> SlotRanIn(s, i) || (w == i && s.slots[i].pc == Run)
  {
    hide WorkerNext, SlotOk, SlotRanIn, CountsOk;
    if w == i {
      OwnWorkerKeepsRan(s, wakeMain, i);
    } else {
      OtherWorkerKeepsRan(s, w, wakeMain, i);
    }
  }

  /** Whether slot i's task was called changes only when worker i calls it, until the round ends. */
  lemma SlotRanKept(s: State, step: Step, i: nat)
    requires CountsOk(s) && SlotsOk(s) && Next(s, step).Some? && s.main != Finish && i < |s.slots|
    ensures SlotRanIn(Next(s, step).value, i)
       <==> SlotRanIn(s, i) || (step.WorkerStep? && step.w == i && s.slots[i].pc == Run)
  {
    assert SlotOk(s.main, s.nrTasks, s.base, i, s.slots[i]);
    match step
    case MainStep(wakeMain) => MainKeepsRan(s, wakeMain, i);
    case WorkerStep(w, wakeMain) => WorkerKeepsRan(s, w, wakeMain, i);
    case _ =>
  }

  /** The task of slot i enters the log exactly when worker i calls it. */
  lemma LoggedSlotTask(s: State, step: Step, i: nat)
    requires CountsOk(s) && SlotsOk(s) && Next(s, step).Some? && s.main != Finish
    requires i < |s.slots| && s.base + 1 + i < s.next
    ensures Some(s.base + 1 + i) in Logged(s, step) <==> step.WorkerStep? && step.w == i && s.slots[i].pc == Run
  {
    assert SlotOk(s.main, s.nrTasks, s.base, i, s.slots[i]);
    if step.WorkerStep? {
      assert SlotOk(s.main, s.nrTasks, s.base, step.w, s.slots[step.w]);
    }
  }

  /** A step adds to the called tasks exactly the task it logs. */
  lemma CalledKept(s: State, step: Step, task: nat)
    requires CountsOk(s) && SlotsOk(s) && Next(s, step).Some?
    ensures Called(Next(s, step).value, task) <==> Called(s, task) || Some(task) in Logged(s, step)
  {
    hide Next, Logged, Called, CountsOk, SlotsOk;
    if s.main == Finish && step.MainStep? {
      ReturnKeepsCalled(s, step, task);
    } else if s.base < task < s.next && task - s.base - 1 < |s.slots| {
      if s.main == Finish {
        FinishKeepsCalled(s, step, task);
      } else {
        SlotCalledKept(s, step, task - s.base - 1);
      }
    } else {
      CalledElsewhere(s, step, task);
    }
  }

  lemma CalledSlot(s: State, i: nat)
    requires i < |s.slots| && s.base + 1 + i < s.next
    ensures Called(s, s.base + 1 + i) <==> SlotRanIn(s, i)
  {
  }

  lemma SlotCalledKept(s: State, step: Step, i: nat)
    requires CountsOk(s) && SlotsOk(s) && Next(s, step).Some? && s.main != Finish
    requires i < |s.slots| && s.base + 1 + i < s.next
    ensures Called(Next(s, step).value, s.base + 1 + i)
            <==> Called(s, s.base + 1 + i) || Some(s.base + 1 + i) in Logged(s, step)
  {
    hide Next, Logged, SlotRan, SlotRanIn, CountsOk, SlotsOk, Called;
    SizeKept(s, step);
    SlotRanKept(s, step, i);
    LoggedSlotTask(s, step, i);
    SameRound(s, step);
    CalledSlot(s, i);
    CalledSlot(Next(s, step).value, i);
  }

  lemma AllCalledAtFinish(s: State, task: nat)
    requires CountsOk(s) && s.main == Finish
    ensures Called(s, task) <==> task < s.next
  {
  }

  lemma ReturnKeepsCalled(s: State, step: Step, task: nat)
    requires CountsOk(s) && Next(s, step).Some? && s.main == Finish && step.MainStep?
    ensures Called(Next(s, step).value, task) <==> Called(s, task)
    ensures Logged(s, step) == []
  {
    AllCalledAtFinish(s, task);
  }

  lemma FinishKeepsCalled(s: State, step: Step, task: nat)
    requires CountsOk(s) && SlotsOk(s) && Next(s, step).Some? && s.main == Finish && !step.MainStep?
    ensures Called(Next(s, step).value, task) <==> Called(s, task)
    ensures Logged(s, step) == []
  {
    SizeKept(s, step);
    if step.WorkerStep? {
      assert SlotOk(s.main, s.nrTasks, s.base, step.w, s.slots[step.w]);
    }
    AllCalledAtFinish(s, task);
    CountsKept(s, step);
    AllCalledAtFinish(Next(s, step).value, task);
  }

  lemma SameRound(s: State, step: Step)
    requires CountsOk(s) && Next(s, step).Some? && s.main != Finish
    ensures Next(s, step).value.base == s.base
    ensures Next(s, step).value.next == s.next || (step.AddWork? && Next(s, step).value.next == s.next + 1)
  {
  }

  /** Outside the slots of the round only the main thread's own task can become called. */
  lemma CalledOutside(s: State, task: nat)
    requires CountsOk(s) && !(s.base < task < s.next && task - s.base - 1 < |s.slots|)
    ensures Called(s, task) <==> task < s.base || (task == s.base < s.next && MainRan(s.main))
  {
  }

  lemma MainRanKept(s: State, step: Step)
    requires CountsOk(s) && Next(s, step).Some? && s.mainTask.Some? && !(s.main == Finish && step.MainStep?)
    ensures var s' := Next(s, step).value;
            s'.base == s.base && (MainRan(s'.main) <==> MainRan(s.main) || (step.MainStep? && s.main == RunMain))
  {
  }

  lemma LoggedMain(s: State, step: Step, task: nat)
    requires CountsOk(s) && SlotsOk(s) && Next(s, step).Some?
    requires !(s.base < task < s.next && task - s.base - 1 < |s.slots|)
    ensures Some(task) in Logged(s, step) <==> step.MainStep? && s.main == RunMain && task == s.base
  {
    if step.WorkerStep? {
      assert SlotOk(s.main, s.nrTasks, s.base, step.w, s.slots[step.w]);
    }
  }

  lemma NewTaskOutside(s: State, step: Step, task: nat)
    requires CountsOk(s) && Next(s, step).Some? && !(s.main == Finish && step.MainStep?)
    requires !(s.base < task < s.next && task - s.base - 1 < |s.slots|)
    ensures var s' := Next(s, step).value;
            s'.base < task < s'.next && task - s'.base - 1 < |s'.slots| ==> s'.main == Idle && s'.base == s.base
    ensures s.mainTask.None? ==> var s' := Next(s, step).value;
              s.main == Idle && s'.main == Idle && s'.base == s.base
  {
    CountsKept(s, step);
  }

  lemma IdleNotCalled(s: State, task: nat)
    requires CountsOk(s) && s.main == Idle
    ensures Called(s, task) <==> task < s.base
  {
  }

  lemma CalledElsewhere(s: State, step: Step, task: nat)
    requires CountsOk(s) && SlotsOk(s) && Next(s, step).Some? && !(s.main == Finish && step.MainStep?)
    requires !(s.base < task < s.next && task - s.base - 1 < |s.slots|)
    ensures Called(Next(s, step).value, task) <==> Called(s, task) || Some(task) in Logged(s, step)
  {
    var s' := Next(s, step).value;
    CountsKept(s, step);
    NewTaskOutside(s, step, task);
    LoggedMain(s, step, task);
    CalledOutside(s, task);
    MainTaskOpen(s);
    if s.mainTask.Some? {
      MainRanKept(s, step);
    }
    hide Next, Logged, SlotsOk, CountsOk, Called;
    if s'.main == Idle {
      IdleNotCalled(s', task);
    }
    if !(s'.base < task < s'.next && task - s'.base - 1 < |s'.slots|) {
      CalledOutside(s', task);
    }
  }

  lemma MainTaskOpen(s: State)
    requires CountsOk(s)
    ensures s.mainTask.Some? ==> s.base < s.next
    ensures s.mainTask.None? ==> s.main == Idle && s.base == s.next
  {
  }

  lemma LogKept(s: State, step: Step)
    requires Inv(s) && Next(s, step).Some?
    ensures LogOk(Next(s, step).value)
  {
    var s' := Next(s, step).value;
    var entries := Logged(s, step);
    forall entry | entry in entries ensures entry.Some? && entry !in s.log {
      LoggedIsNew(s, step, entry);
    }
    forall task: nat ensures Some(task) in s'.log <==> Called(s', task) {
      CalledKept(s, step, task);
    }
    assert |entries| <= 1;
  }

  lemma InvKept(s: State, step: Step)
    requires Inv(s) && Next(s, step).Some?
    ensures Inv(Next(s, step).value)
  {
    CountsKept(s, step);
    SlotsKept(s, step);
    LogKept(s, step);
  }

  // ------------------------------------------------------------------- all runs

  /** `trace` lists the states of a run that takes `steps`. */
  ghost predicate IsPath(trace: seq<State>, steps: seq<Step>) {
    && |trace| == |steps| + 1
    && forall i :: 0 <= i < |steps| ==> Next(trace[i], steps[i]) == Some(trace[i + 1])
  }

  ghost predicate IsRun(trace: seq<State>, steps: seq<Step>) {
    IsPath(trace, steps) && trace[0] == INITIAL
  }

  lemma {:induction false} InvAlways(trace: seq<State>, steps: seq<Step>, i: nat)
    requires IsRun(trace, steps) && i < |trace|
    ensures Inv(trace[i])
  {
    InitialInv();
    hide Next, CountsOk, SlotsOk, LogOk;
    if i == 0 {
    } else {
      InvAlways(trace, steps, i - 1);
      assert Next(trace[i - 1], steps[i - 1]) == Some(trace[i]);
      InvKept(trace[i - 1], steps[i - 1]);
    }
  }

  /** No slot ever has both flags set, in any run. */
  lemma ReadyAndDoneExclusive(trace: seq<State>, steps: seq<Step>, i: nat, w: nat)
    requires IsRun(trace, steps) && i < |trace| && w < |trace[i].slots|
    ensures !(trace[i].slots[w].ready && trace[i].slots[w].done)
  {
    InvAlways(trace, steps, i);
    assert SlotOk(trace[i].main, trace[i].nrTasks, trace[i].base, w, trace[i].slots[w]);
  }

  /** Outside thread_do_work every task of earlier rounds was called once and no later one was. */
  lemma IdleLog(s: State)
    requires Inv(s) && s.main == Idle
    ensures forall task: nat :: Some(task) in s.log <==> task < s.base
  {
    forall task: nat ensures Some(task) in s.log <==> task < s.base {
      assert Some(task) in s.log <==> Called(s, task);
    }
  }

  /** The steps start..end of a path form one call of thread_do_work, entry and return included. */
  ghost predicate IsRound(trace: seq<State>, steps: seq<Step>, start: nat, end: nat) {
    && start < end < |steps| && |trace| == |steps| + 1
    && steps[start] == StartWork
    && trace[start].main == Idle && trace[end + 1].main == Idle
    && (forall i :: start < i <= end ==> trace[i].main != Idle)
  }

  lemma {:induction false} RoundIsStable(trace: seq<State>, steps: seq<Step>, start: nat, end: nat, i: nat)
    requires IsPath(trace, steps) && IsRound(trace, steps, start, end) && start <= i <= end
    ensures trace[i].base == trace[start].base && trace[i].next == trace[start].next
    ensures trace[start].log <= trace[i].log
  {
    if i == start {
    } else {
      RoundIsStable(trace, steps, start, end, i - 1);
      var s, step := trace[i - 1], steps[i - 1];
      assert Next(s, step) == Some(trace[i]);
      assert trace[i].log == s.log + Logged(s, step);
      StepInRound(s, step);
    }
  }

  lemma StepInRound(s: State, step: Step)
    requires Next(s, step).Some? && Next(s, step).value.main != Idle
    ensures Next(s, step).value.base == s.base && Next(s, step).value.next == s.next
  {
  }

  /**
  The barrier, for every run and every round in it: between entry to and return from
  thread_do_work exactly the tasks accepted for this round are called, each once.
  */
  lemma Barrier(trace: seq<State>, steps: seq<Step>, start: nat, end: nat)
    requires IsRun(trace, steps) && IsRound(trace, steps, start, end)
    ensures trace[start].log <= trace[end + 1].log
    ensures var called := trace[end + 1].log[|trace[start].log|..];
            && (forall a, b :: 0 <= a < b < |called| ==> called[a] != called[b])
            && (forall entry :: entry in called <==>
                  entry.Some? && trace[start].base <= entry.value < trace[start].next)
  {
    hide Next, CountsOk, SlotsOk;
    InvAlways(trace, steps, start);
    InvAlways(trace, steps, end + 1);
    IdleLog(trace[start]);
    IdleLog(trace[end + 1]);
    RoundIsStable(trace, steps, start, end, end);
    assert Next(trace[end], steps[end]) == Some(trace[end + 1]);
    LeavesRound(trace[end], steps[end]);
    NewEntries(trace[start].log, trace[end + 1].log, trace[start].base, trace[start].next);
  }

  /** What a duplicate-free log holding all tasks below `hi` adds to one holding all tasks below `lo`. */
  lemma NewEntries(before: seq<Option<nat>>, after: seq<Option<nat>>, lo: nat, hi: nat)
    requires before <= after
    requires forall a :: 0 <= a < |after| ==> after[a].Some?
    requires forall a, b :: 0 <= a < b < |after| ==> after[a] != after[b]
    requires forall task: nat :: Some(task) in before <==> task < lo
    requires forall task: nat :: Some(task) in after <==> task < hi
    ensures var called := after[|before|..];
            && (forall a, b :: 0 <= a < b < |called| ==> called[a] != called[b])
            && (forall entry :: entry in called <==> entry.Some? && lo <= entry.value < hi)
  {
    var n := |before|;
    var called := after[n..];
    assert after == before + called;
    forall entry ensures entry in called <==> entry.Some? && lo <= entry.value < hi {
      if entry in called {
        assert entry in after && entry !in before;
      }
      if entry.Some? && lo <= entry.value < hi {
        assert entry in after && entry !in before;
      }
    }
  }

  lemma LeavesRound(s: State, step: Step)
    requires Next(s, step).Some? && s.main != Idle && Next(s, step).value.main == Idle
    ensures s.main == Finish && Next(s, step).value.base == s.next
    ensures s.log <= Next(s, step).value.log
  {
  }

  // ------------------------------------------------------------ what a round leaves

  /** A slot without a task of this round, or with one that has been taken back, has no arguments. */
  predicate Cleared(s: State, i: nat)
    requires i < |s.slots|
  {
    var back := s.main == Finish || (s.main.Collect? && i < s.main.i);
    i >= s.nrTasks || back ==> s.slots[i].task == None
  }

  predicate AllCleared(s: State) {
    forall i :: 0 <= i < |s.slots| ==> Cleared(s, i)
  }

  lemma MainKeepsCleared(s: State, wakeMain: bool)
    requires CountsOk(s) && AllCleared(s) && MainNext(s, wakeMain).Some?
    ensures AllCleared(MainNext(s, wakeMain).value)
  {
    var t := MainNext(s, wakeMain).value;
    forall i | 0 <= i < |t.slots| ensures Cleared(t, i) {
      assert |t.slots| == |s.slots| && Cleared(s, i);
    }
  }

  lemma WorkerKeepsCleared(s: State, w: nat, wakeMain: bool)
    requires AllCleared(s) && w < |s.slots| && WorkerNext(s, w, wakeMain).Some?
    ensures AllCleared(WorkerNext(s, w, wakeMain).value)
  {
    var t := WorkerNext(s, w, wakeMain).value;
    forall i | 0 <= i < |t.slots| ensures Cleared(t, i) {
      assert |t.slots| == |s.slots| && Cleared(s, i);
    }
  }

  lemma ClearedKept(s: State, step: Step)
    requires CountsOk(s) && AllCleared(s) && Next(s, step).Some?
    ensures AllCleared(Next(s, step).value)
  {
    match step
    case MainStep(wakeMain) => MainKeepsCleared(s, wakeMain);
    case WorkerStep(w, wakeMain) => WorkerKeepsCleared(s, w, wakeMain);
    case _ =>
      var t := Next(s, step).value;
      forall i | 0 <= i < |t.slots| ensures Cleared(t, i) {
        assert i < |s.slots| ==> Cleared(s, i);
      }
  }

  lemma {:induction false} ClearedAlways(trace: seq<State>, steps: seq<Step>, i: nat)
    requires IsRun(trace, steps) && i < |trace|
    ensures AllCleared(trace[i])
    decreases i
  {
    hide Next, CountsOk, SlotsOk, LogOk;
    if i == 0 {
    } else {
      ClearedAlways(trace, steps, i - 1);
      InvAlways(trace, steps, i - 1);
      assert Next(trace[i - 1], steps[i - 1]) == Some(trace[i]);
      hide AllCleared;
      ClearedKept(trace[i - 1], steps[i - 1]);
    }
  }

  /** When thread_do_work has returned, in any run, no slot has a task or a flag set and nobody calls one. */
  lemma ReturnLeavesNothing(trace: seq<State>, steps: seq<Step>, i: nat, w: nat)
    requires IsRun(trace, steps) && i < |trace| && trace[i].main == Idle && trace[i].mainTask == None
    requires w < |trace[i].slots|
    ensures var t := trace[i].slots[w]; t.task == None && !t.ready && !t.done && Parked(t.pc)
  {
    InvAlways(trace, steps, i);
    ClearedAlways(trace, steps, i);
    hide Next, LogOk;
    assert Cleared(trace[i], w);
    assert SlotOk(trace[i].main, trace[i].nrTasks, trace[i].base, w, trace[i].slots[w]);
  }

  // ------------------------------------------------------ which offers are accepted

  /**
  An offer between two rounds is accepted exactly when there is a thread left for it: the first one
  goes to the main thread, offer i to slot i - 1. Otherwise nothing changes.
  */
  lemma OfferExactly(s: State)
    requires CountsOk(s) && s.main == Idle
    ensures Next(s, AddWork).Some?
    ensures var t, i := Next(s, AddWork).value, s.next - s.base;
            if i == 0 then t == s.(mainTask := Some(s.next), next := s.next + 1)
            else if i < 1 + |s.slots| then
              t == s.(slots := s.slots[i - 1 := s.slots[i - 1].(task := Some(s.next))], nrTasks := i,
                      next := s.next + 1)
            else t == s
  {
  }

  /** The offers in steps from..until that are accepted if each is as long as there is a thread left for it. */
  function Accepted(trace: seq<State>, steps: seq<Step>, from: nat, until: nat): nat
    requires from <= until <= |steps| < |trace|
    decreases until
  {
    if from == until then 0
    else
      var n := Accepted(trace, steps, from, until - 1);
      if steps[until - 1] == AddWork && n < 1 + |trace[until - 1].slots| then n + 1 else n
  }

  function Offers(steps: seq<Step>, from: nat, until: nat): nat
    requires from <= until <= |steps|
    decreases until
  {
    if from == until then 0 else Offers(steps, from, until - 1) + if steps[until - 1] == AddWork then 1 else 0
  }

  /** Without new threads that is the number of offers, or of threads when there are fewer. */
  lemma {:induction false} AcceptedIsMinimum(trace: seq<State>, steps: seq<Step>, from: nat, until: nat, threads: nat)
    requires from <= until <= |steps| < |trace|
    requires forall i :: from <= i <= until ==> 1 + |trace[i].slots| == threads
    ensures Accepted(trace, steps, from, until)
         == if Offers(steps, from, until) < threads then Offers(steps, from, until) else threads
    decreases until
  {
    if from == until {
    } else {
      AcceptedIsMinimum(trace, steps, from, until - 1, threads);
    }
  }

  /** The states from..until are outside thread_do_work, and no task has been accepted before. */
  ghost predicate Gathers(trace: seq<State>, from: nat, until: nat) {
    && from <= until < |trace| && trace[from].mainTask.None?
    && forall i :: from <= i <= until ==> trace[i].main == Idle
  }

  lemma GatherStep(s: State, step: Step)
    requires CountsOk(s) && Next(s, step).Some? && s.main == Idle && Next(s, step).value.main == Idle
    ensures var t := Next(s, step).value;
            t.base == s.base
            && t.next == s.next + if step == AddWork && s.next - s.base < 1 + |s.slots| then 1 else 0
  {
  }

  lemma {:induction false} GatheredTasks(trace: seq<State>, steps: seq<Step>, from: nat, until: nat)
    requires IsRun(trace, steps) && Gathers(trace, from, until)
    ensures trace[until].base == trace[from].base
    ensures trace[until].next == trace[from].base + Accepted(trace, steps, from, until)
    decreases until
  {
    hide Next, SlotsOk, LogOk;
    InvAlways(trace, steps, from);
    if from == until {
    } else {
      GatheredTasks(trace, steps, from, until - 1);
      InvAlways(trace, steps, until - 1);
      assert Next(trace[until - 1], steps[until - 1]) == Some(trace[until]);
      GatherStep(trace[until - 1], steps[until - 1]);
    }
  }

  predicate NoDuplicates(called: seq<Option<nat>>) {
    forall a, b :: 0 <= a < b < |called| ==> called[a] != called[b]
  }

  ghost predicate ListsTasks(called: seq<Option<nat>>, lo: nat, hi: nat) {
    forall entry :: entry in called <==> entry.Some? && lo <= entry.value < hi
  }

  lemma DropEntry(called: seq<Option<nat>>, k: nat)
    requires NoDuplicates(called) && k < |called|
    ensures var rest := called[..k] + called[k + 1..];
            NoDuplicates(rest) && forall entry :: entry in rest <==> entry in called && entry != called[k]
  {
    var rest := called[..k] + called[k + 1..];
    assert forall i :: 0 <= i < |rest| ==> rest[i] == called[if i < k then i else i + 1];
    forall entry | entry in called && entry != called[k] ensures entry in rest {
      var i :| 0 <= i < |called| && called[i] == entry;
      assert rest[if i < k then i else i - 1] == entry;
    }
  }

  /** A list without duplicates of all tasks from lo up to hi has hi - lo entries. */
  lemma {:induction false} TasksCounted(called: seq<Option<nat>>, lo: nat, hi: nat)
    requires lo <= hi && NoDuplicates(called) && ListsTasks(called, lo, hi)
    ensures |called| == hi - lo
    decreases hi
  {
    if called == [] {
      assert Some(lo) !in called;
    } else {
      assert called[0] in called;
      assert Some(hi - 1) in called;
      var k :| 0 <= k < |called| && called[k] == Some(hi - 1);
      DropEntry(called, k);
      hide NoDuplicates;
      TasksCounted(called[..k] + called[k + 1..], lo, hi - 1);
    }
  }

  /**
  Between two returns of thread_do_work exactly as many tasks are called as offers found a thread: with
  k offers and no new threads, the minimum of k and the number of threads, the main one included.
  */
  lemma OffersAreCalled(trace: seq<State>, steps: seq<Step>, from: nat, start: nat, end: nat)
    requires IsRun(trace, steps) && IsRound(trace, steps, start, end) && Gathers(trace, from, start)
    ensures trace[start].log <= trace[end + 1].log
    ensures |trace[end + 1].log| - |trace[start].log| == Accepted(trace, steps, from, start)
    ensures var threads := 1 + |trace[from].slots|;
            (forall i :: from <= i <= start ==> 1 + |trace[i].slots| == threads) ==>
              |trace[end + 1].log| - |trace[start].log|
              == if Offers(steps, from, start) < threads then Offers(steps, from, start) else threads
  {
    hide IsPath, Accepted, Offers;
    Barrier(trace, steps, start, end);
    GatheredTasks(trace, steps, from, start);
    var called := trace[end + 1].log[|trace[start].log|..];
    assert ListsTasks(called, trace[start].base, trace[start].next);
    TasksCounted(called, trace[start].base, trace[start].next);
    var threads := 1 + |trace[from].slots|;
    if forall i :: from <= i <= start ==> 1 + |trace[i].slots| == threads {
      AcceptedIsMinimum(trace, steps, from, start, threads);
    }
  }

  // ------------------------------------------------------------------- progress

  function WorkerWeight(t: Slot): nat {
    match t.pc
    case Lock => if t.ready then 11 else 2
    case Relock => if t.ready then 11 else 2
    case Check => if t.ready then 10 else 1
    case Asleep => if t.ready then 12 else 0
    case Run => 9
    case ClearReady => 8
    case SetDone => 7
    case Unlock => 6
    case Notify => if t.ready then 14 else 5
  }

  function SignalWeight(stage: SignalStage): nat {
    match stage
    case TakeLock => 19
    case SetReady => 18
    case DropLock => 4
    case NotifyWorker => 3
  }

  function CollectWeight(stage: CollectStage): nat {
    match stage
    case WaitLock => 7
    case WaitRelock => 7
    case WaitCheck => 6
    case WaitAsleep => 5
    case WaitUnlock => 4
    case ResetDone => 3
    case ResetArgs => 2
  }

  function MainWeight(main: MainPc, n: nat): nat
    requires MainIndexOk(main, n)
  {
    match main
    case Idle => 0
    case Signal(i, stage) => 2 + 8 * n + 20 * (n - 1 - i) + SignalWeight(stage)
    case RunMain => 2 + 8 * n
    case Collect(i, stage) => 1 + 8 * (n - 1 - i) + CollectWeight(stage)
    case Finish => 1
  }

  function TotalWeight(slots: seq<Slot>): nat {
    if slots == [] then 0 else TotalWeight(slots[..|slots| - 1]) + WorkerWeight(slots[|slots| - 1])
  }

  /** How much work the threads can still do before all of them wait. */
  function Measure(s: State): nat
    requires CountsOk(s)
  {
    MainWeight(s.main, s.nrTasks) + TotalWeight(s.slots)
  }

  lemma {:induction false} TotalAfterUpdate(slots: seq<Slot>, i: nat, t: Slot)
    requires i < |slots|
    ensures TotalWeight(slots[i := t]) + WorkerWeight(slots[i]) == TotalWeight(slots) + WorkerWeight(t)
  {
    var n := |slots| - 1;
    if i < n {
      assert slots[i := t][..n] == slots[..n][i := t];
      TotalAfterUpdate(slots[..n], i, t);
    } else {
      assert slots[i := t][..n] == slots[..n];
    }
  }

  predicate IsOwnStep(step: Step) {
    step.MainStep? || step.WorkerStep?
  }

  predicate IsEnvironmentStep(step: Step) {
    step.Register? || step.SpuriousWorker? || step.SpuriousMain?
  }

  lemma SignalPays(s: State, wakeMain: bool, i: nat)
    requires CountsOk(s) && i < |s.slots| && SlotOk(s.main, s.nrTasks, s.base, i, s.slots[i])
    requires s.main.Signal? && s.main.i == i && MainNext(s, wakeMain).Some?
    ensures var s' := MainNext(s, wakeMain).value;
            && |s'.slots| == |s.slots| && s'.slots == s.slots[i := s'.slots[i]]
            && MainIndexOk(s'.main, s'.nrTasks)
            && MainWeight(s'.main, s'.nrTasks) + WorkerWeight(s'.slots[i])
             < MainWeight(s.main, s.nrTasks) + WorkerWeight(s.slots[i])
  {
    match s.main.signal {
      case TakeLock =>
      case SetReady =>
      case DropLock =>
      case NotifyWorker =>
    }
  }

  lemma CollectPays(s: State, wakeMain: bool, i: nat)
    requires CountsOk(s) && i < |s.slots| && SlotOk(s.main, s.nrTasks, s.base, i, s.slots[i])
    requires s.main.Collect? && s.main.i == i && MainNext(s, wakeMain).Some?
    ensures var s' := MainNext(s, wakeMain).value;
            && |s'.slots| == |s.slots| && s'.slots == s.slots[i := s'.slots[i]]
            && MainIndexOk(s'.main, s'.nrTasks)
            && MainWeight(s'.main, s'.nrTasks) + WorkerWeight(s'.slots[i])
             < MainWeight(s.main, s.nrTasks) + WorkerWeight(s.slots[i])
  {
  }

  /** A step of the main thread on slot i pays for what it hands to worker i. */
  lemma MainPays(s: State, wakeMain: bool, i: nat)
    requires CountsOk(s) && i < |s.slots| && SlotOk(s.main, s.nrTasks, s.base, i, s.slots[i])
    requires (s.main.Signal? || s.main.Collect?) && s.main.i == i && MainNext(s, wakeMain).Some?
    ensures var s' := MainNext(s, wakeMain).value;
            && CountsOk(s') && |s'.slots| == |s.slots| && s'.slots == s.slots[i := s'.slots[i]]
            && MainWeight(s'.main, s'.nrTasks) + WorkerWeight(s'.slots[i])
             < MainWeight(s.main, s.nrTasks) + WorkerWeight(s.slots[i])
  {
    MainKeepsCounts(s, wakeMain);
    hide MainNext, MainWeight, WorkerWeight, SlotOk, CountsOk;
    if s.main.Signal? {
      SignalPays(s, wakeMain, i);
    } else {
      CollectPays(s, wakeMain, i);
    }
  }

  lemma MainDecreases(s: State, wakeMain: bool)
    requires CountsOk(s) && SlotsOk(s) && MainNext(s, wakeMain).Some?
    ensures CountsOk(MainNext(s, wakeMain).value) && Measure(MainNext(s, wakeMain).value) < Measure(s)
  {
    MainKeepsCounts(s, wakeMain);
    if s.main.Signal? || s.main.Collect? {
      var i := s.main.i;
      assert SlotOk(s.main, s.nrTasks, s.base, i, s.slots[i]);
      MainPays(s, wakeMain, i);
      hide MainNext, MainWeight, WorkerWeight, SlotOk;
      TotalAfterUpdate(s.slots, i, MainNext(s, wakeMain).value.slots[i]);
    }
  }

  lemma NotifyPays(s: State, w: nat, wakeMain: bool)
    requires CountsOk(s) && w < |s.slots| && SlotOk(s.main, s.nrTasks, s.base, w, s.slots[w])
    requires WorkerNext(s, w, wakeMain).Some? && s.slots[w].pc == Notify
    ensures var s' := WorkerNext(s, w, wakeMain).value;
            && |s'.slots| == |s.slots| && s'.slots == s.slots[w := s'.slots[w]]
            && MainIndexOk(s'.main, s'.nrTasks)
            && MainWeight(s'.main, s'.nrTasks) + WorkerWeight(s'.slots[w])
             < MainWeight(s.main, s.nrTasks) + WorkerWeight(s.slots[w])
  {
  }

  lemma OtherWorkPays(s: State, w: nat, wakeMain: bool)
    requires CountsOk(s) && w < |s.slots| && SlotOk(s.main, s.nrTasks, s.base, w, s.slots[w])
    requires WorkerNext(s, w, wakeMain).Some? && s.slots[w].pc != Notify
    ensures var s' := WorkerNext(s, w, wakeMain).value;
            && |s'.slots| == |s.slots| && s'.slots == s.slots[w := s'.slots[w]]
            && MainIndexOk(s'.main, s'.nrTasks)
            && MainWeight(s'.main, s'.nrTasks) + WorkerWeight(s'.slots[w])
             < MainWeight(s.main, s.nrTasks) + WorkerWeight(s.slots[w])
  {
  }

  lemma WorkerPays(s: State, w: nat, wakeMain: bool)
    requires CountsOk(s) && w < |s.slots| && SlotOk(s.main, s.nrTasks, s.base, w, s.slots[w])
    requires WorkerNext(s, w, wakeMain).Some?
    ensures var s' := WorkerNext(s, w, wakeMain).value;
            && CountsOk(s') && |s'.slots| == |s.slots| && s'.slots == s.slots[w := s'.slots[w]]
            && MainWeight(s'.main, s'.nrTasks) + WorkerWeight(s'.slots[w])
             < MainWeight(s.main, s.nrTasks) + WorkerWeight(s.slots[w])
  {
    WorkerKeepsCounts(s, w, wakeMain);
    hide WorkerNext, MainWeight, WorkerWeight, SlotOk, CountsOk;
    if s.slots[w].pc == Notify {
      NotifyPays(s, w, wakeMain);
    } else {
      OtherWorkPays(s, w, wakeMain);
    }
  }

  lemma WorkerDecreases(s: State, w: nat, wakeMain: bool)
    requires CountsOk(s) && SlotsOk(s) && w < |s.slots| && WorkerNext(s, w, wakeMain).Some?
    ensures CountsOk(WorkerNext(s, w, wakeMain).value) && Measure(WorkerNext(s, w, wakeMain).value) < Measure(s)
  {
    assert SlotOk(s.main, s.nrTasks, s.base, w, s.slots[w]);
    WorkerPays(s, w, wakeMain);
    hide WorkerNext, MainWeight, WorkerWeight, SlotOk;
    TotalAfterUpdate(s.slots, w, WorkerNext(s, w, wakeMain).value.slots[w]);
  }

  /** Every step of a thread of the pool uses up some of the remaining work. */
  lemma OwnStepDecreases(s: State, step: Step)
    requires Inv(s) && IsOwnStep(step) && Next(s, step).Some?
    ensures Inv(Next(s, step).value) && Measure(Next(s, step).value) < Measure(s)
  {
    InvKept(s, step);
    match step
    case MainStep(wakeMain) => MainDecreases(s, wakeMain);
    case WorkerStep(w, wakeMain) => WorkerDecreases(s, w, wakeMain);
  }

  lemma RelockWeight()
    ensures forall t: Slot :: t.pc == Asleep ==> WorkerWeight(t.(pc := Relock)) <= WorkerWeight(t) + 2
    ensures WorkerWeight(Slot(Free, false, false, None, Lock)) == 2
  {
  }

  lemma EnvironmentAddsTwo(s: State, step: Step)
    requires CountsOk(s) && SlotsOk(s) && IsEnvironmentStep(step) && Next(s, step).Some?
    ensures CountsOk(Next(s, step).value) && Measure(Next(s, step).value) <= Measure(s) + 2
  {
    CountsKept(s, step);
    hide MainNext, WorkerNext, WorkerWeight, MainOwns;
    var s' := Next(s, step).value;
    RelockWeight();
    match step
    case Register => assert s'.slots[..|s.slots|] == s.slots;
    case SpuriousWorker(w) => TotalAfterUpdate(s.slots, w, s'.slots[w]);
    case SpuriousMain =>
  }

  /** A step that is possible whenever the main thread is inside thread_do_work. */
  function Runnable(s: State): Step
    requires CountsOk(s) && s.main != Idle
  {
    match s.main
    case Signal(i, stage) =>
      if stage == TakeLock && s.slots[i].lock != Free then WorkerStep(i, true) else MainStep(true)
    case Collect(i, stage) =>
      if stage == WaitAsleep || ((stage == WaitLock || stage == WaitRelock) && s.slots[i].lock != Free)
      then WorkerStep(i, true) else MainStep(true)
    case _ => MainStep(true)
  }

  lemma SignalNotStuck(s: State)
    requires CountsOk(s) && SlotsOk(s) && s.main.Signal?
    ensures Next(s, Runnable(s)).Some?
  {
    assert SlotOk(s.main, s.nrTasks, s.base, s.main.i, s.slots[s.main.i]);
  }

  lemma CollectNotStuck(s: State)
    requires CountsOk(s) && SlotsOk(s) && s.main.Collect?
    ensures Next(s, Runnable(s)).Some?
  {
    assert SlotOk(s.main, s.nrTasks, s.base, s.main.i, s.slots[s.main.i]);
  }

  /** No reachable state inside thread_do_work is stuck; in particular no wake-up is lost. */
  lemma NeverStuck(s: State)
    requires Inv(s) && s.main != Idle
    ensures Next(s, Runnable(s)).Some?
  {
    match s.main
    case Signal(_, _) => SignalNotStuck(s);
    case Collect(_, _) => CollectNotStuck(s);
    case _ =>
  }

  function OwnSteps(steps: seq<Step>): nat {
    if steps == [] then 0
    else OwnSteps(steps[..|steps| - 1]) + if IsOwnStep(steps[|steps| - 1]) then 1 else 0
  }

  /**
  However the threads are scheduled, from a reachable state they can take at most
  Measure steps of their own plus two per unasked wake-up or newly entered thread
  before all that is left is to wait.
  */
  lemma {:induction false} OwnStepsBounded(trace: seq<State>, steps: seq<Step>)
    requires IsPath(trace, steps) && Inv(trace[0])
    requires forall i :: 0 <= i < |steps| ==> IsOwnStep(steps[i]) || IsEnvironmentStep(steps[i])
    ensures Inv(trace[|steps|])
    ensures OwnSteps(steps) + Measure(trace[|steps|]) <= Measure(trace[0]) + 2 * (|steps| - OwnSteps(steps))
  {
    hide Next, CountsOk, SlotsOk, LogOk, Measure;
    if |steps| == 0 {
    } else {
      var n := |steps| - 1;
      OwnStepsBounded(trace[..n + 1], steps[..n]);
      var s, step := trace[n], steps[n];
      assert Next(s, step) == Some(trace[n + 1]);
      InvKept(s, step);
      if IsOwnStep(step) {
        OwnStepDecreases(s, step);
      } else {
        EnvironmentAddsTwo(s, step);
      }
    }
  }

  /** No thread of the pool can take a step of its own. */
  ghost predicate NoOwnStep(s: State) {
    forall step :: IsOwnStep(step) ==> Next(s, step).None?
  }

  lemma {:induction false} AllOwnSteps(steps: seq<Step>)
    requires forall i :: 0 <= i < |steps| ==> IsOwnStep(steps[i])
    ensures OwnSteps(steps) == |steps|
    decreases |steps|
  {
    if steps == [] {
    } else {
      AllOwnSteps(steps[..|steps| - 1]);
    }
  }

  /**
  Every schedule of the threads' own steps ends, after at most Measure of its first state, and where
  it cannot go on thread_do_work has returned.
  */
  lemma EveryScheduleReturns(trace: seq<State>, steps: seq<Step>)
    requires IsPath(trace, steps) && Inv(trace[0])
    requires forall i :: 0 <= i < |steps| ==> IsOwnStep(steps[i])
    ensures |steps| <= Measure(trace[0])
    ensures NoOwnStep(trace[|steps|]) ==> trace[|steps|].main == Idle
  {
    hide Next, CountsOk, SlotsOk, LogOk, Measure;
    OwnStepsBounded(trace, steps);
    AllOwnSteps(steps);
    var last := trace[|steps|];
    if last.main != Idle {
      NeverStuck(last);
      assert IsOwnStep(Runnable(last));
    }
  }

  /** From every reachable state inside thread_do_work the threads' own steps lead to its return. */
  lemma {:induction false} DoWorkReturns(s: State) returns (trace: seq<State>, steps: seq<Step>)
    requires Inv(s)
    ensures IsPath(trace, steps) && trace[0] == s && trace[|steps|].main == Idle
    ensures forall i :: 0 <= i < |steps| ==> IsOwnStep(steps[i])
    decreases Measure(s)
  {
    hide Next, CountsOk, SlotsOk, LogOk, Measure;
    if s.main == Idle {
      trace, steps := [s], [];
    } else {
      var step := Runnable(s);
      NeverStuck(s);
      var s' := Next(s, step).value;
      OwnStepDecreases(s, step);
      var rest, more := DoWorkReturns(s');
      trace, steps := [s] + rest, [step] + more;
    }
  }
}
