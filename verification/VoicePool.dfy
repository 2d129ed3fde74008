/**
 The voice worker pool of cpt_app/server/src/server_voice.c as a transition system: any number
 of workers run start_thread, any number of outside threads call submit_task and
 toggle_user_vchan. Every lock, wait, signal and unlock is a step of its own, so the signal of
 submit_task comes strictly after its unlock. A waiter may also wake up
 spuriously, as POSIX.1-2008 allows for pthread_cond_wait; a signal that releases several
 waiters is a signal followed by spurious wakeups.
 */
module VoicePool {
  import opened Wrappers
  import opened VoiceQueue

  /** Where a thread stands. "Holds" marks the program points inside the mutex. */
  datatype Pc =
    | Outside                  // an outside thread between two calls
    | LoopTop                  // a worker about to lock the mutex
    | Checking                 // holds: about to test task_count == 0
    | Waiting                  // asleep in pthread_cond_wait, the mutex released
    | Woken                    // awake, about to take the mutex again
    | Popped(task: Task)       // holds: has shifted the queue, about to unlock
    | Deciding(task: Task)     // about to read active_voice_chan, without the mutex
    | Running(task: Task)      // in execute_voice_task
    | Submitting(task: Task)   // in submit_task, about to lock
    | Appending(task: Task)    // holds: about to write the slot and the count
    | Appended                 // holds: about to unlock
    | Signalling               // unlocked, the signal still owed
    | Toggling(uid: int)       // in toggle_user_vchan, about to lock
    | Flipping(uid: int)       // holds: about to flip the user's entry of active_voice_chan
    | Flipped                  // holds: about to unlock

  /** Threads 0..workers are the pool, the others call from outside. */
  datatype State = State(workers: nat, pcs: seq<Pc>, owner: Option<nat>, queue: seq<Task>,
                         active: set<int>, submitted: set<Task>, destroyed: set<Task>)

  datatype Action =
    | Lock(i: nat)
    | Wait(i: nat)
    | Pop(i: nat)
    | UnlockPop(i: nat)
    | Decide(i: nat)
    | Finish(i: nat)
    | Append(i: nat)
    | UnlockAppend(i: nat)
    | Signal(i: nat, waiter: nat)  // waiter is ignored when nobody waits
    | Spurious(i: nat)
    | SubmitNew(i: nat, task: Task)
    | CallToggle(i: nat, uid: int)
    | Flip(i: nat)
    | UnlockFlip(i: nat)

  predicate Holds(pc: Pc) {
    pc.Checking? || pc.Popped? || pc.Appending? || pc.Appended? || pc.Flipping? || pc.Flipped?
  }

  /** Back to the loop for a worker, back to the caller for an outside thread. */
  function Home(s: State, i: nat): Pc {
    if i < s.workers then LoopTop else Outside
  }

  predicate SomeoneWaits(s: State) {
    exists k :: 0 <= k < |s.pcs| && s.pcs[k] == Waiting
  }

  predicate AtLock(pc: Pc) {
    pc.LoopTop? || pc.Woken? || pc.Submitting? || pc.Toggling?
  }

  /** Where the lock takes a thread. */
  function Inside(pc: Pc): Pc {
    match pc
    case Submitting(t) => Appending(t)
    case Toggling(uid) => Flipping(uid)
    case _ => Checking
  }

  predicate Enabled(s: State, a: Action) {
    match a
    case Lock(i) => i < |s.pcs| && s.owner == None && AtLock(s.pcs[i])
    case Wait(i) => i < |s.pcs| && s.pcs[i] == Checking && s.queue == []
    case Pop(i) => i < |s.pcs| && s.pcs[i] == Checking && s.queue != []
    case UnlockPop(i) => i < |s.pcs| && s.pcs[i].Popped?
    case Decide(i) => i < |s.pcs| && s.pcs[i].Deciding?
    case Finish(i) => i < |s.pcs| && s.pcs[i].Running?
    case Append(i) => i < |s.pcs| && s.pcs[i].Appending?
    case UnlockAppend(i) => i < |s.pcs| && s.pcs[i] == Appended
    case Signal(i, w) =>
      i < |s.pcs| && s.pcs[i] == Signalling && (SomeoneWaits(s) ==> w < |s.pcs| && s.pcs[w] == Waiting)
    case Spurious(i) => i < |s.pcs| && s.pcs[i] == Waiting
    case SubmitNew(i, t) => s.workers <= i < |s.pcs| && s.pcs[i] == Outside && t !in s.submitted
    case CallToggle(i, _) => s.workers <= i < |s.pcs| && s.pcs[i] == Outside
    case Flip(i) => i < |s.pcs| && s.pcs[i].Flipping?
    case UnlockFlip(i) => i < |s.pcs| && s.pcs[i] == Flipped
  }

  function Moved(s: State, i: nat, pc: Pc): State
    requires i < |s.pcs|
  {
    s.(pcs := s.pcs[i := pc])
  }

  function Next(s: State, a: Action): State
    requires Enabled(s, a)
  {
    match a
    case Lock(i) => Moved(s, i, Inside(s.pcs[i])).(owner := Some(i))
    case Wait(i) => Moved(s, i, Waiting).(owner := None)
    case Pop(i) => Moved(s, i, Popped(s.queue[0])).(queue := Dequeued(s.queue))
    case UnlockPop(i) => Moved(s, i, Deciding(s.pcs[i].task)).(owner := None)
    case Decide(i) =>
      var t := s.pcs[i].task;
      if t.uid in s.active then Moved(s, i, Running(t))
      else Moved(s, i, LoopTop).(destroyed := s.destroyed + {t})
    case Finish(i) => Moved(s, i, Submitting(s.pcs[i].task))
    case Append(i) => Moved(s, i, Appended).(queue := Enqueued(s.queue, s.pcs[i].task))
    case UnlockAppend(i) => Moved(s, i, Signalling).(owner := None)
    case Signal(i, w) =>
      var s' := Moved(s, i, Home(s, i));
      if SomeoneWaits(s) then Moved(s', w, Woken) else s'
    case Spurious(i) => Moved(s, i, Woken)
    case SubmitNew(i, t) => Moved(s, i, Submitting(t)).(submitted := s.submitted + {t})
    case CallToggle(i, uid) => Moved(s, i, Toggling(uid))
    case Flip(i) =>
      var uid := s.pcs[i].uid;
      Moved(s, i, Flipped).(active := if uid in s.active then s.active - {uid} else s.active + {uid})
    case UnlockFlip(i) => Moved(s, i, Outside).(owner := None)
  }

  /** voice_pool has created the workers; nothing is queued. */
  function Initial(workers: nat, outsiders: nat): State {
    State(workers, seq(workers + outsiders, i => if i < workers then LoopTop else Outside),
          None, [], {}, {}, {})
  }

  predicate Run(s: State, run: seq<Action>)
    decreases run
  {
    run == [] || (Enabled(s, run[0]) && Run(Next(s, run[0]), run[1..]))
  }

  function After(s: State, run: seq<Action>): State
    requires Run(s, run)
    decreases run
  {
    if run == [] then s else After(Next(s, run[0]), run[1..])
  }

  // ---- Counting threads ----

  function Sum(pcs: seq<Pc>, f: Pc -> int): int {
    if pcs == [] then 0 else f(pcs[0]) + Sum(pcs[1..], f)
  }

  lemma {:induction false} SumUpdate(pcs: seq<Pc>, i: nat, pc: Pc, f: Pc -> int)
    requires i < |pcs|
    ensures Sum(pcs[i := pc], f) == Sum(pcs, f) - f(pcs[i]) + f(pc)
  {
    if i == 0 {
      assert pcs[0 := pc][1..] == pcs[1..];
    } else {
      assert pcs[i := pc][1..] == pcs[1..][i - 1 := pc];
      SumUpdate(pcs[1..], i - 1, pc, f);
    }
  }

  /** For a count, the sum is positive exactly when some thread counts. */
  lemma {:induction false} SumPositive(pcs: seq<Pc>, f: Pc -> int)
    requires forall pc :: f(pc) >= 0
    ensures Sum(pcs, f) >= 0
    ensures Sum(pcs, f) > 0 <==> exists k :: 0 <= k < |pcs| && f(pcs[k]) > 0
    ensures forall k :: 0 <= k < |pcs| ==> f(pcs[k]) <= Sum(pcs, f)
  {
    if pcs != [] {
      SumPositive(pcs[1..], f);
      assert forall k :: 1 <= k < |pcs| ==> pcs[k] == pcs[1..][k - 1];
      assert forall k :: 0 <= k < |pcs| - 1 ==> pcs[1..][k] == pcs[k + 1];
      if Sum(pcs[1..], f) == 0 && Sum(pcs, f) > 0 {
        assert f(pcs[0]) > 0;
      }
    }
  }

  /** What a step does to a sum: one thread moves, and a signal may wake a second one. */
  lemma StepSum(s: State, a: Action, f: Pc -> int)
    requires Enabled(s, a)
    ensures Sum(Next(s, a).pcs, f) ==
            Sum(s.pcs, f) - f(s.pcs[a.i]) + f(Next(s, a).pcs[a.i])
            + (if a.Signal? && SomeoneWaits(s) then f(Woken) - f(Waiting) else 0)
  {
    if a.Signal? && SomeoneWaits(s) {
      SumUpdate(s.pcs, a.i, Home(s, a.i), f);
      SumUpdate(s.pcs[a.i := Home(s, a.i)], a.waiter, Woken, f);
    } else {
      SumUpdate(s.pcs, a.i, Next(s, a).pcs[a.i], f);
    }
  }

  /** 1 at a worker asleep. */
  function Sleeps(): Pc -> int {
    (pc: Pc) => if pc.Waiting? then 1 else 0
  }

  /** 1 at a thread that has queued a task and not yet signalled. */
  function Owes(): Pc -> int {
    (pc: Pc) => if pc.Appended? || pc.Signalling? then 1 else 0
  }

  /** 1 at a worker that will look at the queue before it can sleep. */
  function AboutToCheck(): Pc -> int {
    (pc: Pc) => if pc.LoopTop? || pc.Checking? || pc.Woken? then 1 else 0
  }

  predicate InHand(pc: Pc) {
    pc.Popped? || pc.Deciding? || pc.Running? || pc.Submitting? || pc.Appending?
  }

  /** 1 at a thread with a task in its hands. */
  function Carries(): Pc -> int {
    (pc: Pc) => if InHand(pc) then 1 else 0
  }

  /** 1 at a thread with this very task in its hands. */
  function Has(t: Task): Pc -> int {
    (pc: Pc) => if InHand(pc) && pc.task == t then 1 else 0
  }

  // ---- The invariant ----

  /** The mutex owner is the one thread inside a critical section. */
  ghost predicate MutexOk(s: State) {
    && (s.owner.Some? ==> s.owner.value < |s.pcs|)
    && forall i :: 0 <= i < |s.pcs| ==> (Holds(s.pcs[i]) <==> s.owner == Some(i))
  }

  predicate OutsidePc(pc: Pc) {
    pc.Outside? || pc.Submitting? || pc.Appending? || pc.Appended? || pc.Signalling?
    || pc.Toggling? || pc.Flipping? || pc.Flipped?
  }

  predicate WorkerPc(pc: Pc) {
    !pc.Outside? && !pc.Toggling? && !pc.Flipping? && !pc.Flipped?
  }

  /** Outside threads only submit and toggle; workers are never outside. */
  ghost predicate RolesOk(s: State) {
    && s.workers <= |s.pcs|
    && (forall i :: 0 <= i < s.workers ==> WorkerPc(s.pcs[i]))
    && (forall i :: s.workers <= i < |s.pcs| ==> OutsidePc(s.pcs[i]))
  }

  /** Either nobody sleeps, or every queued task is matched by an owed signal or a worker about to check. */
  ghost predicate WakeupOk(s: State) {
    Sum(s.pcs, Sleeps()) == 0 || |s.queue| <= Sum(s.pcs, Owes()) + Sum(s.pcs, AboutToCheck())
  }

  /** In how many places a task is: positions of the queue, threads' hands, destroyed. */
  function Places(s: State, t: Task): int {
    multiset(s.queue)[t] + Sum(s.pcs, Has(t)) + if t in s.destroyed then 1 else 0
  }

  /** Every submitted task is in exactly one place, and no other task is anywhere. */
  ghost predicate Conserved(s: State) {
    forall t :: Places(s, t) == if t in s.submitted then 1 else 0
  }

  /** The tasks not yet destroyed are those queued and those in hand. */
  ghost predicate LiveOk(s: State) {
    |s.queue| + Sum(s.pcs, Carries()) + |s.destroyed| == |s.submitted|
  }

  ghost predicate Inv(s: State) {
    MutexOk(s) && RolesOk(s) && WakeupOk(s) && Conserved(s) && LiveOk(s)
  }

  lemma MutexStep(s: State, a: Action)
    requires Enabled(s, a) && MutexOk(s)
    ensures MutexOk(Next(s, a))
  {
  }

  lemma RoleStep(s: State, a: Action)
    requires Enabled(s, a) && RolesOk(s)
    ensures var pc := Next(s, a).pcs[a.i]; if a.i < s.workers then WorkerPc(pc) else OutsidePc(pc)
  {
  }

  lemma RolesStep(s: State, a: Action)
    requires Enabled(s, a) && RolesOk(s)
    ensures RolesOk(Next(s, a))
  {
    RoleStep(s, a);
    OthersStay(s, a);
  }

  /** Only the acting thread moves, and the one a signal wakes. */
  lemma OthersStay(s: State, a: Action)
    requires Enabled(s, a)
    ensures Next(s, a).workers == s.workers && |Next(s, a).pcs| == |s.pcs|
    ensures forall k :: 0 <= k < |s.pcs| && k != a.i ==>
              Next(s, a).pcs[k] == s.pcs[k] || (s.pcs[k] == Waiting && Next(s, a).pcs[k] == Woken)
  {
  }

  /** What a step does to the counts of WakeupOk, as far as the acting thread goes. */
  lemma WakeDelta(s: State, a: Action)
    requires Enabled(s, a)
    ensures var pc, pc' := s.pcs[a.i], Next(s, a).pcs[a.i];
            && Sleeps()(pc') - Sleeps()(pc) == Indicator(a.Wait?) - Indicator(a.Spurious?)
            && Owes()(pc') + AboutToCheck()(pc') - Owes()(pc) - AboutToCheck()(pc)
               == Indicator(a.Append? || a.Spurious? || (a.Decide? && pc'.LoopTop?))
                  - Indicator(a.Wait? || a.Pop?) - Indicator(a.Signal? && !pc'.LoopTop?)
  {
  }

  lemma WaitersCounted(s: State)
    ensures SomeoneWaits(s) <==> Sum(s.pcs, Sleeps()) > 0
    ensures Sum(s.pcs, Sleeps()) >= 0 && Sum(s.pcs, Owes()) >= 0 && Sum(s.pcs, AboutToCheck()) >= 0
  {
    SumPositive(s.pcs, Sleeps());
    SumPositive(s.pcs, Owes());
    SumPositive(s.pcs, AboutToCheck());
    assert forall k :: 0 <= k < |s.pcs| ==> (s.pcs[k] == Waiting <==> Sleeps()(s.pcs[k]) > 0);
  }

  lemma WakeupStep(s: State, a: Action)
    requires Enabled(s, a) && WakeupOk(s)
    ensures WakeupOk(Next(s, a))
  {
    WaitersCounted(s);
    WaitersCounted(Next(s, a));
    StepSum(s, a, Sleeps());
    StepSum(s, a, Owes());
    StepSum(s, a, AboutToCheck());
    WakeDelta(s, a);
    assert |Next(s, a).queue| == |s.queue| + Indicator(a.Append?) - Indicator(a.Pop?);
  }

  function Indicator(b: bool): int {
    if b then 1 else 0
  }

  /** A task in hand is neither queued nor destroyed. */
  lemma InHandOnce(s: State, i: nat)
    requires Conserved(s) && i < |s.pcs| && InHand(s.pcs[i])
    ensures var t := s.pcs[i].task; t !in s.queue && t !in s.destroyed && t in s.submitted
  {
    var t := s.pcs[i].task;
    SumPositive(s.pcs, Has(t));
    assert Has(t)(s.pcs[i]) == 1;
    assert Places(s, t) <= 1;
  }

  /** How a step changes what is in hand: 1 for a task taken up, -1 for one put down. */
  lemma HandDelta(s: State, a: Action, t: Task)
    requires Enabled(s, a)
    ensures var i, s' := a.i, Next(s, a);
            var gone := a.Decide? && s.pcs[i].task.uid !in s.active;
            && Carries()(s'.pcs[i]) - Carries()(s.pcs[i])
               == Indicator(a.Pop? || a.SubmitNew?) - Indicator(a.Append? || gone)
            && Has(t)(s'.pcs[i]) - Has(t)(s.pcs[i])
               == Indicator((a.Pop? && s.queue[0] == t) || (a.SubmitNew? && a.task == t))
                  - Indicator((a.Append? || gone) && s.pcs[i].task == t)
    ensures Carries()(Woken) == Carries()(Waiting) == Has(t)(Woken) == Has(t)(Waiting) == 0
  {
  }

  lemma QueueDelta(s: State, a: Action, t: Task)
    requires Enabled(s, a)
    ensures multiset(Next(s, a).queue)[t] == multiset(s.queue)[t] - Indicator(a.Pop? && s.queue[0] == t)
                                             + Indicator(a.Append? && s.pcs[a.i].task == t)
  {
    if a.Pop? {
      assert s.queue == [s.queue[0]] + Next(s, a).queue;
    }
  }

  lemma PlacesStep(s: State, a: Action, t: Task)
    requires Enabled(s, a) && Conserved(s)
    ensures Places(Next(s, a), t) == if t in Next(s, a).submitted then 1 else 0
  {
    var s' := Next(s, a);
    StepSum(s, a, Has(t));
    assert Places(s, t) == if t in s.submitted then 1 else 0;
    HandDelta(s, a, t);
    QueueDelta(s, a, t);
    if a.Decide? {
      InHandOnce(s, a.i);
    }
  }

  lemma ConservedStep(s: State, a: Action)
    requires Enabled(s, a) && Conserved(s)
    ensures Conserved(Next(s, a))
  {
    forall t
      ensures Places(Next(s, a), t) == if t in Next(s, a).submitted then 1 else 0
    {
      PlacesStep(s, a, t);
    }
  }

  lemma LiveStep(s: State, a: Action)
    requires Enabled(s, a) && Conserved(s) && LiveOk(s)
    ensures LiveOk(Next(s, a))
  {
    var s' := Next(s, a);
    StepSum(s, a, Carries());
    HandDelta(s, a, Task(0, 0));
    assert |s'.queue| == |s.queue| - Indicator(a.Pop?) + Indicator(a.Append?);
    assert |s'.submitted| == |s.submitted| + Indicator(a.SubmitNew?);
    if a.Decide? {
      InHandOnce(s, a.i);
      assert |s'.destroyed| == |s.destroyed| + Indicator(s.pcs[a.i].task.uid !in s.active);
    }
  }

  lemma InvStep(s: State, a: Action)
    requires Enabled(s, a) && Inv(s)
    ensures Inv(Next(s, a))
  {
    MutexStep(s, a);
    RolesStep(s, a);
    WakeupStep(s, a);
    ConservedStep(s, a);
    LiveStep(s, a);
  }

  lemma {:induction false} InvRun(s: State, run: seq<Action>)
    requires Inv(s) && Run(s, run)
    ensures Inv(After(s, run))
    decreases run
  {
    if run != [] {
      InvStep(s, run[0]);
      InvRun(Next(s, run[0]), run[1..]);
    }
  }

  lemma {:induction false} InitialSum(pcs: seq<Pc>, f: Pc -> int)
    requires forall i :: 0 <= i < |pcs| ==> f(pcs[i]) == 0
    ensures Sum(pcs, f) == 0
  {
    if pcs != [] {
      InitialSum(pcs[1..], f);
    }
  }

  /** The invariant holds in every interleaving, for any number of workers and submitters. */
  lemma ReachableInv(workers: nat, outsiders: nat, run: seq<Action>)
    requires Run(Initial(workers, outsiders), run)
    ensures Inv(After(Initial(workers, outsiders), run))
  {
    var s := Initial(workers, outsiders);
    InitialSum(s.pcs, Sleeps());
    InitialSum(s.pcs, Carries());
    forall t
      ensures Places(s, t) == 0
    {
      InitialSum(s.pcs, Has(t));
    }
    InvRun(s, run);
  }

  // ---- No lost wakeup ----

  /** A non-empty queue never coexists with all workers asleep and no signal owed. */
  lemma NoLostWakeup(s: State)
    requires Inv(s) && s.workers > 0 && s.queue != []
    requires forall i :: 0 <= i < s.workers ==> s.pcs[i] == Waiting
    ensures exists i :: s.workers <= i < |s.pcs| && (s.pcs[i] == Appended || s.pcs[i] == Signalling)
  {
    SumPositive(s.pcs, Sleeps());
    assert Sleeps()(s.pcs[0]) == 1;
    assert forall k :: 0 <= k < |s.pcs| ==> AboutToCheck()(s.pcs[k]) == 0;
    InitialSum(s.pcs, AboutToCheck());
    SumPositive(s.pcs, Owes());
    var k :| 0 <= k < |s.pcs| && Owes()(s.pcs[k]) > 0;
  }

  /** A new call from outside. */
  predicate Call(a: Action) {
    a.SubmitNew? || a.CallToggle?
  }

  /** The steps a scheduler can be relied on to take in the end: no new call, no spurious wakeup. */
  predicate Internal(a: Action) {
    !a.Spurious? && !Call(a)
  }

  /** The step a thread that is not asleep takes next, when the mutex is free or its own. */
  function NextStep(s: State, i: nat, waiter: nat): Action
    requires i < |s.pcs|
  {
    match s.pcs[i]
    case Checking => if s.queue == [] then Wait(i) else Pop(i)
    case Popped(_) => UnlockPop(i)
    case Deciding(_) => Decide(i)
    case Running(_) => Finish(i)
    case Appending(_) => Append(i)
    case Appended => UnlockAppend(i)
    case Signalling => Signal(i, waiter)
    case Flipping(_) => Flip(i)
    case Flipped => UnlockFlip(i)
    case _ => Lock(i)
  }

  /** A thread that holds the mutex, or finds it free and is neither asleep nor outside, can step. */
  lemma CanStep(s: State, i: nat)
    requires i < |s.pcs| && s.pcs[i] != Waiting && s.pcs[i] != Outside
    requires Holds(s.pcs[i]) || s.owner == None
    ensures exists a :: Internal(a) && Enabled(s, a)
  {
    var waiter := 0;
    if k :| 0 <= k < |s.pcs| && s.pcs[k] == Waiting {
      waiter := k;
    }
    var a := NextStep(s, i, waiter);
    assert Internal(a) && Enabled(s, a);
  }

  /** While a task is queued, some thread can take an internal step: the pool is never stuck. */
  lemma NeverStuck(s: State)
    requires Inv(s) && s.workers > 0 && s.queue != []
    ensures exists a :: Internal(a) && Enabled(s, a)
  {
    if s.owner.Some? {
      assert Holds(s.pcs[s.owner.value]);
      CanStep(s, s.owner.value);
    } else if k :| 0 <= k < s.workers && s.pcs[k] != Waiting {
      assert !Holds(s.pcs[k]);
      CanStep(s, k);
    } else {
      NoLostWakeup(s);
      var i :| s.workers <= i < |s.pcs| && (s.pcs[i] == Appended || s.pcs[i] == Signalling);
      assert !Holds(s.pcs[i]);
      CanStep(s, i);
    }
  }

  /** How many steps a thread can take before it must pop a task or start another call. */
  function Rank(): Pc -> int {
    (pc: Pc) =>
      match pc
      case Outside => 0
      case Checking => 0
      case LoopTop => 1
      case Woken => 1
      case Waiting => 2
      case Signalling => 2
      case Appended => 3
      case Appending(_) => 4
      case Submitting(_) => 5
      case Running(_) => 6
      case Deciding(_) => 7
      case Popped(_) => 8
      case Flipped => 1
      case Flipping(_) => 2
      case Toggling(_) => 3
  }

  /** The steps of a run other than new calls; spurious wakeups are among them. */
  function Steps(run: seq<Action>): nat {
    if run == [] then 0 else (if Call(run[0]) then 0 else 1) + Steps(run[1..])
  }

  function Calls(run: seq<Action>): nat {
    if run == [] then 0 else (if Call(run[0]) then 1 else 0) + Calls(run[1..])
  }

  /** Every step but a pop lowers the sum of the ranks, and a new call raises it by 5 at most. */
  lemma RankStep(s: State, a: Action)
    requires Enabled(s, a) && !a.Pop? && s.queue != []
    ensures Sum(Next(s, a).pcs, Rank()) <= Sum(s.pcs, Rank()) + if Call(a) then 5 else -1
    ensures Next(s, a).queue != []
  {
    StepSum(s, a, Rank());
  }

  lemma {:induction false} RankRun(s: State, run: seq<Action>)
    requires Run(s, run) && s.queue != []
    requires forall k :: 0 <= k < |run| ==> !run[k].Pop?
    ensures Steps(run) <= Sum(s.pcs, Rank()) + 5 * Calls(run)
    decreases run
  {
    if run == [] {
      SumPositive(s.pcs, Rank());
    } else {
      RankStep(s, run[0]);
      RankRun(Next(s, run[0]), run[1..]);
    }
  }

  lemma {:induction false} RankBound(pcs: seq<Pc>)
    ensures Sum(pcs, Rank()) <= 8 * |pcs|
  {
    if pcs != [] {
      RankBound(pcs[1..]);
    }
  }

  /** The run up to its first pop. */
  function BeforePop(run: seq<Action>): (prefix: seq<Action>)
    ensures prefix <= run && forall k :: 0 <= k < |prefix| ==> !prefix[k].Pop?
    ensures |prefix| < |run| ==> run[|prefix|].Pop?
  {
    if run == [] || run[0].Pop? then [] else [run[0]] + BeforePop(run[1..])
  }

  lemma {:induction false} RunPrefix(s: State, run: seq<Action>, n: nat)
    requires Run(s, run) && n <= |run|
    ensures Run(s, run[..n])
    decreases run
  {
    if n > 0 {
      RunPrefix(Next(s, run[0]), run[1..], n - 1);
      assert run[..n][1..] == run[1..][..n - 1];
    }
  }

  /**
   In every run, whatever the scheduler does, whoever wakes up spuriously and whatever is called
   from outside meanwhile: a queued task is popped before 8 steps per thread and 5 per new call
   have been taken (and by NeverStuck there is always a step to take).
   */
  lemma PopsSoon(s: State, run: seq<Action>)
    requires Run(s, run) && s.queue != []
    ensures Steps(BeforePop(run)) <= 8 * |s.pcs| + 5 * Calls(BeforePop(run))
  {
    var prefix := BeforePop(run);
    assert run[..|prefix|] == prefix;
    RunPrefix(s, run, |prefix|);
    RankBound(s.pcs);
    RankRun(s, prefix);
  }

  // ---- Capacity ----

  /** Outside submissions keep the number of live tasks within the array. */
  ghost predicate Roomy(s: State, run: seq<Action>)
    requires Run(s, run)
    decreases run
  {
    run == [] ||
    ((run[0].SubmitNew? ==> |s.submitted| - |s.destroyed| < CAPACITY) && Roomy(Next(s, run[0]), run[1..]))
  }

  lemma {:induction false} LiveBounded(s: State, run: seq<Action>)
    requires Inv(s) && Run(s, run) && Roomy(s, run) && |s.submitted| - |s.destroyed| <= CAPACITY
    ensures var s' := After(s, run); Inv(s') && |s'.submitted| - |s'.destroyed| <= CAPACITY
    decreases run
  {
    if run != [] {
      InvStep(s, run[0]);
      if run[0].Decide? {
        InHandOnce(s, run[0].i);
      }
      LiveBounded(Next(s, run[0]), run[1..]);
    }
  }

  /** No append, a worker's resubmission included, ever finds the array full. */
  lemma AppendHasRoom(workers: nat, outsiders: nat, run: seq<Action>, i: nat)
    requires Run(Initial(workers, outsiders), run) && Roomy(Initial(workers, outsiders), run)
    requires Enabled(After(Initial(workers, outsiders), run), Append(i))
    ensures |After(Initial(workers, outsiders), run).queue| < CAPACITY == 1024
  {
    ReachableInv(workers, outsiders, []);
    LiveBounded(Initial(workers, outsiders), run);
    var s := After(Initial(workers, outsiders), run);
    SumPositive(s.pcs, Carries());
    assert Carries()(s.pcs[i]) == 1;
  }

  // ---- First in, first out ----

  function PoppedBy(s: State, a: Action): seq<Task>
    requires Enabled(s, a)
  {
    if a.Pop? then [s.queue[0]] else []
  }

  function AppendedBy(s: State, a: Action): seq<Task>
    requires Enabled(s, a)
  {
    if a.Append? then [s.pcs[a.i].task] else []
  }

  /** The tasks popped during a run, and the tasks appended, each in order. */
  function PoppedIn(s: State, run: seq<Action>): seq<Task>
    requires Run(s, run)
    decreases run
  {
    if run == [] then [] else PoppedBy(s, run[0]) + PoppedIn(Next(s, run[0]), run[1..])
  }

  function AppendedIn(s: State, run: seq<Action>): seq<Task>
    requires Run(s, run)
    decreases run
  {
    if run == [] then [] else AppendedBy(s, run[0]) + AppendedIn(Next(s, run[0]), run[1..])
  }

  /** The law of the queue: what leaves, followed by what stays, is what was there followed by what came. */
  lemma {:induction false} QueueLaw(s: State, run: seq<Action>)
    requires Run(s, run)
    ensures PoppedIn(s, run) + After(s, run).queue == s.queue + AppendedIn(s, run)
    decreases run
  {
    if run == [] {
      assert [] + s.queue == s.queue + [];
    } else {
      var a, s', rest := run[0], Next(s, run[0]), run[1..];
      QueueLaw(s', rest);
      assert PoppedBy(s, a) + s'.queue == s.queue + AppendedBy(s, a);
      Chained(PoppedBy(s, a), PoppedIn(s', rest), s.queue, s'.queue, After(s', rest).queue,
              AppendedBy(s, a), AppendedIn(s', rest));
    }
  }

  /** Two moves of a queue, one after the other, are one move. */
  lemma Chained<T>(out1: seq<T>, out2: seq<T>, q0: seq<T>, q1: seq<T>, q2: seq<T>, in1: seq<T>, in2: seq<T>)
    requires out1 + q1 == q0 + in1 && out2 + q2 == q1 + in2
    ensures (out1 + out2) + q2 == q0 + (in1 + in2)
  {
    calc {
      (out1 + out2) + q2;
      out1 + (q1 + in2);
      (out1 + q1) + in2;
      q0 + (in1 + in2);
    }
  }

  /**
   A task at position p leaves on exactly the (p+1)-th pop, whatever is submitted meanwhile;
   before that it is still queued, as many places further on as tasks were popped.
   */
  lemma LeavesInTurn(s: State, run: seq<Action>, p: nat)
    requires Run(s, run) && p < |s.queue|
    ensures var popped, queue := PoppedIn(s, run), After(s, run).queue;
            if |popped| > p then popped[p] == s.queue[p]
            else p - |popped| < |queue| && queue[p - |popped|] == s.queue[p]
  {
    QueueLaw(s, run);
    var popped, queue := PoppedIn(s, run), After(s, run).queue;
    assert (popped + queue)[p] == (s.queue + AppendedIn(s, run))[p];
  }

  /** A task just (re)submitted is popped again only after everything queued ahead of it. */
  lemma RoundRobin(s: State, i: nat, run: seq<Action>)
    requires Enabled(s, Append(i)) && Run(Next(s, Append(i)), run)
    ensures var popped := PoppedIn(Next(s, Append(i)), run);
            var ahead := s.queue;
            if |popped| <= |ahead| then popped <= ahead else ahead + [s.pcs[i].task] <= popped
  {
    var s1 := Next(s, Append(i));
    QueueLaw(s1, run);
    var popped, queue := PoppedIn(s1, run), After(s1, run).queue;
    assert popped <= s1.queue + AppendedIn(s1, run);
  }
}
