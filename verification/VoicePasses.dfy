/**
 Whole calls and passes of the voice pool, undisturbed by other threads: what submit_task,
 toggle_user_vchan and one turn of start_thread come to.
 */
module VoicePasses {
  import opened Wrappers
  import opened VoiceQueue
  import opened VoicePool

  // ---- Runs put together ----

  lemma {:induction false} RunAppend(s: State, a: seq<Action>, b: seq<Action>)
    requires Run(s, a) && Run(After(s, a), b)
    ensures Run(s, a + b) && After(s, a + b) == After(After(s, a), b)
    decreases a
  {
    if a == [] {
      assert a + b == b;
    } else {
      assert (a + b)[1..] == a[1..] + b;
      RunAppend(Next(s, a[0]), a[1..], b);
    }
  }

  lemma OneStep(s: State, a: Action, rest: seq<Action>)
    requires Enabled(s, a) && Run(Next(s, a), rest)
    ensures Run(s, [a] + rest) && After(s, [a] + rest) == After(Next(s, a), rest)
  {
    assert ([a] + rest)[1..] == rest;
  }

  lemma Steps2(s: State, a: Action, b: Action)
    requires Enabled(s, a) && Enabled(Next(s, a), b)
    ensures Run(s, [a, b]) && After(s, [a, b]) == Next(Next(s, a), b)
  {
    OneStep(Next(s, a), b, []);
    OneStep(s, a, [b]);
    assert [b] + [] == [b] && [a] + [b] == [a, b];
  }

  /** The threads after thread i has come to the program point pc. */
  function At(s: State, i: nat, pc: Pc): seq<Pc>
    requires i < |s.pcs|
  {
    s.pcs[i := pc]
  }

  // ---- The start ----

  /** The workers are about to lock, the others outside; nothing is queued, held or active. */
  lemma StartsIdle(workers: nat, outsiders: nat, i: nat)
    requires i < workers + outsiders
    ensures var s := Initial(workers, outsiders);
            && |s.pcs| == workers + outsiders && s.workers == workers
            && s.pcs[i] == (if i < workers then LoopTop else Outside)
            && s.owner == None && s.queue == [] && s.active == {} && s.submitted == {} && s.destroyed == {}
  {
  }

  // ---- toggle_user_vchan ----

  function Toggled(active: set<int>, uid: int): set<int> {
    (active - {uid}) + ({uid} - active)
  }

  /** One call flips this user's entry and nothing else. */
  lemma ToggleCall(s: State, i: nat, uid: int)
    requires s.workers <= i < |s.pcs| && s.pcs[i] == Outside && s.owner == None
    ensures var run := [CallToggle(i, uid), Lock(i)] + [Flip(i), UnlockFlip(i)];
            Run(s, run) && After(s, run) == s.(active := Toggled(s.active, uid))
  {
    var s2 := s.(pcs := At(s, i, Flipping(uid)), owner := Some(i));
    Steps2(s, CallToggle(i, uid), Lock(i));
    assert Next(Next(s, CallToggle(i, uid)), Lock(i)) == s2;
    Steps2(s2, Flip(i), UnlockFlip(i));
    assert s2.pcs[i := Flipped][i := Outside] == s.pcs;
    RunAppend(s, [CallToggle(i, uid), Lock(i)], [Flip(i), UnlockFlip(i)]);
  }

  /** Two calls cancel. */
  lemma ToggleTwice(active: set<int>, uid: int)
    ensures Toggled(Toggled(active, uid), uid) == active
    ensures forall other :: other != uid ==> (other in Toggled(active, uid) <==> other in active)
    ensures uid in Toggled(active, uid) <==> uid !in active
  {
  }

  // ---- submit_task ----

  /** From outside, a call takes up a new task. */
  lemma CallSubmit(s: State, i: nat, t: Task)
    requires s.workers <= i < |s.pcs| && s.pcs[i] == Outside && t !in s.submitted
    ensures Enabled(s, SubmitNew(i, t))
    ensures Next(s, SubmitNew(i, t)) == s.(pcs := s.pcs[i := Submitting(t)], submitted := s.submitted + {t})
  {
  }

  lemma AppendHalf(s: State, i: nat, t: Task)
    requires i < |s.pcs| && s.pcs[i] == Submitting(t) && s.owner == None
    ensures Run(s, [Lock(i), Append(i)])
    ensures After(s, [Lock(i), Append(i)])
            == s.(pcs := s.pcs[i := Appended], owner := Some(i), queue := s.queue + [t])
  {
    Steps2(s, Lock(i), Append(i));
    assert s.pcs[i := Appending(t)][i := Appended] == s.pcs[i := Appended];
  }

  /** Where a thread goes when its call returns, and whom its signal wakes. */
  function Returned(s: State, i: nat, waiter: nat): seq<Pc>
    requires i < |s.pcs| && (SomeoneWaits(s) ==> waiter < |s.pcs|)
  {
    var pcs := s.pcs[i := if i < s.workers then LoopTop else Outside];
    if SomeoneWaits(s) then pcs[waiter := Woken] else pcs
  }

  lemma SameSleepers(s: State, i: nat, pc: Pc)
    requires i < |s.pcs| && s.pcs[i] != Waiting && pc != Waiting
    ensures SomeoneWaits(s.(pcs := s.pcs[i := pc])) == SomeoneWaits(s)
  {
    assert forall k :: 0 <= k < |s.pcs| ==> (s.pcs[k] == Waiting <==> s.pcs[i := pc][k] == Waiting);
  }

  lemma SignalHalf(s: State, i: nat, waiter: nat)
    requires i < |s.pcs| && s.pcs[i] == Appended && s.owner == Some(i)
    requires SomeoneWaits(s) ==> waiter < |s.pcs| && s.pcs[waiter] == Waiting
    ensures Run(s, [UnlockAppend(i), Signal(i, waiter)])
    ensures After(s, [UnlockAppend(i), Signal(i, waiter)]) == s.(owner := None, pcs := Returned(s, i, waiter))
  {
    var s2 := Next(s, UnlockAppend(i));
    SameSleepers(s, i, Signalling);
    assert SomeoneWaits(s2) == SomeoneWaits(s);
    Steps2(s, UnlockAppend(i), Signal(i, waiter));
    assert s2.pcs[i := Home(s, i)] == s.pcs[i := Home(s, i)];
  }

  /** A thread with a task to submit: the task goes to the end of the queue, a sleeper, if there is
      one, is woken, and the thread is back at its loop or outside. */
  lemma SubmitCall(s: State, i: nat, t: Task, waiter: nat)
    requires i < |s.pcs| && s.pcs[i] == Submitting(t) && s.owner == None
    requires SomeoneWaits(s) ==> waiter < |s.pcs| && s.pcs[waiter] == Waiting
    ensures var run := [Lock(i), Append(i)] + [UnlockAppend(i), Signal(i, waiter)];
            Run(s, run) && After(s, run) == s.(queue := s.queue + [t], pcs := Returned(s, i, waiter))
  {
    AppendHalf(s, i, t);
    var s2 := s.(pcs := s.pcs[i := Appended], owner := Some(i), queue := s.queue + [t]);
    SameSleepers(s, i, Appended);
    assert SomeoneWaits(s2) == SomeoneWaits(s);
    SignalHalf(s2, i, waiter);
    assert Returned(s2, i, waiter) == Returned(s, i, waiter);
    RunAppend(s, [Lock(i), Append(i)], [UnlockAppend(i), Signal(i, waiter)]);
  }

  // ---- start_thread ----

  predicate Awake(pc: Pc) {
    pc == LoopTop || pc == Woken
  }

  /** A worker that finds the queue empty sleeps. */
  lemma EmptyPass(s: State, i: nat)
    requires i < |s.pcs| && Awake(s.pcs[i]) && s.owner == None && s.queue == []
    ensures Run(s, [Lock(i), Wait(i)]) && After(s, [Lock(i), Wait(i)]) == s.(pcs := s.pcs[i := Waiting])
  {
    Steps2(s, Lock(i), Wait(i));
    assert s.pcs[i := Checking][i := Waiting] == s.pcs[i := Waiting];
  }

  /** Otherwise it takes the first task, ... */
  lemma TakePass(s: State, i: nat)
    requires i < |s.pcs| && Awake(s.pcs[i]) && s.owner == None && s.queue != []
    ensures var run := [Lock(i), Pop(i)] + [UnlockPop(i)];
            Run(s, run) && After(s, run) == s.(pcs := s.pcs[i := Deciding(s.queue[0])], queue := s.queue[1..])
  {
    var s2 := s.(pcs := At(s, i, Popped(s.queue[0])), owner := Some(i), queue := s.queue[1..]);
    Steps2(s, Lock(i), Pop(i));
    assert Next(Next(s, Lock(i)), Pop(i)) == s2;
    OneStep(s2, UnlockPop(i), []);
    assert [UnlockPop(i)] + [] == [UnlockPop(i)];
    assert s2.pcs[i := Deciding(s.queue[0])] == s.pcs[i := Deciding(s.queue[0])];
    RunAppend(s, [Lock(i), Pop(i)], [UnlockPop(i)]);
  }

  /** ... destroys it when its user is not active, ... */
  lemma DestroyPass(s: State, i: nat, t: Task)
    requires i < |s.pcs| && s.pcs[i] == Deciding(t) && t.uid !in s.active
    ensures Enabled(s, Decide(i))
    ensures Next(s, Decide(i)) == s.(pcs := s.pcs[i := LoopTop], destroyed := s.destroyed + {t})
  {
  }

  /** ... and otherwise runs it and has it to submit again. */
  lemma RunPass(s: State, i: nat, t: Task)
    requires i < |s.pcs| && s.pcs[i] == Deciding(t) && t.uid in s.active
    ensures Run(s, [Decide(i), Finish(i)])
    ensures After(s, [Decide(i), Finish(i)]) == s.(pcs := s.pcs[i := Submitting(t)])
  {
    Steps2(s, Decide(i), Finish(i));
    assert s.pcs[i := Running(t)][i := Submitting(t)] == s.pcs[i := Submitting(t)];
  }

  /** A whole turn with an active task, nobody asleep: the queue is rotated by one. */
  lemma RotatePass(s: State, i: nat)
    requires i < s.workers <= |s.pcs| && s.pcs[i] == LoopTop && s.owner == None
    requires s.queue != [] && s.queue[0].uid in s.active && !SomeoneWaits(s)
    ensures var run := [Lock(i), Pop(i)] + [UnlockPop(i)] + [Decide(i), Finish(i)]
                       + ([Lock(i), Append(i)] + [UnlockAppend(i), Signal(i, i)]);
            Run(s, run) && After(s, run) == s.(queue := s.queue[1..] + [s.queue[0]])
  {
    var t := s.queue[0];
    TakePass(s, i);
    var s2 := s.(pcs := s.pcs[i := Deciding(t)], queue := s.queue[1..]);
    RunPass(s2, i, t);
    RunAppend(s, [Lock(i), Pop(i)] + [UnlockPop(i)], [Decide(i), Finish(i)]);
    var s3 := s2.(pcs := s.pcs[i := Submitting(t)]);
    assert s2.pcs[i := Submitting(t)] == s.pcs[i := Submitting(t)];
    assert !SomeoneWaits(s3) by {
      assert forall k :: 0 <= k < |s.pcs| ==> s.pcs[k] != Waiting;
    }
    SubmitCall(s3, i, t, i);
    assert s3.pcs[i := LoopTop] == s.pcs;
    RunAppend(s, [Lock(i), Pop(i)] + [UnlockPop(i)] + [Decide(i), Finish(i)],
              [Lock(i), Append(i)] + [UnlockAppend(i), Signal(i, i)]);
  }

  /** A sleeper may wake up at any time, whoever holds the mutex, and changes nothing else. */
  lemma WakesSpuriously(s: State, i: nat)
    requires i < |s.pcs| && s.pcs[i] == Waiting
    ensures Enabled(s, Spurious(i)) && Next(s, Spurious(i)) == s.(pcs := s.pcs[i := Woken])
  {
  }

  // ---- Who is destroyed ----

  /** At some point of the run the user is not active. */
  predicate InactiveOnce(s: State, run: seq<Action>, uid: int)
    requires Run(s, run)
    decreases run
  {
    uid !in s.active || (run != [] && InactiveOnce(Next(s, run[0]), run[1..], uid))
  }

  /** Over every run: a task is destroyed only if its user was inactive meanwhile. */
  lemma {:induction false} OnlyInactiveDestroyed(s: State, run: seq<Action>, t: Task)
    requires Run(s, run) && t !in s.destroyed && t in After(s, run).destroyed
    ensures InactiveOnce(s, run, t.uid)
    decreases run
  {
    if t.uid in s.active {
      assert t !in Next(s, run[0]).destroyed;
      OnlyInactiveDestroyed(Next(s, run[0]), run[1..], t);
    }
  }
}
