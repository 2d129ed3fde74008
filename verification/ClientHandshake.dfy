/**
 The handshake between send_thread and recv_thread of interface/cli/src/cli_dc.c: the sender
 sleeps on a condition variable until the receiver has handled a response. Each lock, wait,
 signal and unlock is a step, and so is each test of LOGGED_IN, which is read without the lock; the
 receiver signals after it has unlocked, and the sender may wake up spuriously.
 */
module ClientHandshake {
  import opened Wrappers

  /** What the user typed, as far as the handshake distinguishes it. */
  datatype Input =
    | Menu
    | Logout
    | Command           // any other valid command
    | Text(empty: bool) // not a valid command: a message, sent unless empty

  datatype SenderPc =
    | Top                  // about to test LOGGED_IN
    | Prompting            // waiting for the user's input
    | Ready(input: Input)  // input parsed, about to lock
    | Locked(input: Input) // holds: about to handle the input
    | Testing              // holds: about to test is_receiving
    | Waiting              // asleep, the mutex released
    | Woken                // awake, about to take the mutex again
    | Unlocking            // holds: about to unlock
    | SenderDone

  datatype ReceiverPc =
    | Polling               // about to test LOGGED_IN
    | Receiving             // in tcp_client_recv
    | Arrived(parsed: bool) // bytes received, about to lock
    | Parsing(parsed: bool) // holds: about to handle the response, if it parsed
    | Handled               // holds: has cleared is_receiving, about to unlock
    | Owing                 // unlocked, the signal still owed
    | Dropping              // holds: nothing parsed, about to unlock
    | ReceiverDone

  datatype Owner = Free | Sender | Receiver

  datatype State = State(sender: SenderPc, receiver: ReceiverPc, owner: Owner, isReceiving: bool, loggedIn: bool)

  /** After user_login and thread_chat_io. */
  const INITIAL := State(Top, Polling, Free, false, true)

  datatype Action =
    | EnterPrompt
    | ReadInput(input: Input)
    | SenderExit
    | SenderLock
    | Issue            // handle the input: the one step that sends requests or messages
    | TestReceiving    // leave the wait loop, or go to sleep
    | Spurious
    | SenderUnlock
    | EnterReceive
    | Receive(parsed: bool)
    | ReceiveNothing
    | ReceiverExit
    | ReceiverLock
    | Handle           // recv_handler, and is_receiving = false
    | ReceiverUnlock
    | Signal

  predicate Enabled(s: State, a: Action) {
    match a
    case EnterPrompt => s.sender == Top && s.loggedIn
    case ReadInput(_) => s.sender == Prompting
    case SenderExit => s.sender == Top && !s.loggedIn
    case SenderLock => (s.sender.Ready? || s.sender == Woken) && s.owner == Free
    case Issue => s.sender.Locked?
    case TestReceiving => s.sender == Testing
    case Spurious => s.sender == Waiting
    case SenderUnlock => s.sender == Unlocking
    case EnterReceive => s.receiver == Polling && s.loggedIn
    case Receive(_) => s.receiver == Receiving
    case ReceiveNothing => s.receiver == Receiving
    case ReceiverExit => s.receiver == Polling && !s.loggedIn
    case ReceiverLock => s.receiver.Arrived? && s.owner == Free
    case Handle => s.receiver.Parsing?
    case ReceiverUnlock => s.receiver == Handled || s.receiver == Dropping
    case Signal => s.receiver == Owing
  }

  /** is_receiving and LOGGED_IN after the sender has handled its input. */
  function Issued(s: State, input: Input): State {
    match input
    case Menu => s.(sender := Testing, isReceiving := false)
    case Logout => s.(sender := Testing, isReceiving := false, loggedIn := false)
    case Command => s.(sender := Testing, isReceiving := true)
    case Text(_) => s.(sender := Unlocking)
  }

  function Next(s: State, a: Action): State
    requires Enabled(s, a)
  {
    match a
    case EnterPrompt => s.(sender := Prompting)
    case ReadInput(input) => s.(sender := Ready(input))
    case SenderExit => s.(sender := SenderDone)
    case SenderLock =>
      s.(sender := if s.sender.Ready? then Locked(s.sender.input) else Testing, owner := Sender)
    case Issue => Issued(s, s.sender.input)
    case TestReceiving => if s.isReceiving then s.(sender := Waiting, owner := Free) else s.(sender := Unlocking)
    case Spurious => s.(sender := Woken)
    case SenderUnlock => s.(sender := Top, owner := Free)
    case EnterReceive => s.(receiver := Receiving)
    case Receive(parsed) => s.(receiver := Arrived(parsed))
    case ReceiveNothing => s.(receiver := Polling)
    case ReceiverExit => s.(receiver := ReceiverDone)
    case ReceiverLock => s.(receiver := Parsing(s.receiver.parsed), owner := Receiver)
    case Handle =>
      if s.receiver.parsed then s.(receiver := Handled, isReceiving := false) else s.(receiver := Dropping)
    case ReceiverUnlock => s.(receiver := if s.receiver == Handled then Owing else Polling, owner := Free)
    case Signal => s.(receiver := Polling, sender := if s.sender == Waiting then Woken else s.sender)
  }

  predicate Run(s: State, run: seq<Action>)
    decreases run
  {
    run == [] || (Enabled(s, run[0]) && Run(Next(s, run[0]), run[1..]))
  }

  function After(s: State, run: seq<Action>): State
    requires Run(s, run)
    decreases run
  {
    if run == [] then s else After(Next(s, run[0]), run[1..])
  }

  // ---- The invariant ----

  predicate SenderHolds(s: State) {
    s.sender.Locked? || s.sender == Testing || s.sender == Unlocking
  }

  predicate ReceiverHolds(s: State) {
    s.receiver.Parsing? || s.receiver == Handled || s.receiver == Dropping
  }

  predicate InWaitLoop(s: State) {
    s.sender == Testing || s.sender == Waiting || s.sender == Woken
  }

  ghost predicate Inv(s: State) {
    && (SenderHolds(s) <==> s.owner == Sender)
    && (ReceiverHolds(s) <==> s.owner == Receiver)
    // a sleeper is either still owed a response, or about to be signalled
    && (s.sender == Waiting && !s.isReceiving ==> s.receiver == Handled || s.receiver == Owing)
    // the receiver never leaves a sleeper behind
    && (s.receiver == ReceiverDone ==> !s.loggedIn)
    && (!s.loggedIn ==> !s.isReceiving && (s.sender == Testing || s.sender == Unlocking || s.sender == Top || s.sender == SenderDone))
    && (s.sender == SenderDone ==> !s.loggedIn)
    // is_receiving is only ever up while the sender is in its wait loop
    && (s.isReceiving ==> InWaitLoop(s))
  }

  lemma InvStep(s: State, a: Action)
    requires Inv(s) && Enabled(s, a)
    ensures Inv(Next(s, a))
  {
  }

  lemma {:induction false} InvRun(s: State, run: seq<Action>)
    requires Inv(s) && Run(s, run)
    ensures Inv(After(s, run))
    decreases run
  {
    if run != [] {
      InvStep(s, run[0]);
      InvRun(Next(s, run[0]), run[1..]);
    }
  }

  /**
   In every interleaving: the sender is never asleep with is_receiving down unless the
   receiver still owes a signal, and never asleep once the receiver has gone.
   */
  lemma NoLostResponse(run: seq<Action>)
    requires Run(INITIAL, run) && After(INITIAL, run).sender == Waiting
    ensures var s := After(INITIAL, run);
            && (!s.isReceiving ==> s.receiver == Handled || s.receiver == Owing)
            && s.loggedIn && s.receiver != ReceiverDone
  {
    InvRun(INITIAL, run);
  }

  // ---- One response per command ----

  /** The sender's own steps that a wait for a response must hold back. */
  predicate Proceeds(a: Action) {
    a.Issue? || a.EnterPrompt? || a.ReadInput? || a.SenderUnlock?
  }

  /** A response is handled by this step. */
  predicate Handles(s: State, a: Action)
    requires Enabled(s, a)
  {
    a.Handle? && s.receiver.parsed
  }

  /** Some step of the run handles a response. */
  predicate HandledIn(s: State, run: seq<Action>)
    requires Run(s, run)
    decreases run
  {
    run != [] && (Handles(s, run[0]) || HandledIn(Next(s, run[0]), run[1..]))
  }

  /** While no response is handled, a sender that owes itself one stays in its wait loop. */
  lemma {:induction false} StaysWaiting(s: State, run: seq<Action>)
    requires Inv(s) && Run(s, run) && s.isReceiving && !HandledIn(s, run)
    ensures After(s, run).isReceiving && InWaitLoop(After(s, run))
    ensures forall k :: 0 <= k < |run| ==> !Proceeds(run[k])
    decreases run
  {
    if run != [] {
      InvStep(s, run[0]);
      StaysWaiting(Next(s, run[0]), run[1..]);
    }
  }

  /**
   After a valid command other than @menu and @logout, the sender issues nothing, reads
   nothing and does not even unlock until at least one response has been handled.
   */
  lemma ResponseBeforeNextIssue(before: seq<Action>, between: seq<Action>, next: Action)
    requires Run(INITIAL, before) && Enabled(After(INITIAL, before), Issue)
    requires After(INITIAL, before).sender.input == Command
    requires Run(Next(After(INITIAL, before), Issue), between)
    requires Enabled(After(Next(After(INITIAL, before), Issue), between), next) && Proceeds(next)
    ensures HandledIn(Next(After(INITIAL, before), Issue), between)
  {
    var s := After(INITIAL, before);
    InvRun(INITIAL, before);
    InvStep(s, Issue);
    if !HandledIn(Next(s, Issue), between) {
      StaysWaiting(Next(s, Issue), between);
      assert false;
    }
  }

  // ---- Who waits, and for what ----

  /** The input of the last Issue of a run, or `last` when there is none. */
  function LastIssued(s: State, run: seq<Action>, last: Option<Input>): Option<Input>
    requires Run(s, run)
    decreases run
  {
    if run == [] then last
    else LastIssued(Next(s, run[0]), run[1..], if run[0].Issue? then Some(s.sender.input) else last)
  }

  ghost predicate WaitsFor(s: State, last: Option<Input>) {
    s.isReceiving || s.sender == Waiting || s.sender == Woken ==> last == Some(Command)
  }

  lemma {:induction false} WaitsForRun(s: State, run: seq<Action>, last: Option<Input>)
    requires Inv(s) && Run(s, run) && WaitsFor(s, last)
    ensures WaitsFor(After(s, run), LastIssued(s, run, last))
    decreases run
  {
    if run != [] {
      InvStep(s, run[0]);
      WaitsForRun(Next(s, run[0]), run[1..], if run[0].Issue? then Some(s.sender.input) else last);
    }
  }

  /** In every interleaving: the sender sleeps only for a command other than @menu and @logout, the
      last thing it has issued. */
  lemma SleepsOnlyForCommand(run: seq<Action>)
    requires Run(INITIAL, run) && After(INITIAL, run).sender == Waiting
    ensures LastIssued(INITIAL, run, None) == Some(Command)
  {
    WaitsForRun(INITIAL, run, None);
  }

  lemma {:induction false} NothingIssued(s: State, run: seq<Action>, last: Option<Input>)
    requires Run(s, run) && forall k :: 0 <= k < |run| ==> !run[k].Issue?
    ensures LastIssued(s, run, last) == last
    decreases run
  {
    if run != [] {
      NothingIssued(Next(s, run[0]), run[1..], last);
    }
  }

  /** After @menu, @logout or a message the sender does not sleep before it issues something else. */
  lemma AwakeAfterOthers(before: seq<Action>, between: seq<Action>)
    requires Run(INITIAL, before) && Enabled(After(INITIAL, before), Issue)
    requires After(INITIAL, before).sender.input != Command
    requires Run(Next(After(INITIAL, before), Issue), between)
    requires forall k :: 0 <= k < |between| ==> !between[k].Issue?
    ensures After(Next(After(INITIAL, before), Issue), between).sender != Waiting
  {
    var s := After(INITIAL, before);
    InvRun(INITIAL, before);
    InvStep(s, Issue);
    WaitsForRun(INITIAL, before, None);
    WaitsForRun(s, [Issue] + between, LastIssued(INITIAL, before, None));
    assert ([Issue] + between)[1..] == between;
    NothingIssued(Next(s, Issue), between, Some(s.sender.input));
  }

  // ---- Whole exchanges ----

  lemma {:induction false} RunAppend(s: State, a: seq<Action>, b: seq<Action>)
    requires Run(s, a) && Run(After(s, a), b)
    ensures Run(s, a + b) && After(s, a + b) == After(After(s, a), b)
    decreases a
  {
    if a == [] {
      assert a + b == b;
    } else {
      assert (a + b)[1..] == a[1..] + b;
      RunAppend(Next(s, a[0]), a[1..], b);
    }
  }

  lemma OneStep(s: State, a: Action, rest: seq<Action>)
    requires Enabled(s, a) && Run(Next(s, a), rest)
    ensures Run(s, [a] + rest) && After(s, [a] + rest) == After(Next(s, a), rest)
  {
    assert ([a] + rest)[1..] == rest;
  }

  lemma Steps2(s: State, a: Action, b: Action)
    requires Enabled(s, a) && Enabled(Next(s, a), b)
    ensures Run(s, [a, b]) && After(s, [a, b]) == Next(Next(s, a), b)
  {
    OneStep(Next(s, a), b, []);
    OneStep(s, a, [b]);
    assert [b] + [] == [b] && [a] + [b] == [a, b];
  }

  lemma Steps3(s: State, a: Action, b: Action, c: Action)
    requires Enabled(s, a) && Enabled(Next(s, a), b) && Enabled(Next(Next(s, a), b), c)
    ensures Run(s, [a, b, c]) && After(s, [a, b, c]) == Next(Next(Next(s, a), b), c)
  {
    Steps2(Next(s, a), b, c);
    OneStep(s, a, [b, c]);
    assert [a] + [b, c] == [a, b, c];
  }

  /** Both threads at the top of their loops. */
  const IDLE := State(Top, Polling, Free, false, true)
  const ASLEEP := State(Waiting, Polling, Free, true, true)

  function Typed(input: Input): seq<Action> {
    [EnterPrompt, ReadInput(input), SenderLock]
  }

  /** The sender may wake up at any time and goes back to sleep while it has to wait; the receiver may
      find nothing to receive. */
  lemma IdleSteps()
    ensures Enabled(ASLEEP, Spurious)
    ensures Run(Next(ASLEEP, Spurious), [SenderLock, TestReceiving])
    ensures After(Next(ASLEEP, Spurious), [SenderLock, TestReceiving]) == ASLEEP
    ensures Run(ASLEEP, [EnterReceive, ReceiveNothing]) && After(ASLEEP, [EnterReceive, ReceiveNothing]) == ASLEEP
  {
    Steps2(Next(ASLEEP, Spurious), SenderLock, TestReceiving);
    Steps2(ASLEEP, EnterReceive, ReceiveNothing);
  }

  /** Bytes that parse to no response. */
  lemma UnparsedResponse()
    ensures var run := [EnterReceive, Receive(false), ReceiverLock] + [Handle, ReceiverUnlock];
            Run(ASLEEP, run) && After(ASLEEP, run) == ASLEEP
  {
    var s := State(Waiting, Parsing(false), Receiver, true, true);
    Steps3(ASLEEP, EnterReceive, Receive(false), ReceiverLock);
    Steps2(s, Handle, ReceiverUnlock);
    RunAppend(ASLEEP, [EnterReceive, Receive(false), ReceiverLock], [Handle, ReceiverUnlock]);
  }

  /** @menu and messages, the empty one included: back at the prompt without a response. */
  lemma NoResponseNeeded(input: Input)
    requires input == Menu || input.Text?
    ensures var rest := if input == Menu then [Issue, TestReceiving, SenderUnlock] else [Issue, SenderUnlock];
            Run(IDLE, Typed(input) + rest) && After(IDLE, Typed(input) + rest) == IDLE
  {
    var s := State(Locked(input), Polling, Sender, false, true);
    Steps3(IDLE, EnterPrompt, ReadInput(input), SenderLock);
    if input == Menu {
      Steps3(s, Issue, TestReceiving, SenderUnlock);
      RunAppend(IDLE, Typed(input), [Issue, TestReceiving, SenderUnlock]);
    } else {
      Steps2(s, Issue, SenderUnlock);
      RunAppend(IDLE, Typed(input), [Issue, SenderUnlock]);
    }
  }

  /** Any other command: the sender falls asleep, ... */
  lemma CommandSleeps()
    ensures var run := Typed(Command) + [Issue, TestReceiving];
            Run(IDLE, run) && After(IDLE, run) == ASLEEP
  {
    var s := State(Locked(Command), Polling, Sender, false, true);
    Steps3(IDLE, EnterPrompt, ReadInput(Command), SenderLock);
    Steps2(s, Issue, TestReceiving);
    RunAppend(IDLE, Typed(Command), [Issue, TestReceiving]);
  }

  /** ... and the response brings it back to the prompt. */
  lemma ResponseWakes()
    ensures var run := [EnterReceive, Receive(true), ReceiverLock] + [Handle, ReceiverUnlock, Signal]
                       + [SenderLock, TestReceiving, SenderUnlock];
            Run(ASLEEP, run) && After(ASLEEP, run) == IDLE
  {
    Steps3(ASLEEP, EnterReceive, Receive(true), ReceiverLock);
    Steps3(State(Waiting, Parsing(true), Receiver, true, true), Handle, ReceiverUnlock, Signal);
    Steps3(State(Woken, Polling, Free, false, true), SenderLock, TestReceiving, SenderUnlock);
    var a, b := [EnterReceive, Receive(true), ReceiverLock], [Handle, ReceiverUnlock, Signal];
    RunAppend(ASLEEP, a, b);
    RunAppend(ASLEEP, a + b, [SenderLock, TestReceiving, SenderUnlock]);
  }

  /** @logout: back at the top without waiting, ... */
  lemma LogoutIssued()
    ensures var run := Typed(Logout) + [Issue, TestReceiving, SenderUnlock];
            Run(IDLE, run) && After(IDLE, run) == State(Top, Polling, Free, false, false)
  {
    Steps3(IDLE, EnterPrompt, ReadInput(Logout), SenderLock);
    Steps3(State(Locked(Logout), Polling, Sender, false, true), Issue, TestReceiving, SenderUnlock);
    RunAppend(IDLE, Typed(Logout), [Issue, TestReceiving, SenderUnlock]);
  }

  /** ... and both threads end. */
  lemma LogoutEnds()
    ensures var s := State(Top, Polling, Free, false, false);
            Run(s, [SenderExit, ReceiverExit])
            && After(s, [SenderExit, ReceiverExit]) == State(SenderDone, ReceiverDone, Free, false, false)
    ensures INITIAL == IDLE
  {
    Steps2(State(Top, Polling, Free, false, false), SenderExit, ReceiverExit);
  }

  // ---- The response gets through ----

  /** What the socket and the user contribute. */
  predicate External(a: Action) {
    a.ReadInput? || a.EnterReceive? || a.Receive? || a.ReceiveNothing?
  }

  /** Once the wait is over, the two threads can go on until the sender unlocks. */
  lemma NeverStuck(s: State)
    requires Inv(s) && InWaitLoop(s) && !s.isReceiving
    ensures exists a :: !External(a) && !a.Spurious? && Enabled(s, a)
  {
    var a :=
      if s.sender == Testing then TestReceiving
      else if s.receiver.Parsing? then Handle
      else if s.receiver == Handled || s.receiver == Dropping then ReceiverUnlock
      else if s.receiver == Owing then Signal
      else SenderLock;
    assert !External(a) && !a.Spurious? && Enabled(s, a);
  }

  /** How many steps can be left before the sender unlocks and the receiver receives again. */
  function Left(s: State): nat {
    (match s.sender case Waiting => 4 case Woken => 3 case Testing => 2 case Unlocking => 1 case _ => 0) +
    (match s.receiver case Arrived(_) => 5 case Parsing(_) => 4 case Handled => 3 case Owing => 2
                      case Dropping => 2 case Polling => 1 case Receiving => 1 case ReceiverDone => 0)
  }

  predicate OnItsWay(s: State) {
    (InWaitLoop(s) || s.sender == Unlocking) && !s.isReceiving
  }

  /** Steps of the two threads, spurious wakeups included, and what is received meanwhile. */
  function Steps(run: seq<Action>): nat {
    if run == [] then 0 else (if External(run[0]) then 0 else 1) + Steps(run[1..])
  }

  function Received(run: seq<Action>): nat {
    if run == [] then 0 else (if run[0].Receive? then 1 else 0) + Received(run[1..])
  }

  lemma LeftStep(s: State, a: Action)
    requires Inv(s) && Enabled(s, a) && a != SenderUnlock && OnItsWay(s)
    ensures OnItsWay(Next(s, a))
    ensures Left(Next(s, a)) <= Left(s) + if a.Receive? then 4 else if External(a) then 0 else -1
  {
  }

  lemma {:induction false} LeftRun(s: State, run: seq<Action>)
    requires Inv(s) && Run(s, run) && OnItsWay(s) && SenderUnlock !in run
    ensures Steps(run) <= Left(s) + 4 * Received(run)
    decreases run
  {
    if run != [] {
      LeftStep(s, run[0]);
      InvStep(s, run[0]);
      LeftRun(Next(s, run[0]), run[1..]);
    }
  }

  /** However the two threads are scheduled, whatever arrives and however often the sender wakes up
      spuriously: a sender whose wait is over is back at the prompt before ten of their steps, and
      four more for each response received meanwhile, have been taken (and by NeverStuck there is
      always a step to take). */
  lemma ReturnsSoon(before: seq<Action>, run: seq<Action>)
    requires Run(INITIAL, before) && Run(After(INITIAL, before), run)
    requires InWaitLoop(After(INITIAL, before)) && !After(INITIAL, before).isReceiving
    requires SenderUnlock !in run
    ensures Steps(run) < 10 + 4 * Received(run)
  {
    InvRun(INITIAL, before);
    LeftRun(After(INITIAL, before), run);
  }

  /** The same, counted from the step that handles the response a sleeping sender waits for. */
  lemma ResponseBringsBack(before: seq<Action>, run: seq<Action>)
    requires Run(INITIAL, before) && InWaitLoop(After(INITIAL, before))
    requires After(INITIAL, before).receiver == Parsing(true)
    requires Run(Next(After(INITIAL, before), Handle), run) && SenderUnlock !in run
    ensures Steps(run) < 10 + 4 * Received(run)
  {
    var s := After(INITIAL, before);
    InvRun(INITIAL, before);
    InvStep(s, Handle);
    LeftRun(Next(s, Handle), run);
  }

  // ---- After logout ----

  lemma {:induction false} LoggedOutStays(s: State, run: seq<Action>)
    requires Inv(s) && Run(s, run) && !s.loggedIn
    ensures forall k :: 0 <= k < |run| ==> !run[k].Issue? && !run[k].ReadInput? && !run[k].Spurious?
    decreases run
  {
    if run != [] {
      InvStep(s, run[0]);
      LoggedOutStays(Next(s, run[0]), run[1..]);
    }
  }

  /** Once @logout has been handled, the sender issues nothing more and never sleeps again. */
  lemma SilentAfterLogout(before: seq<Action>, after: seq<Action>)
    requires Run(INITIAL, before) && Enabled(After(INITIAL, before), Issue)
    requires After(INITIAL, before).sender.input == Logout
    requires Run(Next(After(INITIAL, before), Issue), after)
    ensures forall k :: 0 <= k < |after| ==> !after[k].Issue?
    ensures After(Next(After(INITIAL, before), Issue), after).sender != Waiting
  {
    var s := After(INITIAL, before);
    InvRun(INITIAL, before);
    InvStep(s, Issue);
    LoggedOutStays(Next(s, Issue), after);
    InvRun(Next(s, Issue), after);
    LoggedOutForGood(Next(s, Issue), after);
  }

  lemma {:induction false} LoggedOutForGood(s: State, run: seq<Action>)
    requires Run(s, run) && !s.loggedIn
    ensures !After(s, run).loggedIn
    decreases run
  {
    if run != [] {
      LoggedOutForGood(Next(s, run[0]), run[1..]);
    }
  }
}
