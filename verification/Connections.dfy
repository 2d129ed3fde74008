/**
 The event loop of cpt_app/server/src/cpt_chat_server.c drives both the poll set and the channel
 directory. This module ties the two: the users listed are connections that are polled, or were
 ended by a hang-up; so what keeps user ids unique is that the kernel gives out no descriptor in
 use, and a message is only ever written to a polled descriptor or to one that was hung up.
 */
module Connections {
  import opened Wrappers
  import opened Users
  import opened Directory
  import opened DirectoryLaws
  import Runs = DirectoryRuns
  import opened PollSet
  import opened PollLaws

  /** The connections that are open, and the descriptors hung up and not accepted since. */
  datatype Conns = Conns(open: set<int>, gone: set<int>)

  function Connected(c: Conns, e: Event): Conns {
    match e
    case Accept(fd, _) => Conns(c.open + {fd}, c.gone - {fd})
    case LogoutRequest(from) => Conns(c.open - {from}, c.gone)
    case Hangup(from) => Conns(c.open - {from}, c.gone + {from})
    case _ => c
  }

  /** New descriptors are not in use, requests come over open connections. */
  ghost predicate Proper(c: Conns, e: Event) {
    if e.Accept? then e.fd !in c.open else e.from in c.open
  }

  /** What is asked of the environment: descriptors are 1..255, one that was hung up and is still
      listed is not used again, and a create request asks for no listed user twice. */
  ghost predicate Polite(dir: Dir, c: Conns, e: Event) {
    dir != [] &&
    (e.Accept? ==> 1 <= e.fd <= 255 && (e.fd in c.gone ==> !Member(Global(dir), e.fd))) &&
    (e.CreateChannel? ==> |dir| < 65536 && (e.query.Some? ==> AsksOnce(Global(dir), e.query.value)))
  }

  /** Every listed user but root is an open connection or a gone one. */
  ghost predicate Tied(dir: Dir, c: Conns)
    requires dir != []
  {
    && (forall id: int :: Member(Global(dir), id) ==> id == ROOT_ID || id in c.open || id in c.gone)
    && (forall id :: id in c.open ==> 1 <= id <= 255)
  }

  // ---- One event ----

  /** Nobody but the accepted user becomes listed, and a logout unlists the user. */
  lemma {:induction false} ListedStep(dir: Dir, e: Event, id: int)
    requires Inv(dir) && Orderly(dir, e)
    ensures Step(dir, e) != []
    ensures Member(Global(Step(dir, e)), id) ==>
              (Member(Global(dir), id) || (e.Accept? && e.fd == id)) && !(e.LogoutRequest? && e.from == id)
  {
    InvStep(dir, e);
    if !Member(Global(dir), id) && !(e.Accept? && e.fd == id) {
      Runs.AbsentStep(dir, e, id);
    }
    if e.LogoutRequest? {
      InvLogout(dir, e.from);
    }
  }

  /** The directory's obligations follow from the connections', and the tie is kept. */
  lemma {:induction false} TiedStep(dir: Dir, c: Conns, e: Event)
    requires Inv(dir) && Tied(dir, c) && Proper(c, e) && Polite(dir, c, e)
    ensures Orderly(dir, e) && Step(dir, e) != [] && Tied(Step(dir, e), Connected(c, e))
    ensures forall id :: id in Sent(dir, e) ==> id in c.open || id in c.gone
  {
    assert Orderly(dir, e);
    InvStep(dir, e);
    forall id: int
      ensures Member(Global(Step(dir, e)), id) ==>
                (Member(Global(dir), id) || (e.Accept? && e.fd == id)) && !(e.LogoutRequest? && e.from == id)
    {
      ListedStep(dir, e, id);
    }
    ListedStep(dir, e, 0);
    if e.Send? {
      Runs.SendReaches(dir, e.from, e.chan);
    }
  }

  // ---- Runs of events ----

  function ConnectedAll(c: Conns, es: seq<Event>): Conns
    decreases es
  {
    if es == [] then c else ConnectedAll(Connected(c, es[0]), es[1..])
  }

  ghost predicate ProperAll(c: Conns, es: seq<Event>)
    decreases es
  {
    es == [] || (Proper(c, es[0]) && ProperAll(Connected(c, es[0]), es[1..]))
  }

  ghost predicate PoliteAll(dir: Dir, c: Conns, es: seq<Event>)
    decreases es
  {
    es == [] || (Polite(dir, c, es[0]) && PoliteAll(Step(dir, es[0]), Connected(c, es[0]), es[1..]))
  }

  /** Each message of the run goes to a connection that is open, or gone, when it is sent. */
  ghost predicate WritesTied(dir: Dir, c: Conns, es: seq<Event>)
    decreases es
  {
    es == [] ||
    ((forall id :: id in Sent(dir, es[0]) ==> id in c.open || id in c.gone)
     && WritesTied(Step(dir, es[0]), Connected(c, es[0]), es[1..]))
  }

  lemma {:induction false} TiedRun(dir: Dir, c: Conns, es: seq<Event>)
    requires Inv(dir) && Tied(dir, c) && ProperAll(c, es) && PoliteAll(dir, c, es)
    ensures Runs.Good(dir, es) && WritesTied(dir, c, es)
    ensures Inv(Runs.After(dir, es)) && Tied(Runs.After(dir, es), ConnectedAll(c, es))
    decreases es
  {
    if es != [] {
      TiedStep(dir, c, es[0]);
      InvStep(dir, es[0]);
      TiedRun(Step(dir, es[0]), Connected(c, es[0]), es[1..]);
    }
  }

  // ---- What a sweep does to the connections ----

  /** A sweep of the poll set, with the login names and, slot by slot, what each connection does. */
  datatype Sweep = Sweep(input: SweepInput, names: seq<Option<string>>, acts: seq<Event>)

  predicate Ends(e: Event) {
    e.LogoutRequest? || e.Hangup?
  }

  /** The sweep's parts fit the poll set: a slot acts for its own descriptor, and is closed exactly
      by a logout or a hang-up. */
  ghost predicate Fits(fds: seq<int>, s: Sweep) {
    && Acceptable(fds, s.input)
    && |s.names| == |s.input.accepts| && |s.acts| == |fds|
    && forall k :: 1 <= k < |fds| ==>
         !s.acts[k].Accept? && s.acts[k].from == fds[k] && (s.input.closes[k] <==> Ends(s.acts[k]))
  }

  predicate Sized(s: Sweep) {
    |s.names| == |s.input.accepts| && |s.acts| == |s.input.ready| == |s.input.closes|
  }

  function Logins(s: Sweep, j: nat): seq<Event>
    requires j <= |s.names| == |s.input.accepts|
  {
    if j == 0 then [] else Logins(s, j - 1) + [Accept(s.input.accepts[j - 1], s.names[j - 1])]
  }

  /** The events of a sweep while slots below i are passed. */
  function EventsOf(s: Sweep, i: nat): seq<Event>
    requires Sized(s) && i <= |s.acts|
  {
    if i == 0 then [] else EventsOf(s, i - 1) + EventsAt(s, i - 1)
  }

  /** The events of passing slot i: the logins at slot 0, or what the slot's connection does. */
  function EventsAt(s: Sweep, i: nat): seq<Event>
    requires Sized(s) && i < |s.acts|
  {
    if s.input.ready[i] == 0 then []
    else if i == 0 then Logins(s, |s.names|)
    else [s.acts[i]]
  }

  /** Event j of a sweep in which n descriptors are accepted: their logins first, each under its own
      name, then, in order, what the served connections do. */
  ghost predicate EventIs(fds: seq<int>, s: Sweep, i: nat, n: nat, j: nat)
    requires Sized(s) && i <= |fds| == |s.acts| && j < |EventsOf(s, i)|
  {
    var e := EventsOf(s, i)[j];
    if j < n then j < |s.names| && e == Accept(s.input.accepts[j], s.names[j])
    else
      && j - n < |Served(fds, s.input, i)|
      && exists k :: 0 < k < i && s.input.ready[k] != 0 && e == s.acts[k] && fds[k] == Served(fds, s.input, i)[j - n]
  }

  lemma {:induction false} LoginsAre(s: Sweep, j: nat)
    requires Sized(s) && j <= |s.names|
    ensures |Logins(s, j)| == j
    ensures forall k :: 0 <= k < j ==> Logins(s, j)[k] == Accept(s.input.accepts[k], s.names[k])
  {
    if j > 0 {
      LoginsAre(s, j - 1);
    }
  }

  /** The events of a sweep are the logins of the accepted and the requests served, in this order, one
      each. */
  lemma {:induction false} EventsAre(fds: seq<int>, s: Sweep, i: nat)
    requires Sized(s) && 0 < i <= |fds| == |s.acts|
    ensures var n := if s.input.ready[0] != 0 then |s.input.accepts| else 0;
            && |EventsOf(s, i)| == n + |Served(fds, s.input, i)|
            && forall j: nat :: j < |EventsOf(s, i)| ==> EventIs(fds, s, i, n, j)
  {
    var n := if s.input.ready[0] != 0 then |s.input.accepts| else 0;
    if i == 1 {
      LoginsAre(s, |s.names|);
      assert EventsOf(s, 0) == [] && EventsOf(s, 1) == [] + EventsAt(s, 0);
    } else {
      EventsAre(fds, s, i - 1);
      var before, es := EventsOf(s, i - 1), EventsOf(s, i);
      var served := Served(fds, s.input, i - 1);
      forall j: nat | j < |es|
        ensures EventIs(fds, s, i, n, j)
      {
        if j < |before| {
          assert EventIs(fds, s, i - 1, n, j) && es[j] == before[j];
        } else {
          assert s.input.ready[i - 1] != 0 && es[j] == s.acts[i - 1] && j - n == |served|;
        }
      }
    }
  }

  function Polled(fds: seq<int>, listenFd: int): set<int> {
    set fd | fd in fds && fd != listenFd && fd != TOMBSTONE
  }

  lemma {:induction false} ConnectedAppend(c: Conns, a: seq<Event>, b: seq<Event>)
    ensures ConnectedAll(c, a + b) == ConnectedAll(ConnectedAll(c, a), b)
    ensures ProperAll(c, a + b) <==> ProperAll(c, a) && ProperAll(ConnectedAll(c, a), b)
    decreases a
  {
    if a == [] {
      assert a + b == b;
    } else {
      assert (a + b)[1..] == a[1..] + b;
      ConnectedAppend(Connected(c, a[0]), a[1..], b);
    }
  }

  lemma ConnectedOne(c: Conns, e: Event)
    ensures ConnectedAll(c, [e]) == Connected(c, e)
    ensures ProperAll(c, [e]) <==> Proper(c, e)
  {
    assert [e][1..] == [];
  }

  function Prefix(fds: seq<int>, j: nat): set<int>
    requires j <= |fds|
  {
    set k | 0 <= k < j :: fds[k]
  }

  ghost predicate Newcomers(s: Sweep, c: Conns) {
    && DistinctFds(s.input.accepts) && |s.names| == |s.input.accepts|
    && forall j :: 0 <= j < |s.input.accepts| ==>
         s.input.accepts[j] != TOMBSTONE && s.input.accepts[j] !in c.open
  }

  lemma {:induction false} LoginsConnect(s: Sweep, c: Conns, j: nat)
    requires Newcomers(s, c) && j <= |s.names|
    ensures ProperAll(c, Logins(s, j))
    ensures ConnectedAll(c, Logins(s, j)).open == c.open + Prefix(s.input.accepts, j)
  {
    if j > 0 {
      LoginsConnect(s, c, j - 1);
      var e := Accept(s.input.accepts[j - 1], s.names[j - 1]);
      ConnectedAppend(c, Logins(s, j - 1), [e]);
      ConnectedOne(ConnectedAll(c, Logins(s, j - 1)), e);
    }
  }

  /** Serving slot i of the poll set changes the polled descriptors as its act changes the
      connections. */
  lemma PolledStep(fds: seq<int>, listenFd: int, s: Sweep, i: nat)
    requires Packed(fds, listenFd) && Fits(fds, s) && 1 <= i < |fds|
    ensures var before := Polled(Marked(fds, s.input, i) + Accepted(s.input, i), listenFd);
            var after := Polled(Marked(fds, s.input, i + 1) + Accepted(s.input, i + 1), listenFd);
            && fds[i] in before
            && after == if s.input.ready[i] != 0 && s.input.closes[i] then before - {fds[i]} else before
  {
    var before := Marked(fds, s.input, i) + Accepted(s.input, i);
    MarkedStep(fds, s.input, i);
    assert before[i] == fds[i];
    assert forall k :: 0 <= k < |before| && k != i ==> before[k] != fds[i];
    var after := before[i := TOMBSTONE];
    assert forall k :: 0 <= k < |before| && k != i ==> after[k] == before[k];
    assert forall x :: x in after && x != TOMBSTONE ==> x in before && x != fds[i];
    assert forall x :: x in before && x != fds[i] ==> x in after;
  }

  /** The events are proper, and the connections they leave open are the descriptors polled. */
  ghost predicate InStep(c: Conns, es: seq<Event>, fds: seq<int>, listenFd: int) {
    ProperAll(c, es) && ConnectedAll(c, es).open == Polled(fds, listenFd)
  }

  lemma InStepAppend(c: Conns, a: seq<Event>, b: seq<Event>, fds: seq<int>, listenFd: int)
    requires ProperAll(c, a) && InStep(ConnectedAll(c, a), b, fds, listenFd)
    ensures InStep(c, a + b, fds, listenFd)
  {
    ConnectedAppend(c, a, b);
  }

  /** The array while slots below i are passed. */
  function Passed(fds: seq<int>, s: Sweep, i: nat): seq<int>
    requires Sized(s) && i <= |fds| == |s.acts|
  {
    Marked(fds, s.input, i) + Accepted(s.input, i)
  }

  lemma SlotConnects(fds: seq<int>, listenFd: int, s: Sweep, c: Conns, i: nat)
    requires Packed(fds, listenFd) && Fits(fds, s) && i < StopAt(s.input.ready, 0)
    requires c.open == Polled(Passed(fds, s, i), listenFd) && (i == 0 ==> Newcomers(s, c))
    ensures InStep(c, EventsAt(s, i), Passed(fds, s, i + 1), listenFd)
  {
    if i == 0 {
      PolledAtStart(fds, listenFd, s);
      LoginsConnect(s, c, |s.names|);
      PolledAccepts(fds, listenFd, s);
    } else {
      PolledStep(fds, listenFd, s, i);
      ConnectedOne(c, s.acts[i]);
    }
  }

  lemma PolledAtStart(fds: seq<int>, listenFd: int, s: Sweep)
    requires Packed(fds, listenFd) && Fits(fds, s)
    ensures Passed(fds, s, 0) == fds
  {
  }

  /** While a sweep passes its slots, the directory's events and the poll set stay in step. */
  lemma {:induction false} SweepConnects(fds: seq<int>, listenFd: int, s: Sweep, c: Conns, i: nat)
    requires Packed(fds, listenFd) && Fits(fds, s) && Newcomers(s, c) && c.open == Polled(fds, listenFd)
    requires i <= StopAt(s.input.ready, 0)
    ensures InStep(c, EventsOf(s, i), Passed(fds, s, i), listenFd)
  {
    if i == 0 {
      PolledAtStart(fds, listenFd, s);
    } else {
      SweepConnects(fds, listenFd, s, c, i - 1);
      SlotFollows(fds, listenFd, s, c, i - 1);
    }
  }

  lemma SlotFollows(fds: seq<int>, listenFd: int, s: Sweep, c: Conns, i: nat)
    requires Packed(fds, listenFd) && Fits(fds, s) && Newcomers(s, c) && i < StopAt(s.input.ready, 0)
    requires InStep(c, EventsOf(s, i), Passed(fds, s, i), listenFd)
    ensures InStep(c, EventsOf(s, i + 1), Passed(fds, s, i + 1), listenFd)
  {
    var before := EventsOf(s, i);
    var c' := ConnectedAll(c, before);
    assert i == 0 ==> c' == c;
    SlotConnects(fds, listenFd, s, c', i);
    assert EventsOf(s, i + 1) == before + EventsAt(s, i);
    InStepAppend(c, before, EventsAt(s, i), Passed(fds, s, i + 1), listenFd);
  }

  lemma PolledAccepts(fds: seq<int>, listenFd: int, s: Sweep)
    requires Packed(fds, listenFd) && Fits(fds, s)
    ensures Polled(Marked(fds, s.input, 1) + Accepted(s.input, 1), listenFd)
            == Polled(fds, listenFd)
               + if s.input.ready[0] == 0 then {} else Prefix(s.input.accepts, |s.input.accepts|)
  {
    assert Marked(fds, s.input, 1) == fds;
    assert forall x :: x in s.input.accepts ==> x in Prefix(s.input.accepts, |s.input.accepts|);
  }

  /** Compaction forgets tombstones only. */
  lemma PolledSwept(fds: seq<int>, listenFd: int, input: SweepInput)
    requires Packed(fds, listenFd) && Acceptable(fds, input)
    ensures var stop := StopAt(input.ready, 0);
            Polled(Swept(fds, input), listenFd) == Polled(Marked(fds, input, stop) + Accepted(input, stop), listenFd)
  {
    LiveIs(Marked(fds, input, StopAt(input.ready, 0)));
  }

  // ---- Runs of sweeps ----

  const NONE := Conns({}, {})

  function Inputs(run: seq<Sweep>): (inputs: seq<SweepInput>)
    ensures |inputs| == |run|
    ensures run != [] ==> inputs[..|run| - 1] == Inputs(run[..|run| - 1])
  {
    if run == [] then [] else Inputs(run[..|run| - 1]) + [run[|run| - 1].input]
  }

  /** What happens to the directory during the run, in order. */
  function EventsIn(run: seq<Sweep>): seq<Event>
    requires forall t :: 0 <= t < |run| ==> Sized(run[t])
  {
    if run == [] then []
    else
      var last := run[|run| - 1];
      EventsIn(run[..|run| - 1]) + EventsOf(last, StopAt(last.input.ready, 0))
  }

  /** The sweeps fit the poll set as it develops. */
  ghost predicate Fitting(listenFd: int, run: seq<Sweep>) {
    && Legal(listenFd, Inputs(run)) && (forall t :: 0 <= t < |run| ==> Sized(run[t]))
    && (run == [] ||
        (Fitting(listenFd, run[..|run| - 1])
         && Fits(After(listenFd, Inputs(run[..|run| - 1])), run[|run| - 1])))
  }

  /** The poll set and the directory's events agree, over every run of sweeps, on who is connected:
      no descriptor is accepted while it is in use, no request comes over a closed connection, and
      the descriptors polled are exactly the connections that are open. */
  lemma {:induction false} RunConnects(listenFd: int, run: seq<Sweep>)
    requires Fitting(listenFd, run)
    ensures ProperAll(NONE, EventsIn(run))
    ensures ConnectedAll(NONE, EventsIn(run)).open == Polled(After(listenFd, Inputs(run)), listenFd)
  {
    if run != [] {
      var front, last := run[..|run| - 1], run[|run| - 1];
      RunConnects(listenFd, front);
      var c, fds := ConnectedAll(NONE, EventsIn(front)), After(listenFd, Inputs(front));
      var stop := StopAt(last.input.ready, 0);
      assert Newcomers(last, c);
      SweepConnects(fds, listenFd, last, c, stop);
      ConnectedAppend(NONE, EventsIn(front), EventsOf(last, stop));
      PolledSwept(fds, listenFd, last.input);
      assert After(listenFd, Inputs(run)) == Swept(fds, last.input);
    }
  }

  /** In every run of sweeps that reuses no hung-up descriptor while it is listed: the directory's
      obligations are met, so its invariant holds; every listed user but root is polled or was hung
      up and not accepted since; and so is everybody who is written to, at the moment of writing. */
  lemma {:induction false} ListedArePolled(listenFd: int, run: seq<Sweep>)
    requires Fitting(listenFd, run) && PoliteAll(INITIAL, NONE, EventsIn(run))
    ensures Runs.Good(INITIAL, EventsIn(run)) && WritesTied(INITIAL, NONE, EventsIn(run))
    ensures Inv(Runs.After(INITIAL, EventsIn(run)))
    ensures forall id: int :: Member(Global(Runs.After(INITIAL, EventsIn(run))), id) ==>
              id == ROOT_ID || id in After(listenFd, Inputs(run)) || id in ConnectedAll(NONE, EventsIn(run)).gone
  {
    RunConnects(listenFd, run);
    assert Inv(INITIAL);
    RootAlone();
    TiedRun(INITIAL, NONE, EventsIn(run));
  }

  lemma RootAlone()
    ensures forall id: int :: Member(Global(INITIAL), id) ==> id == ROOT_ID
  {
    forall id: int | Member(Global(INITIAL), id)
      ensures id == ROOT_ID
    {
      MemberIff(Global(INITIAL), id);
    }
  }

  lemma {:induction false} GoneOnlyByHangup(c: Conns, es: seq<Event>)
    requires c.gone == {} && forall k :: 0 <= k < |es| ==> !es[k].Hangup?
    ensures ConnectedAll(c, es).gone == {}
    decreases es
  {
    if es != [] {
      GoneOnlyByHangup(Connected(c, es[0]), es[1..]);
    }
  }

  /** Without hang-ups, exactly so: every listed user but root is polled. */
  lemma ListedArePolledWithoutHangup(listenFd: int, run: seq<Sweep>)
    requires Fitting(listenFd, run) && PoliteAll(INITIAL, NONE, EventsIn(run))
    requires forall k :: 0 <= k < |EventsIn(run)| ==> !EventsIn(run)[k].Hangup?
    ensures Runs.Good(INITIAL, EventsIn(run)) && Inv(Runs.After(INITIAL, EventsIn(run)))
    ensures forall id: int :: Member(Global(Runs.After(INITIAL, EventsIn(run))), id) ==>
              id == ROOT_ID || id in After(listenFd, Inputs(run))
  {
    ListedArePolled(listenFd, run);
    GoneOnlyByHangup(NONE, EventsIn(run));
  }

  // ---- A run ----

  const BOB_ACCEPTED := SweepInput([0x0001], [5], [false])
  const BOB := Sweep(BOB_ACCEPTED, [Some("bob")], [Other(3)])

  lemma SampleSwept()
    ensures Acceptable([3], BOB_ACCEPTED) && Swept([3], BOB_ACCEPTED) == [3, 5]
  {
    StopsFirst(BOB_ACCEPTED.ready, 0, 0);
    assert Marked([3], BOB_ACCEPTED, 1) == [3];
    LiveOfLive([3]);
    assert Swept([3], BOB_ACCEPTED) == [3] + [5];
  }

  lemma SampleLegal()
    ensures Legal(3, []) && After(3, []) == [3]
    ensures Legal(3, [BOB_ACCEPTED]) && After(3, [BOB_ACCEPTED]) == [3, 5]
  {
    SampleSwept();
    var run := [BOB_ACCEPTED];
    assert run[..|run| - 1] == [] && run[|run| - 1] == BOB_ACCEPTED;
    assert Legal(3, []) && After(3, []) == [3];
  }

  lemma SampleFits()
    ensures Fitting(3, [BOB]) && After(3, Inputs([BOB])) == [3, 5]
  {
    SampleLegal();
    SampleSwept();
    var run := [BOB];
    assert run[..|run| - 1] == [] && run[|run| - 1] == BOB;
    assert Inputs([]) == [] && Inputs(run) == [BOB_ACCEPTED];
    assert Fitting(3, []) && Fits([3], BOB);
  }

  lemma SampleEvents()
    ensures EventsIn([BOB]) == [Accept(5, Some("bob"))]
  {
    StopsFirst(BOB_ACCEPTED.ready, 0, 0);
    assert [BOB][..0] == [];
    assert Logins(BOB, 1) == [Accept(5, Some("bob"))];
    assert EventsOf(BOB, 1) == EventsAt(BOB, 0) == Logins(BOB, 1);
  }

  /** A user logs in under the name of bob: the descriptor is polled and the user is listed. */
  lemma SampleRun()
    ensures Fitting(3, [BOB]) && PoliteAll(INITIAL, NONE, EventsIn([BOB]))
    ensures After(3, Inputs([BOB])) == [3, 5]
    ensures Runs.After(INITIAL, EventsIn([BOB])) == [Chan(0, [User(5, "bob"), ROOT])]
  {
    SampleFits();
    SampleEvents();
    var es := [Accept(5, Some("bob"))];
    assert es[1..] == [] && |"bob"| == 3;
    assert [User(5, "bob")] + [ROOT] == [User(5, "bob"), ROOT] && Global(INITIAL) == [ROOT];
    assert Step(INITIAL, es[0]) == WithGlobal(INITIAL, [User(5, "bob"), ROOT]);
    assert Step(INITIAL, es[0]) == [Chan(0, [User(5, "bob"), ROOT])];
    assert Runs.After(INITIAL, es) == Step(INITIAL, es[0]);
  }

  // ---- Connected, but not listed ----

  const LONG_NAME := "thirteen char"

  /** A login with too long a name is refused, but the connection stays open; the first CREATE that
      comes over it makes the server follow a null pointer. */
  lemma RefusedLoginFaults()
    ensures var es, e := [Accept(5, Some(LONG_NAME))], CreateChannel(5, None);
            && Runs.Good(INITIAL, es) && Runs.FaultFree(INITIAL, es) && ProperAll(NONE, es + [e])
            && Runs.After(INITIAL, es) == INITIAL && Faults(INITIAL, e)
  {
    var es, e := [Accept(5, Some(LONG_NAME))], CreateChannel(5, None);
    assert |LONG_NAME| == 13;
    RootAlone();
    assert !Member(Global(INITIAL), 5);
    assert Step(INITIAL, es[0]) == INITIAL && es[1..] == [];
    ConnectedAppend(NONE, es, [e]);
    ConnectedOne(NONE, es[0]);
    ConnectedOne(ConnectedAll(NONE, es), e);
  }
}
