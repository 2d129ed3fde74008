/**
 Whole runs on the heap: the requests that reach the server, one after the other until the first on
 which the source follows a null pointer, and what the theorems about runs say of its state and of
 what it has written.
 */
module ServerRuns {
  import opened Wrappers
  import opened Users
  import opened Directory
  import opened DirectoryLaws
  import opened DirectoryRuns
  import opened OneUser
  import opened Server

  /** A connection that is accepted, or a request that is received. */
  datatype Incoming =
    | Connection(fd: int, name: Option<string>)
    | Received(from: int, command: int, chan: U16, query: Option<seq<U16>>)

  function EventOf(r: Incoming): Event {
    match r
    case Connection(fd, name) => Accept(fd, name)
    case Received(from, command, chan, query) => Request(from, command, chan, query)
  }

  function EventsOf(rs: seq<Incoming>): (es: seq<Event>)
    ensures |es| == |rs|
    ensures forall k :: 0 <= k < |rs| ==> es[k] == EventOf(rs[k])
  {
    seq(|rs|, k requires 0 <= k < |rs| => EventOf(rs[k]))
  }

  // ---- Runs, one event further ----

  /** What is sent in a run is what is sent before some point and then after it. */
  lemma {:induction false} ReachedInTwo(dir: Dir, a: seq<Event>, b: seq<Event>)
    ensures Reached(dir, a + b) == Reached(dir, a) + Reached(After(dir, a), b)
    decreases a
  {
    if a == [] {
      assert a + b == b;
      assert [] + Reached(dir, b) == Reached(dir, b);
    } else {
      assert (a + b)[0] == a[0] && (a + b)[1..] == a[1..] + b;
      var dir', rest := Step(dir, a[0]), Reached(After(dir, a), b);
      ReachedInTwo(dir', a[1..], b);
      assert Sent(dir, a[0]) + (Reached(dir', a[1..]) + rest) == (Sent(dir, a[0]) + Reached(dir', a[1..])) + rest;
    }
  }

  lemma {:induction false} AfterOne(dir: Dir, es: seq<Event>, e: Event)
    ensures After(dir, es + [e]) == Step(After(dir, es), e)
    ensures FaultFree(dir, es + [e]) <==> FaultFree(dir, es) && !Faults(After(dir, es), e)
    decreases es
  {
    if es == [] {
      assert es + [e] == [e] && [e][1..] == [];
    } else {
      assert (es + [e])[0] == es[0] && (es + [e])[1..] == es[1..] + [e];
      AfterOne(Step(dir, es[0]), es[1..], e);
    }
  }

  lemma ReachedOne(dir: Dir, es: seq<Event>, e: Event)
    ensures Reached(dir, es + [e]) == Reached(dir, es) + Sent(After(dir, es), e)
  {
    ReachedInTwo(dir, es, [e]);
    assert [e][1..] == [];
  }

  lemma {:induction false} CarefulInTwo(dir: Dir, a: seq<Event>, b: seq<Event>, id: U16)
    ensures CarefulRun(dir, a + b, id) <==> CarefulRun(dir, a, id) && CarefulRun(After(dir, a), b, id)
    decreases a
  {
    if a == [] {
      assert a + b == b;
    } else {
      assert (a + b)[0] == a[0] && (a + b)[1..] == a[1..] + b;
      CarefulInTwo(Step(dir, a[0]), a[1..], b, id);
    }
  }

  /** Event t logs out a user who does not log in again, in a run that is careful with its id. */
  ghost predicate LogsOutForGood(es: seq<Event>, t: nat, id: U16) {
    && t < |es| && es[t] == LogoutRequest(id) && id != ROOT_ID && id != MAX_ID_NUM
    && CarefulRun(INITIAL, es, id) && NotAgain(es[t + 1..], id)
  }

  /** What is sent after event t, the rest of the log, does not reach the user. */
  lemma SilentInLog(es: seq<Event>, t: nat, id: U16)
    requires LogsOutForGood(es, t, id)
    ensures Reached(INITIAL, es[..t + 1]) <= Reached(INITIAL, es)
    ensures id !in Reached(INITIAL, es)[|Reached(INITIAL, es[..t + 1])|..]
  {
    var before, after := es[..t], es[t + 1..];
    assert es == (before + [es[t]]) + after && es[..t + 1] == before + [es[t]];
    AfterOne(INITIAL, before, es[t]);
    ReachedInTwo(INITIAL, es[..t + 1], after);
    CarefulInTwo(INITIAL, es[..t + 1], after, id);
    CarefulInTwo(INITIAL, before, [es[t]], id);
    SilentAfterOwnLogout(before, id, after);
  }

  /** Whoever logs out for good is sent nothing in the rest of the log. */
  ghost predicate LogSilent(es: seq<Event>, log: seq<U16>) {
    forall t: nat, id: U16 {:trigger LogsOutForGood(es, t, id)} :: LogsOutForGood(es, t, id) ==> SilentFrom(es, t, id, log)
  }

  ghost predicate SilentFrom(es: seq<Event>, t: nat, id: U16, log: seq<U16>)
    requires t < |es|
  {
    var sent := Reached(INITIAL, es[..t + 1]);
    sent <= log && id !in log[|sent|..]
  }

  lemma LogIsSilent(es: seq<Event>)
    ensures LogSilent(es, Reached(INITIAL, es))
  {
    forall t: nat, id: U16 | LogsOutForGood(es, t, id)
      ensures SilentFrom(es, t, id, Reached(INITIAL, es))
    {
      SilentInLog(es, t, id);
    }
  }

  // ---- On the heap ----

  method HandleOne(info: ServerInfo, r: Incoming) returns (sent: seq<U16>, fault: bool)
    requires info.Valid()
    modifies info, info.dirRepr, info.userRepr
    ensures info.Valid() && fresh(info.dirRepr - old(info.dirRepr)) && fresh(info.userRepr - old(info.userRepr))
    ensures info.Abs() == Step(old(info.Abs()), EventOf(r))
    ensures r.Connection? ==> info.Abs() == Step(old(info.Abs()), Accept(r.fd, r.name)) && sent == []
    ensures r.Received? ==> info.Abs() == Step(old(info.Abs()), Request(r.from, r.command, r.chan, r.query))
    ensures sent == Sent(old(info.Abs()), EventOf(r)) && fault == Faults(old(info.Abs()), EventOf(r))
  {
    match r
    case Connection(fd, name) =>
      var _ := info.LoginEvent(fd, name);
      sent, fault := [], false;
    case Received(from, command, chan, query) =>
      info.currentId := from;
      sent, fault := info.HandleRequest(command, chan, query);
  }

  /** The first n events have happened without a fault, and `log` lists whom messages were sent to. */
  ghost predicate Handled(dir: Dir, es: seq<Event>, n: nat, log: seq<U16>) {
    n <= |es| && FaultFree(dir, es[..n]) && log == Reached(dir, es[..n])
  }

  /** The directory after the first n events. */
  ghost function DirAt(dir: Dir, es: seq<Event>, n: nat): Dir
    requires n <= |es|
  {
    After(dir, es[..n])
  }

  lemma HandledOne(dir: Dir, es: seq<Event>, n: nat, log: seq<U16>)
    requires Handled(dir, es, n, log) && n < |es|
    ensures DirAt(dir, es, n + 1) == Step(DirAt(dir, es, n), es[n])
    ensures !Faults(DirAt(dir, es, n), es[n]) ==> Handled(dir, es, n + 1, log + Sent(DirAt(dir, es, n), es[n]))
  {
    assert es[..n + 1] == es[..n] + [es[n]];
    AfterOne(dir, es[..n], es[n]);
    ReachedOne(dir, es[..n], es[n]);
  }

  lemma HandledNone(dir: Dir, es: seq<Event>)
    ensures Handled(dir, es, 0, []) && DirAt(dir, es, 0) == dir
    ensures DirAt(dir, es, |es|) == After(dir, es)
  {
    assert es[..|es|] == es;
  }

  /** The requests in turn, n of them without a fault. */
  method HandleAll(info: ServerInfo, rs: seq<Incoming>) returns (log: seq<U16>, n: nat)
    requires info.Valid()
    modifies info, info.dirRepr, info.userRepr
    ensures info.Valid() && Handled(old(info.Abs()), EventsOf(rs), n, log)
    ensures n < |rs| ==> Faults(DirAt(old(info.Abs()), EventsOf(rs), n), EventsOf(rs)[n])
    ensures n == |rs| ==> info.Abs() == After(old(info.Abs()), EventsOf(rs))
  {
    ghost var dir, es := info.Abs(), EventsOf(rs);
    HandledNone(dir, es);
    log, n := [], 0;
    while n < |rs|
      invariant info.Valid() && 0 <= n <= |rs| == |es|
      invariant fresh(info.dirRepr - old(info.dirRepr)) && fresh(info.userRepr - old(info.userRepr))
      invariant info.Abs() == DirAt(dir, es, n) && Handled(dir, es, n, log)
    {
      HandledOne(dir, es, n, log);
      var sent, fault := HandleOne(info, rs[n]);
      if fault {
        return;
      }
      log := log + sent;
      n := n + 1;
    }
  }

  /** A server from its start. While the environment keeps its promises the invariant holds, and
      nothing is written to a user who has logged out for good. */
  method Serve(rs: seq<Incoming>) returns (info: ServerInfo, log: seq<U16>, n: nat)
    ensures info.Valid() && Handled(INITIAL, EventsOf(rs), n, log)
    ensures n == |rs| && Good(INITIAL, EventsOf(rs)) ==> Inv(info.Abs())
    ensures LogSilent(EventsOf(rs)[..n], log)
  {
    info := new ServerInfo();
    log, n := HandleAll(info, rs);
    LogIsSilent(EventsOf(rs)[..n]);
    if Good(INITIAL, EventsOf(rs)) {
      ReachableInv(EventsOf(rs));
    }
  }
}
