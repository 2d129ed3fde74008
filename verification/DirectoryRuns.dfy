/** Whole runs of the server's directory: safety of membership and of message delivery. */
module DirectoryRuns {
  import opened Wrappers
  import opened Seqs
  import opened Users
  import opened FilterLaws
  import opened Directory
  import opened DirectoryLaws
  import opened LogoutLaws

  /** Every event of the run respects the environment's obligations where it happens. */
  ghost predicate Good(dir: Dir, es: seq<Event>)
    decreases es
  {
    es == [] || (Orderly(dir, es[0]) && Good(Step(dir, es[0]), es[1..]))
  }

  ghost function After(dir: Dir, es: seq<Event>): Dir
    decreases es
  {
    if es == [] then dir else After(Step(dir, es[0]), es[1..])
  }

  /** No event of the run makes the server follow a null pointer. A real run ends at the first that
      does; so what holds after every run holds as long as the server runs. */
  ghost predicate FaultFree(dir: Dir, es: seq<Event>)
    decreases es
  {
    es == [] || (Outcome(dir, es[0]).Some? && FaultFree(Step(dir, es[0]), es[1..]))
  }

  /** Everyone who is sent a message during the run. */
  ghost function Reached(dir: Dir, es: seq<Event>): seq<U16>
    decreases es
  {
    if es == [] then [] else Sent(dir, es[0]) + Reached(Step(dir, es[0]), es[1..])
  }

  lemma {:induction false} InvRun(dir: Dir, es: seq<Event>)
    requires Inv(dir) && Good(dir, es)
    ensures Inv(After(dir, es))
    decreases es
  {
    if es != [] {
      InvStep(dir, es[0]);
      InvRun(Step(dir, es[0]), es[1..]);
    }
  }

  /** The invariant holds in every state the server can reach. */
  lemma ReachableInv(es: seq<Event>)
    requires Good(INITIAL, es)
    ensures Inv(After(INITIAL, es))
  {
    assert Inv(INITIAL);
    InvRun(INITIAL, es);
  }

  // ---- Delivery ----

  lemma {:induction false} ReceiversAre(us: seq<User>, sender: int)
    ensures forall y :: y in Receivers(us, sender) <==> y != ROOT_ID && y != sender && Member(us, y)
  {
    if us != [] {
      ReceiversAre(us[1..], sender);
      forall y
        ensures Member(us, y) <==> us[0].id == y || Member(us[1..], y)
      {
      }
    }
  }

  lemma {:induction false} ReceiversOnce(us: seq<User>, sender: int)
    requires DistinctIds(us)
    ensures Distinct(Receivers(us, sender))
  {
    if us != [] {
      ReceiversOnce(us[1..], sender);
      ReceiversAre(us[1..], sender);
      MemberIff(us[1..], us[0].id);
      assert forall u :: u in us[1..] ==> u.id != us[0].id;
      var rest := Receivers(us[1..], sender);
      assert us[0].id !in rest;
      assert forall k :: 0 <= k < |rest| ==> rest[k] in rest;
    }
  }

  /**
   SEND reaches exactly the other members of the named channel, each once, never the root
   user, and only users who are logged in.
   */
  lemma SendReaches(dir: Dir, sender: int, chan: U16)
    requires Inv(dir)
    ensures var k := FirstIndex(dir, ChanIs(chan));
            forall y :: y in Deliveries(dir, sender, chan) <==>
              y != ROOT_ID && y != sender && k < |dir| && Member(dir[k].users, y)
    ensures Distinct(Deliveries(dir, sender, chan))
    ensures forall y :: y in Deliveries(dir, sender, chan) ==> Member(Global(dir), y)
  {
    var k := FirstIndex(dir, ChanIs(chan));
    if k < |dir| {
      var us := dir[k].users;
      ReceiversAre(us, sender);
      assert ChanOk(dir[k], Global(dir));
      ReceiversOnce(us, sender);
      forall y | y in Deliveries(dir, sender, chan)
        ensures Member(Global(dir), y)
      {
        MemberIff(us, y);
        MemberIff(Global(dir), y);
      }
    }
  }

  // ---- Silence after logout ----

  lemma LoginKeepsAbsent(us: seq<User>, user: User, id: int)
    requires !Member(us, id) && user.id != id
    ensures !Member([user] + us, id)
  {
    MemberIff(us, id);
    MemberIff([user] + us, id);
  }

  lemma WithoutKeepsAbsent(us: seq<User>, from: int, id: int)
    requires !Member(us, id)
    ensures !Member(Without(us, from), id)
  {
    WithoutKeeps(us, from);
    MemberIff(us, id);
    MemberIff(Without(us, from), id);
  }

  lemma {:induction false} JoinKeepsGlobal(dir: Dir, id: int, chan: U16)
    requires Inv(dir)
    ensures Global(Join(dir, id, chan).0) == Global(dir)
  {
    MemberIff(Global(dir), id);
  }

  lemma {:induction false} AbsentStep(dir: Dir, e: Event, id: int)
    requires Inv(dir) && Orderly(dir, e) && !Member(Global(dir), id)
    requires e.Accept? ==> e.fd != id
    ensures Inv(Step(dir, e)) && !Member(Global(Step(dir, e)), id)
  {
    InvStep(dir, e);
    match e
    case Accept(fd, name) =>
      var name := if name.Some? then name.value else DEFAULT_USERNAME;
      LoginKeepsAbsent(Global(dir), User(fd, name), id);
    case JoinChannel(from, chan) => JoinKeepsGlobal(dir, from, chan);
    case LeaveChannel(from, chan) => LeaveKeepsGlobal(dir, from, chan);
    case LogoutRequest(from) =>
      LoopCleans([], dir, from);
      WithoutKeepsAbsent(Global(dir), from, id);
    case _ =>
  }

  lemma LeaveKeepsGlobal(dir: Dir, id: int, chan: U16)
    requires Inv(dir)
    ensures var r := Leave(dir, id, chan).0; r != [] && Global(r) == Global(dir)
  {
    LeaveEffect(dir, id, chan);
  }

  lemma {:induction false} AbsentIsSilent(dir: Dir, es: seq<Event>, id: int)
    requires Inv(dir) && Good(dir, es) && !Member(Global(dir), id)
    requires forall k :: 0 <= k < |es| && es[k].Accept? ==> es[k].fd != id
    ensures id !in Reached(dir, es)
    ensures Inv(After(dir, es)) && !Member(Global(After(dir, es)), id)
    decreases es
  {
    if es != [] {
      if es[0].Send? {
        SendReaches(dir, es[0].from, es[0].chan);
      }
      AbsentStep(dir, es[0], id);
      AbsentIsSilent(Step(dir, es[0]), es[1..], id);
    }
  }

  /**
   Once a user has logged out, and until that id logs in again, no SEND on any channel
   reaches that id, in every run from the initial state.
   */
  lemma SilentAfterLogout(before: seq<Event>, id: int, after: seq<Event>)
    requires Good(INITIAL, before) && Orderly(After(INITIAL, before), LogoutRequest(id))
    requires Good(Step(After(INITIAL, before), LogoutRequest(id)), after)
    requires forall k :: 0 <= k < |after| && after[k].Accept? ==> after[k].fd != id
    ensures id !in Reached(Step(After(INITIAL, before), LogoutRequest(id)), after)
  {
    ReachableInv(before);
    var dir := After(INITIAL, before);
    InvLogout(dir, id);
    AbsentIsSilent(Step(dir, LogoutRequest(id)), after, id);
  }

  // ---- Why a fresh descriptor is needed ----

  /** Login keeps the listed ids distinct exactly when nobody is listed under the descriptor's last
      eight bits. */
  lemma LoginDistinctIff(dir: Dir, fd: int, name: Option<string>)
    requires Inv(dir) && Login(dir, fd, name).1
    ensures DistinctIds(Global(Login(dir, fd, name).0)) <==> !Member(Global(dir), fd % 256)
  {
    var us, us' := Global(dir), Global(Login(dir, fd, name).0);
    assert ChanOk(Last(dir), us);
    assert us'[0].id == fd % 256 && us'[1..] == us;
    MemberIff(us, fd % 256);
    if Member(us, fd % 256) {
      var k := FirstIndex(us, HasId(fd % 256));
      assert us'[k + 1].id == us'[0].id;
    } else {
      assert forall k :: 0 <= k < |us| ==> us[k] in us;
    }
  }

  lemma LoginAlone(us: seq<User>, fd: U16)
    requires us != [] && fd < 256
    ensures Login([Chan(CHANNEL_ZERO, us)], fd, None).0 ==
            [Chan(CHANNEL_ZERO, [User(fd, DEFAULT_USERNAME)] + us)]
  {
    assert |DEFAULT_USERNAME| == 9;
  }

  // ---- Runs without empty channels ----

  /** Whenever somebody logs out, the live channel ids are unique. */
  ghost predicate UniqueAtLogouts(dir: Dir, es: seq<Event>)
    decreases es
  {
    es == [] || ((es[0].LogoutRequest? ==> UniqueIds(dir)) && UniqueAtLogouts(Step(dir, es[0]), es[1..]))
  }

  lemma {:induction false} NoEmptyRun(dir: Dir, es: seq<Event>)
    requires Inv(dir) && Good(dir, es) && UniqueAtLogouts(dir, es) && !Hollow(dir)
    ensures !Hollow(After(dir, es))
    decreases es
  {
    if es != [] {
      InvStep(dir, es[0]);
      NoEmptyStep(dir, es[0]);
      NoEmptyRun(Step(dir, es[0]), es[1..]);
    }
  }

  /** No non-global channel is ever empty in a run whose logouts find unique channel ids. */
  lemma NoEmptyChannel(es: seq<Event>)
    requires Good(INITIAL, es) && UniqueAtLogouts(INITIAL, es)
    ensures !Hollow(After(INITIAL, es))
  {
    assert Inv(INITIAL);
    NoEmptyRun(INITIAL, es);
  }
}
