/** The discipline of channel ids: a new channel's id is the current length of the directory. */
module ChannelIds {
  import opened Wrappers
  import opened Seqs
  import opened Users
  import opened Directory
  import opened DirectoryLaws
  import opened LogoutLaws
  import opened DirectoryRuns

  /** Ids run from length - 1 at the head down to 0 at the global channel. */
  ghost predicate Descending(dir: Dir) {
    forall k :: 0 <= k < |dir| ==> dir[k].id == |dir| - 1 - k
  }

  /** The creator is told the id under which the new channel, and no older one, is found. */
  lemma CreateReportsNewest(dir: Dir, from: int, query: Option<seq<U16>>)
    requires dir != [] && MayCreate(dir, from, query)
    ensures var dir' := Create(dir, from, query);
            && FirstIndex(dir', ChanIs(ReportedId(dir'))) == 0
            && dir'[1..] == dir
            && (ReportedId(dir') == CHANNEL_ZERO <==> |dir| % 65536 == 0)
  {
    var dir' := Create(dir, from, query);
    assert ChanIs(ReportedId(dir'))(dir'[0]);
  }

  /** Creating keeps live ids unique exactly when no live channel has the directory's length as its id. */
  lemma CreateUniqueIff(dir: Dir, from: int, query: Option<seq<U16>>)
    requires dir != [] && MayCreate(dir, from, query) && UniqueIds(dir)
    ensures UniqueIds(Create(dir, from, query)) <==> FirstIndex(dir, ChanIs(|dir| % 65536)) == |dir|
  {
    var dir' := Create(dir, from, query);
    assert dir'[1..] == dir;
    var k := FirstIndex(dir, ChanIs(|dir| % 65536));
    if k < |dir| {
      assert dir'[k + 1] == dir[k] && ChanIs(|dir| % 65536)(dir[k]);
      assert dir'[0].id == dir'[k + 1].id;
    } else {
      forall i, j | 0 <= i < j < |dir'|
        ensures dir'[i].id != dir'[j].id
      {
        assert dir'[j] == dir[j - 1] && !ChanIs(|dir| % 65536)(dir[j - 1]);
        assert i > 0 ==> dir'[i] == dir[i - 1];
      }
    }
  }

  /** The event deletes no channel while a newer one survives. */
  ghost predicate NewestFirst(dir: Dir, e: Event) {
    match e
    case LeaveChannel(from, chan) =>
      var k := FirstIndex(dir, ChanIs(chan));
      chan != CHANNEL_ZERO && k < |dir| && Member(dir[k].users, from) && Without(dir[k].users, from) == [] ==> k == 0
    case LogoutRequest(from) => EmptiedFirst(dir, from)
    case _ => true
  }

  lemma {:induction false} ClearedLength(dir: Dir, id: int)
    ensures |Cleared(dir, id)| <= |dir|
    ensures |Cleared(dir, id)| == |dir| <==> forall k :: 0 <= k < |dir| ==> !Emptied(dir[k], id)
    ensures |Cleared(dir, id)| == |dir| ==>
              forall k :: 0 <= k < |dir| ==> Cleared(dir, id)[k] == Remaining(dir[k], id)
  {
    if dir != [] {
      var tail := dir[1..];
      ClearedLength(tail, id);
      assert forall k :: 0 <= k < |tail| ==> tail[k] == dir[k + 1];
      assert forall k :: 1 <= k < |dir| ==> dir[k] == tail[k - 1];
    }
  }

  /** How many channels at the head of the directory the user's departure empties. */
  function EmptiedPrefix(dir: Dir, id: int): (p: nat)
    ensures p <= |dir|
    ensures forall k :: 0 <= k < p ==> Emptied(dir[k], id)
    ensures p < |dir| ==> !Emptied(dir[p], id)
  {
    if dir == [] || !Emptied(dir[0], id) then 0 else 1 + EmptiedPrefix(dir[1..], id)
  }

  lemma {:induction false} ClearedSkips(dir: Dir, id: int, p: nat)
    requires p <= |dir| && forall k :: 0 <= k < p ==> Emptied(dir[k], id)
    ensures Cleared(dir, id) == Cleared(dir[p..], id)
  {
    if p == 0 {
      assert dir[0..] == dir;
    } else {
      assert Emptied(dir[0], id);
      assert dir[1..][p - 1..] == dir[p..];
      assert forall k :: 0 <= k < p - 1 ==> dir[1..][k] == dir[k + 1];
      ClearedSkips(dir[1..], id, p - 1);
      assert [] + Cleared(dir[1..], id) == Cleared(dir[1..], id);
    }
  }

  /** No channel that stays stands before an emptied one. */
  ghost predicate EmptiedFirst(dir: Dir, id: int) {
    forall i, j :: 0 <= i < j < |dir| && Emptied(dir[j], id) ==> Emptied(dir[i], id)
  }

  lemma {:induction false} ClearedDescendingIff(dir: Dir, id: int)
    requires Descending(dir) && dir != []
    ensures Descending(Cleared(dir, id)) <==> EmptiedFirst(dir, id)
  {
    var p := EmptiedPrefix(dir, id);
    var rest := dir[p..];
    ClearedSkips(dir, id, p);
    EmptiedFirstIff(dir, id, p);
    if j :| 0 <= j < |rest| && Emptied(rest[j], id) {
      GapBreaksDescent(rest, id, j);
    } else {
      NoGap(rest, id);
    }
  }

  lemma EmptiedFirstIff(dir: Dir, id: int, p: nat)
    requires p <= |dir| && (forall k :: 0 <= k < p ==> Emptied(dir[k], id)) && (p < |dir| ==> !Emptied(dir[p], id))
    requires Descending(dir)
    ensures EmptiedFirst(dir, id) <==> forall k :: 0 <= k < |dir[p..]| ==> !Emptied(dir[p..][k], id)
    ensures Descending(dir[p..]) && (p < |dir| ==> !Emptied(dir[p..][0], id))
  {
    var rest := dir[p..];
    assert forall k :: 0 <= k < |rest| ==> rest[k] == dir[p + k];
    if k :| 0 <= k < |rest| && Emptied(rest[k], id) {
      assert Emptied(dir[p + k], id) && !Emptied(dir[p], id) && p < p + k;
    } else {
      forall j | p <= j < |dir|
        ensures !Emptied(dir[j], id)
      {
        assert rest[j - p] == dir[j];
      }
    }
  }

  /** An emptied channel behind one that stays leaves a gap in the ids. */
  lemma {:induction false} GapBreaksDescent(rest: Dir, id: int, j: nat)
    requires Descending(rest) && j < |rest| && !Emptied(rest[0], id) && Emptied(rest[j], id)
    ensures !Descending(Cleared(rest, id))
  {
    var r := Cleared(rest, id);
    ClearedLength(rest, id);
    assert r == [Remaining(rest[0], id)] + Cleared(rest[1..], id);
    assert r[0].id == |rest| - 1 > |r| - 1;
  }

  lemma NoGap(rest: Dir, id: int)
    requires Descending(rest) && forall k :: 0 <= k < |rest| ==> !Emptied(rest[k], id)
    ensures Descending(Cleared(rest, id))
  {
    ClearedLength(rest, id);
  }

  lemma DescendingUnique(dir: Dir)
    requires Descending(dir)
    ensures UniqueIds(dir)
  {
  }

  /** Taking out one channel keeps the ids descending exactly when it is the newest. */
  lemma RemoveDescendingIff(dir: Dir, k: nat)
    requires Descending(dir) && k < |dir| - 1
    ensures Descending(RemoveAt(dir, k)) <==> k == 0
  {
    var r := RemoveAt(dir, k);
    if k > 0 {
      assert r[0] == dir[0] && r[0].id == |dir| - 1;
    } else {
      assert forall m :: 0 <= m < |r| ==> r[m] == dir[m + 1];
    }
  }

  lemma {:induction false} LeaveDescendingIff(dir: Dir, id: int, chan: U16)
    requires Descending(dir) && Inv(dir)
    ensures Descending(Leave(dir, id, chan).0) <==> NewestFirst(dir, LeaveChannel(id, chan))
  {
    LeaveEffect(dir, id, chan);
    if LeaveHappens(dir, id, chan) {
      var k := FirstIndex(dir, ChanIs(chan));
      assert ChanIs(chan)(dir[k]) && k != |dir| - 1;
      RemoveDescendingIff(dir, k);
      SameIdsDescend(dir, dir[k := dir[k].(users := Without(dir[k].users, id))]);
    }
  }

  lemma SameIdsDescend(dir: Dir, dir': Dir)
    requires |dir'| == |dir| && forall k :: 0 <= k < |dir| ==> dir'[k].id == dir[k].id
    ensures Descending(dir') <==> Descending(dir)
  {
  }

  lemma {:induction false} LogoutDescendingIff(dir: Dir, id: int)
    requires Descending(dir) && Inv(dir)
    ensures Descending(Logout(dir, id).0) <==> NewestFirst(dir, LogoutRequest(id))
  {
    DescendingUnique(dir);
    LogoutWithUniqueIds(dir, id);
    SameIdsDescend(Cleared(dir, id), Logout(dir, id).0);
    ClearedDescendingIff(dir, id);
  }

  lemma CreateDescends(dir: Dir, from: int, query: Option<seq<U16>>)
    requires Descending(dir) && dir != [] && |dir| < 65536 && MayCreate(dir, from, query)
    ensures Descending(Create(dir, from, query))
  {
    var r := Create(dir, from, query);
    assert r[0].id == |dir| && forall k :: 1 <= k < |r| ==> r[k] == dir[k - 1];
  }

  /** Each event keeps the ids descending exactly when it deletes the newest channels first. */
  lemma {:induction false} DescendingStep(dir: Dir, e: Event)
    requires Inv(dir) && Orderly(dir, e) && Descending(dir)
    ensures Descending(Step(dir, e)) <==> NewestFirst(dir, e)
  {
    match e
    case Accept(fd, name) => SameIdsDescend(dir, Login(dir, fd, name).0);
    case CreateChannel(from, query) =>
      if MayCreate(dir, from, query) {
        CreateDescends(dir, from, query);
      }
    case JoinChannel(from, chan) => SameIdsDescend(dir, Join(dir, from, chan).0);
    case LeaveChannel(from, chan) => LeaveDescendingIff(dir, from, chan);
    case LogoutRequest(from) => LogoutDescendingIff(dir, from);
    case _ =>
  }

  ghost predicate AlwaysNewestFirst(dir: Dir, es: seq<Event>)
    requires Good(dir, es)
    decreases es
  {
    es == [] || (NewestFirst(dir, es[0]) && AlwaysNewestFirst(Step(dir, es[0]), es[1..]))
  }

  lemma {:induction false} DescendingFrom(dir: Dir, es: seq<Event>)
    requires Inv(dir) && Good(dir, es) && AlwaysNewestFirst(dir, es) && Descending(dir)
    ensures Descending(After(dir, es))
    decreases es
  {
    if es != [] {
      InvStep(dir, es[0]);
      DescendingStep(dir, es[0]);
      DescendingFrom(Step(dir, es[0]), es[1..]);
    }
  }

  /** If every deletion removes the newest channels, ids run from length - 1 down to 0, hence are unique. */
  lemma DescendingRun(es: seq<Event>)
    requires Good(INITIAL, es) && AlwaysNewestFirst(INITIAL, es)
    ensures Descending(After(INITIAL, es)) && UniqueIds(After(INITIAL, es))
  {
    assert Inv(INITIAL) && Descending(INITIAL);
    DescendingFrom(INITIAL, es);
    DescendingUnique(After(INITIAL, es));
  }

  // ---- Ids that repeat ----

  /** dir is reached from the initial state by some run on which the server follows no null pointer. */
  ghost predicate Reachable(dir: Dir) {
    exists es :: Good(INITIAL, es) && FaultFree(INITIAL, es) && After(INITIAL, es) == dir
  }

  lemma {:induction false} AfterThen(dir: Dir, es: seq<Event>, e: Event)
    requires Good(dir, es) && FaultFree(dir, es)
    requires Orderly(After(dir, es), e) && Outcome(After(dir, es), e).Some?
    ensures Good(dir, es + [e]) && FaultFree(dir, es + [e])
    ensures After(dir, es + [e]) == Step(After(dir, es), e)
    decreases es
  {
    if es == [] {
      assert es + [e] == [e] && [e][1..] == [];
    } else {
      assert (es + [e])[0] == es[0] && (es + [e])[1..] == es[1..] + [e];
      AfterThen(Step(dir, es[0]), es[1..], e);
    }
  }

  lemma ReachableThen(dir: Dir, e: Event)
    requires Reachable(dir) && Orderly(dir, e) && Outcome(dir, e).Some?
    ensures Reachable(Step(dir, e))
  {
    var es :| Good(INITIAL, es) && FaultFree(INITIAL, es) && After(INITIAL, es) == dir;
    AfterThen(INITIAL, es, e);
  }

  lemma ReachLogin(us: seq<User>, fd: U16)
    requires Reachable([Chan(CHANNEL_ZERO, us)]) && us != [] && 1 <= fd <= 255 && !Member(us, fd)
    ensures Reachable([Chan(CHANNEL_ZERO, [User(fd, DEFAULT_USERNAME)] + us)])
  {
    LoginAlone(us, fd);
    ReachableThen([Chan(CHANNEL_ZERO, us)], Accept(fd, None));
  }

  lemma {:induction false} ReachCreate(dir: Dir, k: nat)
    requires Reachable(dir) && dir != [] && k < |Global(dir)| && |dir| < 65536
    requires forall i :: 0 <= i < k ==> Global(dir)[i].id != Global(dir)[k].id
    ensures Reachable([Chan(|dir|, [Global(dir)[k]])] + dir)
  {
    var user := Global(dir)[k];
    FirstIndexIs(Global(dir), HasId(user.id), k);
    assert MayCreate(dir, user.id, None);
    assert Create(dir, user.id, None) == [Chan(|dir|, [user])] + dir;
    ReachableThen(dir, CreateChannel(user.id, None));
  }

  lemma ReachLeave(front: Dir, user: User, chan: U16, back: Dir)
    requires Reachable(front + [Chan(chan, [user])] + back)
    requires chan != CHANNEL_ZERO && forall k :: 0 <= k < |front| ==> front[k].id != chan
    ensures Reachable(front + back)
  {
    var dir := front + [Chan(chan, [user])] + back;
    FirstIndexIs(dir, ChanIs(chan), |front|);
    assert HasId(user.id)(user);
    LeaveDeletesItsChannel(dir, |front|, Chan(chan, []));
    assert RemoveAt(dir, |front|) == front + back;
    assert !Faults(dir, LeaveChannel(user.id, chan));
    ReachableThen(dir, LeaveChannel(user.id, chan));
  }

  lemma ReachJoin(front: Dir, us: seq<User>, chan: U16, back: Dir, k: nat)
    requires Reachable(front + [Chan(chan, us)] + back) && back != [] && chan != CHANNEL_ZERO
    requires forall i :: 0 <= i < |front| ==> front[i].id != chan
    requires k < |Global(back)| && !Member(us, Global(back)[k].id)
    requires forall i :: 0 <= i < k ==> Global(back)[i].id != Global(back)[k].id
    ensures Reachable(front + [Chan(chan, [Global(back)[k]] + us)] + back)
  {
    var dir, user := front + [Chan(chan, us)] + back, Global(back)[k];
    FirstIndexIs(dir, ChanIs(chan), |front|);
    FirstIndexIs(Global(dir), HasId(user.id), k);
    assert Join(dir, user.id, chan).0 == front + [Chan(chan, [user] + us)] + back;
    ReachableThen(dir, JoinChannel(user.id, chan));
  }

  const FIVE := User(5, DEFAULT_USERNAME)
  const SIX := User(6, DEFAULT_USERNAME)
  const SEVEN := User(7, DEFAULT_USERNAME)

  /** Users 5, 6 and 7 log in. */
  lemma ThreeUsers()
    ensures Reachable([Chan(CHANNEL_ZERO, [SIX, FIVE, ROOT])])
    ensures Reachable([Chan(CHANNEL_ZERO, [SEVEN, SIX, FIVE, ROOT])])
  {
    assert Good(INITIAL, []) && FaultFree(INITIAL, []) && After(INITIAL, []) == INITIAL;
    ReachLogin([ROOT], 5);
    assert [FIVE] + [ROOT] == [FIVE, ROOT];
    ReachLogin([FIVE, ROOT], 6);
    assert [SIX] + [FIVE, ROOT] == [SIX, FIVE, ROOT];
    ReachLogin([SIX, FIVE, ROOT], 7);
    assert [SEVEN] + [SIX, FIVE, ROOT] == [SEVEN, SIX, FIVE, ROOT];
  }

  const ALL := Chan(CHANNEL_ZERO, [SEVEN, SIX, FIVE, ROOT])
  const MINE := Chan(2, [FIVE])
  const THEIRS := Chan(2, [SEVEN, SIX])

  /** User 5 creates channels 1 and 2 and leaves 1. */
  lemma SecondChannelLeft()
    ensures Reachable([MINE, ALL])
  {
    var first := Chan(1, [FIVE]);
    ThreeUsers();
    ReachCreate([ALL], 2);
    assert [first] + [ALL] == [first, ALL];
    ReachCreate([first, ALL], 2);
    assert [MINE] + [first, ALL] == [MINE] + [first] + [ALL];
    ReachLeave([MINE], FIVE, 1, [ALL]);
    assert [MINE] + [ALL] == [MINE, ALL];
  }

  /** Then 6 creates a channel, whose id is 2 again. */
  lemma ThirdChannel()
    ensures Reachable([] + [Chan(2, [SIX])] + [MINE, ALL])
  {
    SecondChannelLeft();
    ReachCreate([MINE, ALL], 1);
    assert [Chan(2, [SIX])] + [MINE, ALL] == [] + [Chan(2, [SIX])] + [MINE, ALL];
  }

  /** And 7 joins it. */
  lemma RepeatedIds()
    ensures Reachable([THEIRS, MINE, ALL])
  {
    ThirdChannel();
    ReachJoin([], [SIX], 2, [MINE, ALL], 0);
    assert [SEVEN] + [SIX] == [SEVEN, SIX];
    assert [] + [THEIRS] + [MINE, ALL] == [THEIRS, MINE, ALL];
  }

  /** The turns of the logout of user 5 from there. */
  lemma RepeatedIdsTurns()
    ensures Turned([], THEIRS, 5) == [THEIRS]
    ensures Turned([THEIRS], MINE, 5) == [Chan(2, [])]
    ensures Turned([Chan(2, [])], ALL, 5) == [Chan(2, []), ALL]
  {
    assert Without([SEVEN, SIX], 5) == [SEVEN, SIX] && Without([FIVE], 5) == [];
    assert [THEIRS] + [Chan(2, [])] == [THEIRS, Chan(2, [])];
    FirstIndexIs([THEIRS, Chan(2, [])], ChanIs(2), 0);
  }

  lemma RepeatedIdsLoop()
    ensures LogoutLoop([], [THEIRS, MINE, ALL], 5) == [Chan(2, []), ALL]
    ensures !StrandedIn([THEIRS, MINE, ALL], 5)
  {
    var left := Chan(2, []);
    RepeatedIdsTurns();
    LoopOf([], THEIRS, [MINE, ALL], 5);
    LoopOf([THEIRS], MINE, [ALL], 5);
    LoopOf([left], ALL, [], 5);
    assert [THEIRS] + [MINE, ALL] == [THEIRS, MINE, ALL];
    assert [MINE] + [ALL] == [MINE, ALL] && [ALL] + [] == [ALL];
  }

  /** It deletes the channel of 6 and 7 and leaves 5's own behind, empty. */
  lemma RepeatedIdsBreakLogout()
    ensures LogoutOutcome([THEIRS, MINE, ALL], 5) == Some([Chan(2, []), Chan(CHANNEL_ZERO, [SEVEN, SIX, ROOT])])
  {
    var dir, dir' := [THEIRS, MINE, ALL], [Chan(2, []), ALL];
    RepeatedIdsLoop();
    LogoutFaultsIff(dir, 5);
    assert Global(dir) == Global(dir') == ALL.users && !Stranded(ALL.users, 5);
    FirstIndexIs(ALL.users, HasId(5), 2);
    assert Without(ALL.users, 5) == [SEVEN, SIX, ROOT];
    assert WithGlobal(dir', [SEVEN, SIX, ROOT]) == [Chan(2, []), Chan(CHANNEL_ZERO, [SEVEN, SIX, ROOT])];
  }

  /** The empty channel can be asked for its users: GET_USERS then reads the first one of none. */
  lemma EmptyChannelFaults()
    ensures var dir := [Chan(2, []), Chan(CHANNEL_ZERO, [SEVEN, SIX, ROOT])];
            Reachable(dir) && Faults(dir, GetUsers(6, 2))
  {
    var dir := [Chan(2, []), Chan(CHANNEL_ZERO, [SEVEN, SIX, ROOT])];
    RepeatedIds();
    RepeatedIdsBreakLogout();
    ReachableThen([THEIRS, MINE, ALL], LogoutRequest(5));
    FirstIndexIs(dir, ChanIs(2), 0);
  }

  lemma LoopOf(done: Dir, c: Chan, rest: Dir, id: int)
    ensures LogoutLoop(done, [c] + rest, id) == LogoutLoop(Turned(done, c, id), rest, id)
  {
    assert ([c] + rest)[1..] == rest;
  }

  lemma OneChannel()
    ensures Reachable([Chan(1, [FIVE]), Chan(CHANNEL_ZERO, [SIX, FIVE, ROOT])])
  {
    var global := Chan(CHANNEL_ZERO, [SIX, FIVE, ROOT]);
    ThreeUsers();
    ReachCreate([global], 1);
    assert [Chan(1, [FIVE])] + [global] == [Chan(1, [FIVE]), global];
  }

  /**
   Users 5 and 6 log in and 5 creates a channel. Ids are unique and no channel is empty, yet the
   logout of 6, who is not in that channel, follows a null pointer; and so does its leaving it.
   */
  lemma StrangerFaults()
    ensures var dir := [Chan(1, [FIVE]), Chan(CHANNEL_ZERO, [SIX, FIVE, ROOT])];
            && Reachable(dir) && UniqueIds(dir) && !Hollow(dir) && LoopSafe(dir, 6)
            && LogoutOutcome(dir, 6) == None && LeaveOutcome(dir, 6, 1) == None
  {
    var dir := [Chan(1, [FIVE]), Chan(CHANNEL_ZERO, [SIX, FIVE, ROOT])];
    OneChannel();
    LogoutFaultsIff(dir, 6);
    assert Stranded(dir[0].users, 6);
    FirstIndexIs(dir, ChanIs(1), 0);
  }

  // ---- What one request undoes ----

  /**
   Joining and then leaving a channel restores the directory exactly, unless the user was a member
   before, or the channel was empty, or somebody not logged in meets a channel of one user - where
   the source follows a null pointer.
   */
  lemma {:induction false} JoinLeaveRestoresIff(dir: Dir, id: int, chan: U16)
    requires Inv(dir) && chan != CHANNEL_ZERO
    ensures var k := FirstIndex(dir, ChanIs(chan));
            LeaveOutcome(Join(dir, id, chan).0, id, chan) == Some(dir) <==>
            (k == |dir| ||
             (!Member(dir[k].users, id) && dir[k].users != [] && (Member(Global(dir), id) || |dir[k].users| > 1)))
  {
    var k := FirstIndex(dir, ChanIs(chan));
    if k < |dir| {
      assert ChanIs(chan)(dir[k]) && k != |dir| - 1;
      if Member(dir[k].users, id) {
        LeaveOfMember(dir, id, chan);
      } else if Member(Global(dir), id) {
        LeaveOfJoiner(dir, id, chan);
      } else {
        assert |dir[k].users| == 1 ==> !HasId(id)(dir[k].users[0]);
      }
    }
  }

  lemma LeaveOfMember(dir: Dir, id: int, chan: U16)
    requires chan != CHANNEL_ZERO && FirstIndex(dir, ChanIs(chan)) < |dir|
    requires Member(dir[FirstIndex(dir, ChanIs(chan))].users, id)
    ensures Leave(dir, id, chan).0 != dir
  {
    var k := FirstIndex(dir, ChanIs(chan));
    LeaveEffect(dir, id, chan);
    assert |Without(dir[k].users, id)| == |dir[k].users| - 1;
  }

  /** Who has just joined is found at the head of the channel and taken off again. */
  lemma LeaveOfJoiner(dir: Dir, id: int, chan: U16)
    requires dir != [] && chan != CHANNEL_ZERO && FirstIndex(dir, ChanIs(chan)) < |dir|
    requires !Member(dir[FirstIndex(dir, ChanIs(chan))].users, id) && Member(Global(dir), id)
    ensures var k := FirstIndex(dir, ChanIs(chan));
            LeaveOutcome(Join(dir, id, chan).0, id, chan)
            == Some(if dir[k].users == [] then RemoveAt(dir, k) else dir)
  {
    var k := FirstIndex(dir, ChanIs(chan));
    var us := dir[k].users;
    var user := Global(dir)[FirstIndex(Global(dir), HasId(id))];
    assert ChanIs(chan)(dir[k]) && HasId(id)(user);
    var joined := dir[k := dir[k].(users := [user] + us)];
    assert joined == Join(dir, id, chan).0;
    FirstIndexIs(joined, ChanIs(chan), k);
    FirstIndexIs([user] + us, HasId(id), 0);
    assert Without([user] + us, id) == us;
    LeaveEffect(joined, id, chan);
    assert joined[k := dir[k]] == dir && RemoveAt(joined, k) == RemoveAt(dir, k);
  }

  /**
   Creating a channel and then leaving it restores the directory exactly when the creator is
   its only member and its id is not 0 - whatever other channels have the same id.
   */
  lemma CreateLeaveRestoresIff(dir: Dir, id: int, query: Option<seq<U16>>)
    requires dir != [] && MayCreate(dir, id, query)
    ensures var us := Invited(dir, id, query);
            LeaveOutcome(Create(dir, id, query), id, |dir| % 65536) == Some(dir) <==>
            |dir| % 65536 != 0 && |us| == 1 && us[0].id == id
  {
    LeaveOfNewest(dir, Invited(dir, id, query), id, |dir| % 65536);
  }

  lemma LeaveOfNewest(dir: Dir, us: seq<User>, id: int, chan: U16)
    ensures LeaveOutcome([Chan(chan, us)] + dir, id, chan) == Some(dir) <==>
            chan != CHANNEL_ZERO && |us| == 1 && us[0].id == id
  {
    var created := [Chan(chan, us)] + dir;
    FirstIndexIs(created, ChanIs(chan), 0);
    LeaveEffect(created, id, chan);
    assert RemoveAt(created, 0) == dir;
    if us != [] {
      assert HasId(id)(us[0]) == (us[0].id == id);
    }
    assert Member(us, id) ==> |Without(us, id)| == |us| - 1;
  }
}
