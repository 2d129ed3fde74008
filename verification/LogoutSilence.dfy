/**
 When a logout silences the user: exactly which directories leave an id reachable after its logout,
 and how they come about.
 */
module LogoutSilence {
  import opened Wrappers
  import opened Seqs
  import opened Users
  import opened Directory
  import opened DirectoryLaws
  import opened LogoutLaws
  import opened DirectoryRuns

  ghost predicate ListedTwice(us: seq<User>, id: int) {
    exists i, j :: 0 <= i < j < |us| && us[i].id == us[j].id == id
  }

  /** One deletion leaves the id listed exactly when it was listed twice. */
  lemma WithoutAbsentIff(us: seq<User>, id: int)
    ensures Member(Without(us, id), id) <==> ListedTwice(us, id)
  {
    var k := FirstIndex(us, HasId(id));
    var r := Without(us, id);
    MemberIff(r, id);
    if i, j :| 0 <= i < j < |us| && us[i].id == us[j].id == id {
      assert HasId(id)(us[i]) && k <= i;
      assert r[j - 1] == us[j];
    }
    if Member(r, id) {
      var m := FirstIndex(r, HasId(id));
      assert HasId(id)(r[m]);
      assert k < |us| ==> HasId(id)(us[k]) && k <= m;
      assert k < |us| ==> us[k].id == us[m + 1].id == id;
    }
  }

  // ---- The global channel ----

  ghost predicate GlobalAlone(dir: Dir) {
    && dir != [] && Last(dir).id == CHANNEL_ZERO
    && forall k :: 0 <= k < |dir| - 1 ==> dir[k].id != CHANNEL_ZERO
  }

  lemma TurnKeepsAlone(done: Dir, c: Chan, id: int)
    requires c.id != CHANNEL_ZERO && forall k :: 0 <= k < |done| ==> done[k].id != CHANNEL_ZERO
    ensures forall k :: 0 <= k < |Turned(done, c, id)| ==> Turned(done, c, id)[k].id != CHANNEL_ZERO
  {
    RemoveFirstKeeps(done + [Remaining(c, id)], ChanIs(c.id));
  }

  lemma {:induction false} LoopKeepsAlone(done: Dir, rest: Dir, id: int)
    requires GlobalAlone(rest) && forall k :: 0 <= k < |done| ==> done[k].id != CHANNEL_ZERO
    ensures GlobalAlone(LogoutLoop(done, rest, id)) && Last(LogoutLoop(done, rest, id)) == Last(rest)
    decreases rest
  {
    if |rest| == 1 {
      assert LogoutLoop(done, rest, id) == LogoutLoop(done + [rest[0]], [], id);
    } else {
      TurnKeepsAlone(done, rest[0], id);
      LoopKeepsAlone(Turned(done, rest[0], id), rest[1..], id);
    }
  }

  /** After its logout an id is still reached on the global channel exactly when it was listed twice
      there. */
  lemma LogoutReachedIff(dir: Dir, id: int, sender: int)
    requires GlobalAlone(dir) && id != ROOT_ID && sender != id
    ensures id in Deliveries(Logout(dir, id).0, sender, CHANNEL_ZERO) <==> ListedTwice(Global(dir), id)
  {
    LoopKeepsAlone([], dir, id);
    var r := Logout(dir, id).0;
    assert GlobalAlone(r) && Global(r) == Without(Global(dir), id);
    FirstIndexIs(r, ChanIs(CHANNEL_ZERO), |r| - 1);
    ReceiversAre(Global(r), sender);
    WithoutAbsentIff(Global(dir), id);
  }

  // ---- Every channel ----

  function Departed(c: Chan, id: int): Chan {
    c.(users := Without(c.users, id))
  }

  lemma {:induction false} ClearedIs(dir: Dir, id: int)
    ensures forall c :: c in Cleared(dir, id) <==>
                        exists k :: 0 <= k < |dir| && !Emptied(dir[k], id) && c == Remaining(dir[k], id)
    ensures UniqueIds(dir) ==> UniqueIds(Cleared(dir, id))
  {
    if dir != [] {
      var tail := dir[1..];
      ClearedIs(tail, id);
      assert forall k :: 0 <= k < |tail| ==> tail[k] == dir[k + 1];
      assert forall k :: 1 <= k < |dir| ==> dir[k] == tail[k - 1];
      var kept := Cleared(tail, id);
      forall k | UniqueIds(dir) && 0 <= k < |kept|
        ensures kept[k].id != dir[0].id
      {
        assert kept[k] in kept;
      }
    }
  }

  /** With unique ids logout is Cleared but for its last channel, the global one. */
  lemma LogoutShape(dir: Dir, id: int)
    requires dir != [] && Last(dir).id == CHANNEL_ZERO && UniqueIds(dir)
    ensures var cleared, r := Cleared(dir, id), Logout(dir, id).0;
            && |r| == |cleared| > 0 && Last(cleared) == Last(dir) && UniqueIds(r) && Last(r) == Departed(Last(dir), id)
            && forall k :: 0 <= k < |r| - 1 ==> r[k] == cleared[k] && r[k] in cleared && r[k].id != CHANNEL_ZERO
  {
    var cleared, r := Cleared(dir, id), Logout(dir, id).0;
    LogoutWithUniqueIds(dir, id);
    ClearedLast(dir, id);
    ClearedIs(dir, id);
    SameIds(cleared, r);
  }

  lemma SameIds(dir: Dir, dir': Dir)
    requires UniqueIds(dir) && |dir| == |dir'| && forall k :: 0 <= k < |dir| ==> dir'[k].id == dir[k].id
    ensures UniqueIds(dir')
  {
  }

  lemma {:induction false} ClearedLast(dir: Dir, id: int)
    requires dir != [] && Last(dir).id == CHANNEL_ZERO
    ensures Cleared(dir, id) != [] && Last(Cleared(dir, id)) == Last(dir)
  {
    if |dir| > 1 {
      ClearedLast(dir[1..], id);
    } else {
      assert Cleared(dir[1..], id) == [];
    }
  }

  /** With unique ids: after a logout the channels are the old ones without the user, but for those
      that this empties. */
  lemma LogoutChannels(dir: Dir, id: int)
    requires dir != [] && Last(dir).id == CHANNEL_ZERO && UniqueIds(dir)
    ensures var r := Logout(dir, id).0;
            && UniqueIds(r)
            && forall c :: c in r <==>
                           exists k :: 0 <= k < |dir| && !Emptied(dir[k], id) && c == Departed(dir[k], id)
  {
    var r := Logout(dir, id).0;
    LogoutShape(dir, id);
    ClearedIs(dir, id);
    forall c | c in r
      ensures exists k :: 0 <= k < |dir| && !Emptied(dir[k], id) && c == Departed(dir[k], id)
    {
      if c == Last(r) {
        assert !Emptied(dir[|dir| - 1], id);
      }
    }
    forall k | 0 <= k < |dir| && !Emptied(dir[k], id)
      ensures Departed(dir[k], id) in r
    {
      ClearedFound(dir, id, k);
    }
  }

  lemma ClearedFound(dir: Dir, id: int, k: nat)
    requires dir != [] && Last(dir).id == CHANNEL_ZERO && UniqueIds(dir)
    requires k < |dir| && !Emptied(dir[k], id)
    ensures Departed(dir[k], id) in Logout(dir, id).0
  {
    var cleared, r := Cleared(dir, id), Logout(dir, id).0;
    LogoutShape(dir, id);
    if k == |dir| - 1 {
      assert r[|r| - 1] == Departed(dir[k], id);
    } else {
      ClearedIs(dir, id);
      assert Remaining(dir[k], id) in cleared;
      var m :| 0 <= m < |cleared| && cleared[m] == Remaining(dir[k], id);
      assert r[m] == Departed(dir[k], id);
    }
  }

  /** With unique channel ids, a logout silences the id on every channel exactly when no channel
      lists it twice. */
  lemma LogoutSilencesIff(dir: Dir, id: int, sender: int)
    requires dir != [] && Last(dir).id == CHANNEL_ZERO && UniqueIds(dir) && id != ROOT_ID && sender != id
    ensures (forall chan: U16 :: id !in Deliveries(Logout(dir, id).0, sender, chan)) <==>
            forall k :: 0 <= k < |dir| ==> !ListedTwice(dir[k].users, id)
  {
    var r := Logout(dir, id).0;
    LogoutChannels(dir, id);
    forall chan: U16 | id in Deliveries(r, sender, chan)
      ensures exists k :: 0 <= k < |dir| && ListedTwice(dir[k].users, id)
    {
      var m := FirstIndex(r, ChanIs(chan));
      ReceiversAre(r[m].users, sender);
      assert r[m] in r;
      var k :| 0 <= k < |dir| && !Emptied(dir[k], id) && r[m] == Departed(dir[k], id);
      WithoutAbsentIff(dir[k].users, id);
    }
    forall k | 0 <= k < |dir| && ListedTwice(dir[k].users, id)
      ensures id in Deliveries(r, sender, dir[k].id)
    {
      WithoutAbsentIff(dir[k].users, id);
      var c := Departed(dir[k], id);
      assert c in r;
      var m :| 0 <= m < |r| && r[m] == c;
      FirstIndexIs(r, ChanIs(c.id), m);
      ReceiversAre(c.users, sender);
    }
  }

  // ---- How it comes about ----

  /**
   A peer that hangs up stays listed, so its descriptor can be listed twice; one logout then
   does not silence it.
   */
  lemma StaleDescriptorStillReached()
    ensures var d1 := Login(INITIAL, 6, None).0;
            var d2 := Login(d1, 5, None).0;
            var d3 := Login(Step(d2, Hangup(5)), 5, None).0;
            var d4 := Logout(d3, 5).0;
            LogoutOutcome(d3, 5) == Some(d4) && 5 in Deliveries(d4, 6, CHANNEL_ZERO)
  {
    var five, six := User(5, DEFAULT_USERNAME), User(6, DEFAULT_USERNAME);
    LoginAlone([ROOT], 6);
    LoginAlone([six] + [ROOT], 5);
    LoginAlone([five] + ([six] + [ROOT]), 5);
    var us := [five] + ([five] + ([six] + [ROOT]));
    assert us == [five, five, six, ROOT];
    assert Without(us, 5) == [five, six, ROOT];
    assert Logout([Chan(CHANNEL_ZERO, us)], 5).0 == [Chan(CHANNEL_ZERO, [five, six, ROOT])];
  }

  /** What filter makes of a query that names user 5 twice: a channel that lists it twice. One logout
      then does not silence it there. */
  lemma DoubleInviteStillReached()
    ensures var five, six := User(5, DEFAULT_USERNAME), User(6, DEFAULT_USERNAME);
            var global := Chan(CHANNEL_ZERO, [six, five, ROOT]);
            && MayCreate([global], 6, Some([6, 5, 5]))
            && var dir := Create([global], 6, Some([6, 5, 5]));
            && dir == [Chan(1, [five, five, six]), global]
            && LogoutOutcome(dir, 5) == Some(Logout(dir, 5).0)
            && 5 in Deliveries(Logout(dir, 5).0, 6, 1)
  {
    var five, six := User(5, DEFAULT_USERNAME), User(6, DEFAULT_USERNAME);
    var us := [six, five, ROOT];
    var global := Chan(CHANNEL_ZERO, us);
    var dir := [Chan(1, [five, five, six]), global];
    FilteredTwice(us, five, six);
    assert Create([global], 6, Some([6, 5, 5])) == dir;
    LogoutFaultsIff(dir, 5);
    assert dir[0].users[0].id == dir[0].users[1].id == 5;
    assert UniqueIds(dir);
    LogoutChannels(dir, 5);
    var c := Departed(dir[0], 5);
    WithoutAbsentIff(dir[0].users, 5);
    assert c in Logout(dir, 5).0;
    var m :| 0 <= m < |Logout(dir, 5).0| && Logout(dir, 5).0[m] == c;
    FirstIndexIs(Logout(dir, 5).0, ChanIs(1), m);
    ReceiversAre(c.users, 6);
  }

  lemma FilteredTwice(us: seq<User>, five: User, six: User)
    requires us == [six, five, ROOT] && six.id == 6 && five.id == 5
    ensures Filtered(us, [6, 5, 5]) == [five, five, six]
  {
    var c0 := Cursor([6, 5, 5], 0, 0, 0, []);
    FirstIndexIs(c0.q, IsId(6), 0);
    var c1 := Advance(us, c0);
    assert c1 == Cursor([MAX_ID_NUM, 5, 5], 0, 1, 1, [six]);
    FirstIndexIs(c1.q, IsId(5), 1);
    var c2 := Advance(us, c1);
    assert c2 == Cursor([MAX_ID_NUM, MAX_ID_NUM, 5], 0, 2, 2, [five, six]);
    FirstIndexIs(c2.q, IsId(0), 3);
    var c3 := Advance(us, c2);
    assert c3 == Cursor([MAX_ID_NUM, MAX_ID_NUM, 5], 1, 1, 2, [five, six]);
    FirstIndexIs(c3.q, IsId(5), 2);
    var c4 := Advance(us, c3);
    assert c4.found == 3 && c4.acc == [five, five, six];
    assert FilterFrom(us, c0) == FilterFrom(us, c1) == FilterFrom(us, c2) == FilterFrom(us, c3) == FilterFrom(us, c4);
  }
}
