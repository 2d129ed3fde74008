/** What every request keeps, over all runs of the directory. */
module DirectoryLaws {
  import opened Wrappers
  import opened Seqs
  import opened Users
  import opened FilterLaws
  import opened Directory

  // ---- Lists of users and channels ----

  lemma MemberIff(us: seq<User>, id: int)
    ensures Member(us, id) <==> exists u :: u in us && u.id == id
  {
    var k := FirstIndex(us, HasId(id));
    if k == |us| {
      forall u | u in us
        ensures u.id != id
      {
        var i :| 0 <= i < |us| && us[i] == u;
        assert !HasId(id)(us[i]);
      }
    } else {
      assert us[k] in us && HasId(id)(us[k]);
    }
  }

  lemma RemoveFirstKeeps<T>(s: seq<T>, p: T -> bool)
    ensures forall k :: 0 <= k < |RemoveFirst(s, p)| ==> RemoveFirst(s, p)[k] in s
    ensures s != [] && !p(Last(s)) ==> RemoveFirst(s, p) != [] && Last(RemoveFirst(s, p)) == Last(s)
  {
  }

  lemma RemoveFirstSpares<T>(s: seq<T>, p: T -> bool, i: nat)
    requires i < |s| && !p(s[i])
    ensures s[i] in RemoveFirst(s, p)
  {
    var k, r := FirstIndex(s, p), RemoveFirst(s, p);
    if k < |s| {
      assert r[if i < k then i else i - 1] == s[i];
    }
  }

  lemma {:induction false} WithoutKeeps(us: seq<User>, id: int)
    ensures forall u :: u in Without(us, id) ==> u in us
    ensures forall u :: u in us && u.id != id ==> u in Without(us, id)
    ensures us != [] && Last(us).id != id ==> Without(us, id) != [] && Last(Without(us, id)) == Last(us)
  {
    RemoveFirstKeeps(us, HasId(id));
    forall u | u in us && u.id != id
      ensures u in Without(us, id)
    {
      var i :| 0 <= i < |us| && us[i] == u;
      RemoveFirstSpares(us, HasId(id), i);
    }
  }

  lemma WithoutDistinct(us: seq<User>, id: int)
    requires DistinctIds(us)
    ensures DistinctIds(Without(us, id))
    ensures !Member(Without(us, id), id)
  {
    var k := FirstIndex(us, HasId(id));
    var r := Without(us, id);
    forall i | 0 <= i < |r|
      ensures r[i].id != id
    {
      var j := if k == |us| || i < k then i else i + 1;
      assert r[i] == us[j];
      if k < |us| {
        assert us[k].id == id;
      } else {
        assert !HasId(id)(us[j]);
      }
    }
    MemberIff(r, id);
  }

  // ---- The invariant ----

  /** A channel's members are distinct and logged in. */
  ghost predicate ChanOk(c: Chan, global: seq<User>) {
    DistinctIds(c.users) && forall u :: u in c.users ==> u in global
  }

  /**
   The global channel is the last one and the only one with id 0; its last user is the root
   user; no channel lists an id twice; every member of a channel is in the global channel.
   */
  ghost predicate Inv(dir: Dir) {
    && dir != [] && Last(dir).id == CHANNEL_ZERO
    && Global(dir) != [] && Last(Global(dir)) == ROOT
    && (forall k :: 0 <= k < |dir| - 1 ==> dir[k].id != CHANNEL_ZERO)
    && (forall k :: 0 <= k < |dir| ==> ChanOk(dir[k], Global(dir)))
  }

  /**
   What the environment has to respect: descriptors are 1..255 and not those of a listed
   user, a create request asks for no listed user twice, and there is room for a 16-bit id.
   */
  ghost predicate Orderly(dir: Dir, e: Event) {
    dir != [] &&
    match e
    case Accept(fd, _) => 1 <= fd <= 255 && !Member(Global(dir), fd)
    case CreateChannel(_, query) => |dir| < 65536 && (query.Some? ==> AsksOnce(Global(dir), query.value))
    case LogoutRequest(from) => 1 <= from <= 255
    case _ => true
  }

  ghost predicate AsksOnce(us: seq<User>, q: seq<U16>) {
    forall k :: 1 <= k < |us| ==> Occurrences(q, us[k].id) <= 1
  }

  lemma {:induction false} InvLogin(dir: Dir, fd: int, name: Option<string>)
    requires Inv(dir) && 1 <= fd <= 255 && !Member(Global(dir), fd)
    ensures Inv(Login(dir, fd, name).0)
  {
    var dir' := Login(dir, fd, name).0;
    if dir' != dir {
      MemberIff(Global(dir), fd);
      assert Global(dir')[1..] == Global(dir);
      forall k | 0 <= k < |dir'|
        ensures ChanOk(dir'[k], Global(dir'))
      {
        assert ChanOk(dir[k], Global(dir));
      }
    }
  }

  lemma DifferentPlaces<T>(s: seq<T>, i: nat, j: nat)
    requires i < j < |s| && multiset(s)[s[i]] <= 1
    ensures s[i] != s[j]
  {
    var a, b := s[..j], s[j..];
    assert s == a + b && a[i] == s[i] && b[0] == s[j];
    assert multiset(s) == multiset(a) + multiset(b);
    assert s[i] in multiset(a) && s[j] in multiset(b);
  }

  lemma {:induction false} FilteredOk(us: seq<User>, q: seq<U16>)
    requires DistinctIds(us) && 2 <= |us| && AsksOnce(us, q)
    ensures ChanOk(Chan(1, Filtered(us, q)), us)
  {
    var r := Filtered(us, q);
    FilterDistinctIff(us, q);
    FilterMembers(us, q);
    forall i, j | 0 <= i < j < |r|
      ensures r[i].id != r[j].id
    {
      DifferentPlaces(r, i, j);
      assert r[i] in us && r[j] in us;
      var m, n :| 0 <= m < |us| && us[m] == r[i] && 0 <= n < |us| && us[n] == r[j];
      assert m != n;
    }
  }

  lemma {:induction false} InvitedOk(dir: Dir, from: int, query: Option<seq<U16>>)
    requires Inv(dir) && MayCreate(dir, from, query)
    requires query.Some? ==> AsksOnce(Global(dir), query.value)
    ensures Invited(dir, from, query) != []
    ensures ChanOk(Chan(1, Invited(dir, from, query)), Global(dir))
  {
    var us := Global(dir);
    assert ChanOk(Last(dir), us);
    if query.Some? && Filtered(us, query.value) != [] {
      if 2 <= |us| {
        FilteredOk(us, query.value);
      } else {
        FilterSingle(us, query.value);
      }
    }
  }

  lemma FilterSingle(us: seq<User>, q: seq<U16>)
    requires |us| == 1 && |q| == 1 && Filtered(us, q) != []
    ensures Filtered(us, q) == [us[0]]
  {
    var c := Cursor(q, 0, 0, 0, []);
    var d := Advance(us, c);
    assert d.pass == 1 && FilterFrom(us, c) == FilterFrom(us, d) == d.acc;
  }

  lemma {:induction false} InvCreate(dir: Dir, from: int, query: Option<seq<U16>>)
    requires Inv(dir) && MayCreate(dir, from, query) && |dir| < 65536
    requires query.Some? ==> AsksOnce(Global(dir), query.value)
    ensures Inv(Create(dir, from, query))
  {
    InvitedOk(dir, from, query);
  }

  lemma {:induction false} InvJoin(dir: Dir, id: int, chan: U16)
    requires Inv(dir)
    ensures Inv(Join(dir, id, chan).0)
  {
    var dir' := Join(dir, id, chan).0;
    if dir' != dir {
      var k := FirstIndex(dir, ChanIs(chan));
      MemberIff(dir[k].users, id);
      assert k != |dir| - 1;
      assert dir'[k].users[1..] == dir[k].users;
      forall m | 0 <= m < |dir'|
        ensures ChanOk(dir'[m], Global(dir'))
      {
        assert ChanOk(dir[m], Global(dir));
      }
    }
  }

  lemma InvShrink(dir: Dir, k: nat, id: int)
    requires Inv(dir) && k < |dir| - 1
    ensures Inv(dir[k := dir[k].(users := Without(dir[k].users, id))])
  {
    var dir' := dir[k := dir[k].(users := Without(dir[k].users, id))];
    WithoutKeeps(dir[k].users, id);
    assert ChanOk(dir[k], Global(dir));
    WithoutDistinct(dir[k].users, id);
    assert forall m :: 0 <= m < |dir'| && m != k ==> dir'[m] == dir[m];
    assert ChanOk(dir'[k], Global(dir));
  }

  lemma InvRemove(dir: Dir, k: nat)
    requires Inv(dir) && k < |dir| - 1
    ensures Inv(RemoveAt(dir, k))
  {
    var r := RemoveAt(dir, k);
    assert Last(r) == Last(dir);
    forall m | 0 <= m < |r|
      ensures ChanOk(r[m], Global(r)) && (m < |r| - 1 ==> r[m].id != CHANNEL_ZERO)
    {
      var j := if m < k then m else m + 1;
      assert r[m] == dir[j] && ChanOk(dir[j], Global(dir));
    }
  }

  /** The channel that leave empties is the one it deletes, even when ids repeat. */
  lemma LeaveDeletesItsChannel(dir: Dir, k: nat, c: Chan)
    requires k < |dir| && k == FirstIndex(dir, ChanIs(c.id))
    ensures RemoveFirst(dir[k := c], ChanIs(c.id)) == RemoveAt(dir, k)
  {
    FirstIndexIs(dir[k := c], ChanIs(c.id), k);
    assert RemoveAt(dir[k := c], k) == RemoveAt(dir, k);
  }

  predicate LeaveHappens(dir: Dir, id: int, chan: U16) {
    var k := FirstIndex(dir, ChanIs(chan));
    chan != CHANNEL_ZERO && k < |dir| && Member(dir[k].users, id)
  }

  /** Leave changes one channel, or deletes it when that empties it, or changes nothing. */
  lemma LeaveEffect(dir: Dir, id: int, chan: U16)
    ensures var k := FirstIndex(dir, ChanIs(chan));
            Leave(dir, id, chan).0 ==
            if !LeaveHappens(dir, id, chan) then dir
            else if Without(dir[k].users, id) == [] then RemoveAt(dir, k)
            else dir[k := dir[k].(users := Without(dir[k].users, id))]
  {
    if LeaveHappens(dir, id, chan) {
      var k := FirstIndex(dir, ChanIs(chan));
      LeaveDeletesItsChannel(dir, k, dir[k].(users := Without(dir[k].users, id)));
    }
  }

  lemma {:induction false} InvLeave(dir: Dir, id: int, chan: U16)
    requires Inv(dir)
    ensures Inv(Leave(dir, id, chan).0)
  {
    LeaveEffect(dir, id, chan);
    if LeaveHappens(dir, id, chan) {
      var k := FirstIndex(dir, ChanIs(chan));
      InvShrink(dir, k, id);
      InvRemove(dir, k);
    }
  }

  /** Non-global channels that no longer list id. */
  ghost predicate Clean(cs: Dir, id: int, global: seq<User>) {
    forall k :: 0 <= k < |cs| ==>
      cs[k].id != CHANNEL_ZERO && ChanOk(cs[k], global) && !Member(cs[k].users, id)
  }

  lemma TurnCleans(done: Dir, c: Chan, id: int, global: seq<User>)
    requires Clean(done, id, global) && c.id != CHANNEL_ZERO && ChanOk(c, global)
    ensures Clean(Turned(done, c, id), id, global)
  {
    WithoutKeeps(c.users, id);
    WithoutDistinct(c.users, id);
    var c' := c.(users := Without(c.users, id));
    assert Clean(done + [c'], id, global);
  }

  lemma InvTail(dir: Dir)
    requires Inv(dir) && 1 < |dir|
    ensures Inv(dir[1..]) && Global(dir[1..]) == Global(dir)
  {
    assert dir[1..] == RemoveAt(dir, 0);
    InvRemove(dir, 0);
  }

  lemma {:induction false} LoopCleans(done: Dir, rest: Dir, id: int)
    requires Inv(rest) && Clean(done, id, Global(rest))
    ensures var r := LogoutLoop(done, rest, id);
            && r != [] && Last(r) == Last(rest)
            && Clean(r[..|r| - 1], id, Global(rest))
    decreases rest
  {
    if |rest| == 1 {
      assert LogoutLoop(done, rest, id) == done + [rest[0]];
      assert (done + [rest[0]])[..|done|] == done;
    } else {
      assert ChanOk(rest[0], Global(rest));
      TurnCleans(done, rest[0], id, Global(rest));
      InvTail(rest);
      LoopCleans(Turned(done, rest[0], id), rest[1..], id);
    }
  }

  lemma InvForget(front: Dir, global: Chan, id: int)
    requires Clean(front, id, global.users) && global.id == CHANNEL_ZERO && DistinctIds(global.users)
    requires global.users != [] && Last(global.users) == ROOT && id != ROOT_ID
    ensures Inv(front + [global.(users := Without(global.users, id))])
  {
    WithoutKeeps(global.users, id);
    WithoutDistinct(global.users, id);
    forall k | 0 <= k < |front|
      ensures ChanOk(front[k], Without(global.users, id))
    {
      MemberIff(front[k].users, id);
    }
  }

  lemma {:induction false} InvLogout(dir: Dir, id: int)
    requires Inv(dir) && 1 <= id
    ensures Inv(Logout(dir, id).0)
    ensures !Member(Global(Logout(dir, id).0), id)
  {
    LoopCleans([], dir, id);
    var r := LogoutLoop([], dir, id);
    var front, global := r[..|r| - 1], Last(dir);
    assert ChanOk(global, global.users);
    InvForget(front, global, id);
    WithoutDistinct(global.users, id);
    assert Logout(dir, id).0 == front + [global.(users := Without(global.users, id))];
  }

  lemma {:induction false} InvStep(dir: Dir, e: Event)
    requires Inv(dir) && Orderly(dir, e)
    ensures Inv(Step(dir, e))
  {
    match e
    case Accept(fd, name) => InvLogin(dir, fd, name);
    case CreateChannel(from, query) =>
      if MayCreate(dir, from, query) {
        InvCreate(dir, from, query);
      }
    case JoinChannel(from, chan) => InvJoin(dir, from, chan);
    case LeaveChannel(from, chan) => InvLeave(dir, from, chan);
    case LogoutRequest(from) => InvLogout(dir, from);
    case _ =>
  }
}
