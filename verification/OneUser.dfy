/**
 The silence of one id after its logout, over runs in which the other ids may be stale, listed
 twice or cut to the same eight bits: only what happens to this id matters.
 */
module OneUser {
  import opened Wrappers
  import opened Seqs
  import opened Users
  import opened FilterLaws
  import opened Directory
  import opened DirectoryLaws
  import opened LogoutLaws
  import opened DirectoryRuns
  import opened LogoutSilence

  // ---- How often an id is listed ----

  function Listed(us: seq<User>, id: int): nat {
    if us == [] then 0 else (if us[0].id == id then 1 else 0) + Listed(us[1..], id)
  }

  lemma {:induction false} ListedAppend(a: seq<User>, b: seq<User>, id: int)
    ensures Listed(a + b, id) == Listed(a, id) + Listed(b, id)
  {
    if a == [] {
      assert a + b == b;
    } else {
      assert (a + b)[1..] == a[1..] + b;
      ListedAppend(a[1..], b, id);
    }
  }

  lemma {:induction false} MemberListed(us: seq<User>, id: int)
    ensures Member(us, id) <==> Listed(us, id) > 0
  {
    if us != [] {
      MemberListed(us[1..], id);
      MemberIff(us, id);
      MemberIff(us[1..], id);
    }
  }

  /** A deletion lowers the count of its own id, if that is listed, and no other. */
  lemma WithoutListed(us: seq<User>, from: int, id: int)
    ensures Listed(Without(us, from), id) == Listed(us, id) - if from == id && Member(us, id) then 1 else 0
  {
    var k := FirstIndex(us, HasId(from));
    if k < |us| {
      assert us == us[..k] + ([us[k]] + us[k + 1..]);
      ListedAppend(us[..k], [us[k]] + us[k + 1..], id);
      ListedAppend(us[..k], us[k + 1..], id);
      assert ([us[k]] + us[k + 1..])[1..] == us[k + 1..];
      assert HasId(from)(us[k]);
    }
  }

  // ---- What the filter finds of one id ----

  lemma ConsumeKeeps(q: seq<U16>, v: U16, id: U16)
    requires id != MAX_ID_NUM
    ensures Occurrences(Consume(q, v), id) == Occurrences(q, id) - if v == id && v in q then 1 else 0
  {
    var k := FirstIndex(q, IsId(v));
    if k < |q| {
      assert q[k] == v;
      assert multiset(q[k := MAX_ID_NUM]) == multiset(q) - multiset{v} + multiset{MAX_ID_NUM};
    } else {
      assert forall j :: 0 <= j < |q| ==> !IsId(v)(q[j]);
    }
  }

  /** Whatever the list: an id is found at most as often as it is asked for, and only if it is listed. */
  lemma {:induction false} FoundOfOne(us: seq<User>, c: Cursor, id: U16)
    requires id != MAX_ID_NUM
    ensures Listed(FilterFrom(us, c), id) <= Listed(c.acc, id) + Occurrences(c.q, id)
    ensures !Member(us, id) ==> Listed(FilterFrom(us, c), id) == Listed(c.acc, id)
    decreases |c.q| - c.pass, |us| - c.i
  {
    if c.pass < |c.q| && c.found != |c.q| && c.i < |us| {
      FoundOfOne(us, Advance(us, c), id);
      ConsumeKeeps(c.q, us[c.i].id, id);
      assert ([us[c.i]] + c.acc)[1..] == c.acc;
      MemberIff(us, id);
      assert us[c.i] in us;
    }
  }

  // ---- The invariant of one id ----

  ghost predicate Settled(dir: Dir, id: int) {
    && GlobalAlone(dir)
    && forall k :: 0 <= k < |dir| ==> ListedOnce(dir[k].users, Global(dir), id)
  }

  predicate ListedOnce(us: seq<User>, global: seq<User>, id: int) {
    Listed(us, id) <= 1 && (Listed(us, id) > 0 ==> Listed(global, id) > 0)
  }

  /** What the environment has to respect as far as this id goes. */
  ghost predicate Careful(dir: Dir, e: Event, id: U16) {
    match e
    case Accept(fd, _) => dir != [] && fd % 256 == id ==> !Member(Global(dir), id)
    case CreateChannel(_, query) => |dir| < 65536 && (query.Some? ==> Occurrences(query.value, id) <= 1)
    case _ => true
  }

  /** A login of an unlisted descriptor, and a create that asks for nobody, are careful with every id. */
  lemma OrderlyIsCareful(dir: Dir, e: Event, id: U16)
    requires Orderly(dir, e)
    requires e.CreateChannel? && e.query.Some? ==> e.query.value == []
    ensures Careful(dir, e, id)
  {
  }

  /** The id does not become listed but by a login of its own. */
  ghost predicate KeptFor(dir: Dir, dir': Dir, id: int)
    requires dir != []
  {
    Settled(dir', id) && Listed(Global(dir'), id) <= Listed(Global(dir), id)
  }

  lemma InvitedOnce(dir: Dir, from: int, query: Option<seq<U16>>, id: U16)
    requires dir != [] && MayCreate(dir, from, query) && id != MAX_ID_NUM
    requires query.Some? ==> Occurrences(query.value, id) <= 1
    ensures ListedOnce(Invited(dir, from, query), Global(dir), id)
  {
    var us := Global(dir);
    MemberListed(us, id);
    if query.Some? {
      FoundOfOne(us, Cursor(query.value, 0, 0, 0, []), id);
    }
    if query.None? || Filtered(us, query.value) == [] {
      var user := us[FirstIndex(us, HasId(from))];
      assert [user][1..] == [];
      MemberIff(us, id);
      assert user in us;
    }
  }

  lemma CreateKeeps(dir: Dir, from: int, query: Option<seq<U16>>, id: U16)
    requires Settled(dir, id) && MayCreate(dir, from, query) && id != MAX_ID_NUM
    requires Careful(dir, CreateChannel(from, query), id)
    ensures KeptFor(dir, Create(dir, from, query), id)
  {
    var r := Create(dir, from, query);
    InvitedOnce(dir, from, query, id);
    assert forall k :: 1 <= k < |r| ==> r[k] == dir[k - 1];
  }

  lemma LoginKeeps(dir: Dir, fd: int, name: Option<string>, id: U16)
    requires Settled(dir, id) && Careful(dir, Accept(fd, name), id)
    ensures Settled(Login(dir, fd, name).0, id)
    ensures fd % 256 != id ==> KeptFor(dir, Login(dir, fd, name).0, id)
  {
    var r := Login(dir, fd, name).0;
    if r != dir {
      MemberListed(Global(dir), id);
      assert Global(r)[1..] == Global(dir);
      assert forall k :: 0 <= k < |r| - 1 ==> r[k] == dir[k];
      assert ListedOnce(Last(dir).users, Global(dir), id);
    }
  }

  lemma {:induction false} JoinKeeps(dir: Dir, from: int, chan: U16, id: U16)
    requires Settled(dir, id)
    ensures KeptFor(dir, Join(dir, from, chan).0, id)
  {
    var r, k := Join(dir, from, chan).0, FirstIndex(dir, ChanIs(chan));
    if r != dir {
      MemberListed(dir[k].users, id);
      MemberListed(Global(dir), id);
      var user := Global(dir)[FirstIndex(Global(dir), HasId(from))];
      assert HasId(from)(user);
      assert k != |dir| - 1;
      assert ([user] + dir[k].users)[1..] == dir[k].users;
      assert forall m :: 0 <= m < |dir| && m != k ==> r[m] == dir[m];
      assert ListedOnce(dir[k].users, Global(dir), id);
    }
  }

  lemma RemoveKeeps(dir: Dir, k: nat, id: U16)
    requires Settled(dir, id) && k < |dir| - 1
    ensures KeptFor(dir, RemoveAt(dir, k), id)
  {
    var r := RemoveAt(dir, k);
    assert Last(r) == Last(dir);
    forall m | 0 <= m < |r|
      ensures ListedOnce(r[m].users, Global(dir), id) && (m < |r| - 1 ==> r[m].id != CHANNEL_ZERO)
    {
      var j := if m < k then m else m + 1;
      assert r[m] == dir[j] && ListedOnce(dir[j].users, Global(dir), id);
    }
  }

  lemma ShrinkKeeps(dir: Dir, k: nat, from: int, id: U16)
    requires Settled(dir, id) && k < |dir| - 1
    ensures KeptFor(dir, dir[k := dir[k].(users := Without(dir[k].users, from))], id)
  {
    WithoutListed(dir[k].users, from, id);
    assert ListedOnce(dir[k].users, Global(dir), id);
  }

  lemma LeaveKeeps(dir: Dir, from: int, chan: U16, id: U16)
    requires Settled(dir, id)
    ensures KeptFor(dir, Leave(dir, from, chan).0, id)
  {
    LeaveEffect(dir, from, chan);
    if LeaveHappens(dir, from, chan) {
      var k := FirstIndex(dir, ChanIs(chan));
      assert ChanIs(chan)(dir[k]) && k != |dir| - 1;
      RemoveKeeps(dir, k, id);
      ShrinkKeeps(dir, k, from, id);
    }
  }

  // ---- Logout ----

  /** A channel before the iterator: passed, and so without the user who logs out. */
  ghost predicate Passed(c: Chan, dir: Dir, from: int) {
    exists k :: 0 <= k < |dir| - 1 && c == Remaining(dir[k], from)
  }

  ghost predicate AllPassed(done: Dir, dir: Dir, from: int) {
    forall k :: 0 <= k < |done| ==> Passed(done[k], dir, from)
  }

  lemma TurnPassed(done: Dir, dir: Dir, from: int, k: nat)
    requires GlobalAlone(dir) && AllPassed(done, dir, from) && k < |dir| - 1
    ensures AllPassed(Turned(done, dir[k], from), dir, from)
  {
    RemoveFirstKeeps(done + [Remaining(dir[k], from)], ChanIs(dir[k].id));
    assert AllPassed(done + [Remaining(dir[k], from)], dir, from);
  }

  lemma {:induction false} LoopPasses(done: Dir, dir: Dir, k: nat, from: int)
    requires GlobalAlone(dir) && k < |dir| && AllPassed(done, dir, from)
    ensures var r := LogoutLoop(done, dir[k..], from);
            r != [] && Last(r) == Last(dir) && AllPassed(r[..|r| - 1], dir, from)
    decreases |dir| - k
  {
    assert dir[k..][0] == dir[k] && dir[k..][1..] == dir[k + 1..];
    if k == |dir| - 1 {
      assert LogoutLoop(done, dir[k..], from) == LogoutLoop(done + [dir[k]], [], from);
      assert (done + [dir[k]])[..|done|] == done;
    } else {
      TurnPassed(done, dir, from, k);
      LoopPasses(Turned(done, dir[k], from), dir, k + 1, from);
    }
  }

  /** After a logout every channel is an old one without the user. */
  lemma LogoutShrinks(dir: Dir, from: int)
    requires GlobalAlone(dir)
    ensures var r := Logout(dir, from).0;
            && r != [] && Last(r) == Departed(Last(dir), from)
            && AllPassed(r[..|r| - 1], dir, from)
  {
    LoopPasses([], dir, 0, from);
    assert dir[0..] == dir;
    var loop, r := LogoutLoop([], dir, from), Logout(dir, from).0;
    assert |dir| == 1 ==> dir[..0] == [] && dir[0].id == CHANNEL_ZERO;
    assert |dir| > 1 ==> r[..|r| - 1] == loop[..|loop| - 1];
  }

  lemma LogoutKeeps(dir: Dir, from: int, id: U16)
    requires Settled(dir, id)
    ensures KeptFor(dir, Logout(dir, from).0, id)
    ensures from == id ==> Listed(Global(Logout(dir, from).0), id) == 0
  {
    var r := Logout(dir, from).0;
    LogoutShrinks(dir, from);
    MemberListed(Global(dir), id);
    WithoutListed(Global(dir), from, id);
    assert ListedOnce(Last(dir).users, Global(dir), id);
    forall m | 0 <= m < |r| - 1
      ensures r[m].id != CHANNEL_ZERO && ListedOnce(r[m].users, Global(r), id)
    {
      assert r[..|r| - 1][m] == r[m] && Passed(r[m], dir, from);
      var k :| 0 <= k < |dir| - 1 && r[m] == Remaining(dir[k], from);
      assert ListedOnce(dir[k].users, Global(dir), id);
      WithoutListed(dir[k].users, from, id);
      MemberListed(dir[k].users, id);
    }
  }

  // ---- Runs ----

  lemma {:induction false} StepKeeps(dir: Dir, e: Event, id: U16)
    requires Settled(dir, id) && Careful(dir, e, id) && id != MAX_ID_NUM
    ensures Settled(Step(dir, e), id)
    ensures !(e.Accept? && e.fd % 256 == id) ==> KeptFor(dir, Step(dir, e), id)
  {
    match e
    case Accept(fd, name) => LoginKeeps(dir, fd, name, id);
    case CreateChannel(from, query) =>
      if MayCreate(dir, from, query) {
        CreateKeeps(dir, from, query, id);
      }
    case JoinChannel(from, chan) => JoinKeeps(dir, from, chan, id);
    case LeaveChannel(from, chan) => LeaveKeeps(dir, from, chan, id);
    case LogoutRequest(from) => LogoutKeeps(dir, from, id);
    case _ =>
  }

  ghost predicate CarefulRun(dir: Dir, es: seq<Event>, id: U16)
    decreases es
  {
    es == [] || (Careful(dir, es[0], id) && CarefulRun(Step(dir, es[0]), es[1..], id))
  }

  lemma {:induction false} RunKeeps(dir: Dir, es: seq<Event>, id: U16)
    requires Settled(dir, id) && CarefulRun(dir, es, id) && id != MAX_ID_NUM
    ensures Settled(After(dir, es), id)
    decreases es
  {
    if es != [] {
      StepKeeps(dir, es[0], id);
      RunKeeps(Step(dir, es[0]), es[1..], id);
    }
  }

  lemma UnlistedNotSent(dir: Dir, e: Event, id: U16)
    requires Settled(dir, id) && Listed(Global(dir), id) == 0
    ensures id !in Sent(dir, e)
  {
    if e.Send? {
      var k := FirstIndex(dir, ChanIs(e.chan));
      if k < |dir| {
        assert ListedOnce(dir[k].users, Global(dir), id);
        ReceiversAre(dir[k].users, e.from);
        MemberListed(dir[k].users, id);
      }
    }
  }

  ghost predicate NotAgain(es: seq<Event>, id: int) {
    forall k :: 0 <= k < |es| && es[k].Accept? ==> es[k].fd % 256 != id
  }

  lemma {:induction false} UnlistedIsSilent(dir: Dir, es: seq<Event>, id: U16)
    requires Settled(dir, id) && Listed(Global(dir), id) == 0 && id != MAX_ID_NUM
    requires CarefulRun(dir, es, id) && NotAgain(es, id)
    ensures id !in Reached(dir, es)
    decreases es
  {
    if es != [] {
      UnlistedNotSent(dir, es[0], id);
      StepKeeps(dir, es[0], id);
      UnlistedIsSilent(Step(dir, es[0]), es[1..], id);
    }
  }

  lemma SettledAtFirst(id: U16)
    requires id != ROOT_ID
    ensures Settled(INITIAL, id)
  {
    assert [ROOT][1..] == [] && Listed([ROOT], id) == 0;
    assert INITIAL[0].users == [ROOT];
  }

  /**
   Once a user has logged out, and until that id logs in again, no SEND on any channel reaches it -
   in every run that logs this id in only while it is not listed and never invites it twice at once,
   whatever happens to other ids.
   */
  lemma SilentAfterOwnLogout(before: seq<Event>, id: U16, after: seq<Event>)
    requires id != ROOT_ID && id != MAX_ID_NUM
    requires CarefulRun(INITIAL, before, id)
    requires CarefulRun(Step(After(INITIAL, before), LogoutRequest(id)), after, id) && NotAgain(after, id)
    ensures id !in Reached(Step(After(INITIAL, before), LogoutRequest(id)), after)
  {
    var dir := After(INITIAL, before);
    SettledAtFirst(id);
    RunKeeps(INITIAL, before, id);
    LogoutKeeps(dir, id, id);
    UnlistedIsSilent(Step(dir, LogoutRequest(id)), after, id);
  }
}
