/**
 What each request does, told from outside: command numbers as they travel (cpt_api/include/
 cpt_types.h), users and channels by position, reply codes as numbers.
 */
module Requests {
  import opened Wrappers
  import opened Seqs
  import opened Users
  import opened FilterLaws
  import opened Directory
  import opened DirectoryLaws
  import opened LogoutLaws
  import opened LogoutSilence
  import opened DirectoryRuns

  // ---- By position ----

  /** Channel k is the newest live one with this id. */
  predicate NewestLive(dir: Dir, chan: int, k: int) {
    0 <= k < |dir| && dir[k].id == chan && forall j :: 0 <= j < k ==> dir[j].id != chan
  }

  predicate NotLive(dir: Dir, chan: int) {
    forall j :: 0 <= j < |dir| ==> dir[j].id != chan
  }

  /** User i is the first listed under this id. */
  predicate FirstListed(us: seq<User>, id: int, i: int) {
    0 <= i < |us| && us[i].id == id && forall j :: 0 <= j < i ==> us[j].id != id
  }

  predicate NotListed(us: seq<User>, id: int) {
    forall j :: 0 <= j < |us| ==> us[j].id != id
  }

  lemma FindsNewest(dir: Dir, chan: int)
    ensures forall k :: NewestLive(dir, chan, k) ==> FirstIndex(dir, ChanIs(chan)) == k
    ensures NotLive(dir, chan) <==> FirstIndex(dir, ChanIs(chan)) == |dir|
    ensures !NotLive(dir, chan) ==> NewestLive(dir, chan, FirstIndex(dir, ChanIs(chan)))
  {
    forall k | NewestLive(dir, chan, k)
      ensures FirstIndex(dir, ChanIs(chan)) == k
    {
      FirstIndexIs(dir, ChanIs(chan), k);
    }
    assert forall j :: 0 <= j < |dir| ==> ChanIs(chan)(dir[j]) == (dir[j].id == chan);
  }

  lemma FindsFirst(us: seq<User>, id: int)
    ensures forall i :: FirstListed(us, id, i) ==> FirstIndex(us, HasId(id)) == i
    ensures NotListed(us, id) <==> !Member(us, id)
    ensures !NotListed(us, id) ==> FirstListed(us, id, FirstIndex(us, HasId(id)))
  {
    forall i | FirstListed(us, id, i)
      ensures FirstIndex(us, HasId(id)) == i
    {
      FirstIndexIs(us, HasId(id), i);
    }
    assert forall j :: 0 <= j < |us| ==> HasId(id)(us[j]) == (us[j].id == id);
  }

  // ---- Login ----

  /** A login puts a user with the descriptor's last eight bits and its very name - or "anonymous" -
      in front of the global list and changes nothing else. It is refused, changing nothing, exactly
      when the name has more than 12 characters or the global list is empty. */
  lemma LoginEffect(dir: Dir, fd: int, name: Option<string>)
    requires dir != []
    ensures var last, r := dir[|dir| - 1], Step(dir, Accept(fd, name));
            if (name.Some? && |name.value| > 12) || last.users == [] then r == dir && !Login(dir, fd, name).1
            else
              && Login(dir, fd, name).1
              && r == dir[..|dir| - 1]
                      + [Chan(last.id, [User(fd % 256, if name.Some? then name.value else "anonymous")] + last.users)]
  {
    assert |DEFAULT_USERNAME| == 9;
  }

  // ---- Command 5, JOIN_CHANNEL ----

  /** A listed user who is not in the channel is put in front of it, with its record in the global
      list; nothing else changes. */
  lemma JoinEffect(dir: Dir, from: int, chan: U16, query: Option<seq<U16>>, k: int, i: int)
    requires dir != [] && NewestLive(dir, chan, k)
    requires NotListed(dir[k].users, from) && FirstListed(dir[|dir| - 1].users, from, i)
    ensures Step(dir, Request(from, 5, chan, query))
            == dir[..k] + [Chan(chan, [dir[|dir| - 1].users[i]] + dir[k].users)] + dir[k + 1..]
  {
    FindsNewest(dir, chan);
    FindsFirst(dir[k].users, from);
    FindsFirst(Global(dir), from);
  }

  /** Otherwise a join changes nothing. */
  lemma JoinIdle(dir: Dir, from: int, chan: U16, query: Option<seq<U16>>)
    requires dir != []
    requires NotLive(dir, chan)
             || (exists k :: NewestLive(dir, chan, k) && !NotListed(dir[k].users, from))
             || NotListed(dir[|dir| - 1].users, from)
    ensures Step(dir, Request(from, 5, chan, query)) == dir
  {
    FindsNewest(dir, chan);
    FindsFirst(Global(dir), from);
    if k :| NewestLive(dir, chan, k) && !NotListed(dir[k].users, from) {
      FindsFirst(dir[k].users, from);
    }
  }

  // ---- Command 6, LEAVE_CHANNEL ----

  /** A member is taken off the channel, the others keep their order; if it was alone the channel
      goes. Nothing else changes. */
  lemma LeaveRequestEffect(dir: Dir, from: int, chan: U16, query: Option<seq<U16>>, k: int, i: int)
    requires chan != 0 && NewestLive(dir, chan, k) && FirstListed(dir[k].users, from, i)
    ensures var us := dir[k].users;
            Step(dir, Request(from, 6, chan, query))
            == dir[..k] + (if |us| == 1 then [] else [Chan(chan, us[..i] + us[i + 1..])]) + dir[k + 1..]
  {
    FindsNewest(dir, chan);
    FindsFirst(dir[k].users, from);
    LeaveEffect(dir, from, chan);
  }

  lemma LeaveIdle(dir: Dir, from: int, chan: U16, query: Option<seq<U16>>)
    requires chan == 0 || NotLive(dir, chan) || exists k :: NewestLive(dir, chan, k) && NotListed(dir[k].users, from)
    ensures Step(dir, Request(from, 6, chan, query)) == dir
  {
    FindsNewest(dir, chan);
    LeaveEffect(dir, from, chan);
    if k :| NewestLive(dir, chan, k) && NotListed(dir[k].users, from) {
      FindsFirst(dir[k].users, from);
    }
  }

  // ---- Command 4, CREATE_CHANNEL ----

  /** When no id is asked for, or nobody is found: a channel in front whose only user is the
      requester, with its record in the global list, and whose id is the old number of channels. */
  lemma CreateAlone(dir: Dir, from: int, chan: U16, query: Option<seq<U16>>, i: int)
    requires dir != [] && FirstListed(dir[|dir| - 1].users, from, i)
    requires query.None? || query.value == []
             || (Filterable(|dir[|dir| - 1].users|, |query.value|) && Filtered(dir[|dir| - 1].users, query.value) == [])
    ensures Step(dir, Request(from, 4, chan, query)) == [Chan(|dir| % 65536, [dir[|dir| - 1].users[i]])] + dir
  {
    FindsFirst(Global(dir), from);
  }

  /** Otherwise its users are the ones that filter finds, the requester among them or not. */
  lemma CreateInvited(dir: Dir, from: int, chan: U16, q: seq<U16>)
    requires dir != [] && Filterable(|dir[|dir| - 1].users|, |q|) && Filtered(dir[|dir| - 1].users, q) != []
    ensures Step(dir, Request(from, 4, chan, Some(q)))
            == [Chan(|dir| % 65536, Filtered(dir[|dir| - 1].users, q))] + dir
  {
  }

  /** A requester who is not listed creates nothing of its own. */
  lemma CreateIdle(dir: Dir, from: int, chan: U16, query: Option<seq<U16>>)
    requires dir != [] && NotListed(dir[|dir| - 1].users, from) && (query.None? || query.value == [])
    ensures Step(dir, Request(from, 4, chan, query)) == dir
  {
    FindsFirst(Global(dir), from);
  }

  /** A listed user who creates a channel without asking for anybody, and leaves it, restores the
      directory - but for the channel with id 0 that the 65536th create makes. */
  lemma CreateThenLeave(dir: Dir, from: int, chan: U16, query: Option<seq<U16>>, i: int)
    requires dir != [] && FirstListed(dir[|dir| - 1].users, from, i)
    requires (query.None? || query.value == []) && |dir| % 65536 != 0
    ensures Step(Step(dir, Request(from, 4, chan, query)), Request(from, 6, |dir| % 65536, None)) == dir
  {
    CreateAlone(dir, from, chan, query, i);
    var user := dir[|dir| - 1].users[i];
    var created := [Chan(|dir| % 65536, [user])] + dir;
    LeaveRequestEffect(created, from, |dir| % 65536, None, 0, 0);
    assert created[..0] + [] + created[1..] == dir;
  }

  // ---- Command 2, LOGOUT ----

  lemma WithoutExactly(us: seq<User>, id: int)
    requires DistinctIds(us)
    ensures forall u :: u in Without(us, id) <==> u in us && u.id != id
  {
    WithoutKeeps(us, id);
    WithoutDistinct(us, id);
    MemberIff(Without(us, id), id);
  }

  /** Nobody lists the id any more, and nobody else leaves the global channel. */
  lemma LogoutEffect(dir: Dir, from: int, chan: U16, query: Option<seq<U16>>)
    requires Inv(dir) && 1 <= from
    ensures var r := Step(dir, Request(from, 2, chan, query));
            && r != [] && (forall k :: 0 <= k < |r| ==> NotListed(r[k].users, from))
            && forall u :: u in r[|r| - 1].users <==> u in dir[|dir| - 1].users && u.id != from
  {
    var r := Logout(dir, from).0;
    assert Step(dir, Request(from, 2, chan, query)) == r;
    InvLogout(dir, from);
    LoopKeepsGlobal([], dir, from);
    assert ChanOk(Last(dir), Global(dir));
    WithoutExactly(Global(dir), from);
    forall k | 0 <= k < |r|
      ensures NotListed(r[k].users, from)
    {
      ListedGlobally(r, k, from);
    }
  }

  lemma ListedGlobally(dir: Dir, k: nat, id: int)
    requires Inv(dir) && k < |dir| && !Member(Global(dir), id)
    ensures NotListed(dir[k].users, id)
  {
    assert ChanOk(dir[k], Global(dir));
    MemberIff(Global(dir), id);
    assert forall j :: 0 <= j < |dir[k].users| ==> dir[k].users[j] in dir[k].users;
  }

  /** With unique ids, channel by channel: each keeps its other members in order, and goes when it has
      no others. */
  lemma LogoutEffectOn(dir: Dir, from: int, chan: U16, query: Option<seq<U16>>)
    requires dir != [] && dir[|dir| - 1].id == 0 && UniqueIds(dir)
    ensures forall k, i :: 0 <= k < |dir| && FirstListed(dir[k].users, from, i) && (|dir[k].users| > 1 || dir[k].id == 0) ==>
              Chan(dir[k].id, dir[k].users[..i] + dir[k].users[i + 1..]) in Step(dir, Request(from, 2, chan, query))
    ensures forall k :: 0 <= k < |dir| && NotListed(dir[k].users, from) && dir[k].users != [] ==>
              dir[k] in Step(dir, Request(from, 2, chan, query))
    ensures forall k, i :: 0 <= k < |dir| && FirstListed(dir[k].users, from, i) && |dir[k].users| == 1 && dir[k].id != 0 ==>
              NotLive(Step(dir, Request(from, 2, chan, query)), dir[k].id)
    ensures forall c :: c in Step(dir, Request(from, 2, chan, query)) ==> exists k :: 0 <= k < |dir| && c.id == dir[k].id
  {
    var r := Step(dir, Request(from, 2, chan, query));
    LogoutChannels(dir, from);
    forall k, i | 0 <= k < |dir| && FirstListed(dir[k].users, from, i) && (|dir[k].users| > 1 || dir[k].id == 0)
      ensures Chan(dir[k].id, dir[k].users[..i] + dir[k].users[i + 1..]) in r
    {
      FindsFirst(dir[k].users, from);
      assert !Emptied(dir[k], from);
      assert Departed(dir[k], from) == Chan(dir[k].id, dir[k].users[..i] + dir[k].users[i + 1..]);
    }
    forall k, i | 0 <= k < |dir| && FirstListed(dir[k].users, from, i) && |dir[k].users| == 1 && dir[k].id != 0
      ensures NotLive(r, dir[k].id)
    {
      FindsFirst(dir[k].users, from);
      assert Emptied(dir[k], from);
      assert forall j :: 0 <= j < |r| ==> r[j] in r;
    }
    forall k | 0 <= k < |dir| && NotListed(dir[k].users, from) && dir[k].users != []
      ensures dir[k] in r
    {
      FindsFirst(dir[k].users, from);
      assert Departed(dir[k], from) == dir[k];
    }
  }

  // ---- Commands 1, SEND, and 3, GET_USERS, and all others ----

  /** SEND reaches the listed users of the newest live channel but for the sender and root, and
      changes nothing. */
  lemma SendEffect(dir: Dir, from: int, chan: U16, query: Option<seq<U16>>)
    ensures Step(dir, Request(from, 1, chan, query)) == dir
    ensures NotLive(dir, chan) ==> Sent(dir, Request(from, 1, chan, query)) == []
    ensures forall k, y :: NewestLive(dir, chan, k) ==>
              (y in Sent(dir, Request(from, 1, chan, query)) <==> y != 0 && y != from && !NotListed(dir[k].users, y))
  {
    FindsNewest(dir, chan);
    forall k, y: U16 | NewestLive(dir, chan, k)
      ensures y in Sent(dir, Request(from, 1, chan, query)) <==> y != 0 && y != from && !NotListed(dir[k].users, y)
    {
      ReceiversAre(dir[k].users, from);
      FindsFirst(dir[k].users, y);
    }
  }

  /** It goes to them in list order: to user m after as many writes as the users before m call for. */
  lemma {:induction false} SendInOrder(us: seq<User>, from: int, m: nat)
    requires m < |us| && us[m].id != 0 && us[m].id != from
    ensures var n := |Receivers(us[..m], from)|;
            n < |Receivers(us, from)| && Receivers(us, from)[n] == us[m].id
  {
    if m > 0 {
      SendInOrder(us[1..], from, m - 1);
      assert us[..m][1..] == us[1..][..m - 1];
    }
  }

  /** No other command sends anything, and one that is not dispatched changes nothing. */
  lemma OtherEffect(dir: Dir, from: int, command: int, chan: U16, query: Option<seq<U16>>)
    ensures command != 1 ==> Sent(dir, Request(from, command, chan, query)) == []
    ensures command == 3 || command < 1 || command > 6 ==> Step(dir, Request(from, command, chan, query)) == dir
    ensures command == 1 || command == 5 || command < 1 || command > 6 ==> !Faults(dir, Request(from, command, chan, query))
  {
  }

  /** GET_USERS names the users of the newest live channel in list order, with code 1, or nobody with
      code 17; it follows a null pointer exactly when that channel is live and lists nobody. */
  lemma GetUsersEffect(dir: Dir, from: int, chan: U16, query: Option<seq<U16>>)
    requires dir != []
    ensures NotLive(dir, chan) ==> Listing(dir, chan) == ([], 17) && !Faults(dir, Request(from, 3, chan, query))
    ensures forall k :: NewestLive(dir, chan, k) ==>
              && Listing(dir, chan) == (dir[k].users, 1)
              && (Faults(dir, Request(from, 3, chan, query)) <==> dir[k].users == [])
  {
    FindsNewest(dir, chan);
  }

  // ---- Reply codes ----

  /** A join succeeds (1) exactly when the user is then in the live channel, else it fails (22). */
  lemma JoinCode(dir: Dir, from: int, chan: U16)
    requires dir != []
    ensures NotLive(dir, chan) ==> Join(dir, from, chan).1 == 22
    ensures forall k :: NewestLive(dir, chan, k) ==>
              Join(dir, from, chan).1
              == if !NotListed(dir[k].users, from) || !NotListed(dir[|dir| - 1].users, from) then 1 else 22
  {
    FindsNewest(dir, chan);
    FindsFirst(Global(dir), from);
    forall k | NewestLive(dir, chan, k)
      ensures Join(dir, from, chan).1
              == if !NotListed(dir[k].users, from) || !NotListed(dir[|dir| - 1].users, from) then 1 else 22
    {
      FindsFirst(dir[k].users, from);
    }
  }

  /** A leave of channel 0 is a bad channel (17); another one succeeds (1) exactly for a member of the
      live channel, and fails (22) otherwise. */
  lemma LeaveCode(dir: Dir, from: int, chan: U16)
    ensures chan == 0 ==> Leave(dir, from, chan).1 == 17
    ensures chan != 0 && NotLive(dir, chan) ==> Leave(dir, from, chan).1 == 22
    ensures forall k :: chan != 0 && NewestLive(dir, chan, k) ==>
              Leave(dir, from, chan).1 == if NotListed(dir[k].users, from) then 22 else 1
  {
    FindsNewest(dir, chan);
    forall k | NewestLive(dir, chan, k)
      ensures chan != 0 ==> Leave(dir, from, chan).1 == if NotListed(dir[k].users, from) then 22 else 1
    {
      FindsFirst(dir[k].users, from);
    }
  }

  /** A logout succeeds (1) exactly for a user in the global list, and fails (22) otherwise. */
  lemma LogoutCode(dir: Dir, from: int)
    requires dir != [] && dir[|dir| - 1].id == 0
    ensures Logout(dir, from).1 == if NotListed(dir[|dir| - 1].users, from) then 22 else 1
  {
    LoopKeepsGlobal([], dir, from);
    FindsFirst(Global(dir), from);
  }
}
