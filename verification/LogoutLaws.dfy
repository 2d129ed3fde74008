/**
 The logout loop deletes nodes of the list it walks, and deletes them by channel id. These laws
 say exactly when that amounts to "remove the user everywhere, then drop the emptied channels",
 and exactly which requests make the server follow a null pointer.
 */
module LogoutLaws {
  import opened Wrappers
  import opened Seqs
  import opened Users
  import opened FilterLaws
  import opened Directory
  import opened DirectoryLaws

  /** The user's departure empties this non-global channel (or finds it empty). */
  predicate Emptied(c: Chan, id: int) {
    c.id != CHANNEL_ZERO && Without(c.users, id) == []
  }

  function Remaining(c: Chan, id: int): Chan {
    if c.id == CHANNEL_ZERO then c else c.(users := Without(c.users, id))
  }

  /** The intended effect: the user leaves every channel, emptied channels go, order is kept. */
  function Cleared(dir: Dir, id: int): Dir {
    if dir == [] then []
    else (if Emptied(dir[0], id) then [] else [Remaining(dir[0], id)]) + Cleared(dir[1..], id)
  }

  /** No surviving channel stands before an emptied one with the same id. */
  predicate LoopSafe(dir: Dir, id: int) {
    forall i, j :: 0 <= i < j < |dir| && Emptied(dir[j], id) && dir[i].id == dir[j].id ==> Emptied(dir[i], id)
  }

  ghost predicate Disjoint(done: Dir, rest: Dir, id: int) {
    forall i, j :: 0 <= i < |done| && 0 <= j < |rest| && Emptied(rest[j], id) ==> done[i].id != rest[j].id
  }

  lemma TurnOnEmptied(done: Dir, c: Chan, id: int)
    requires Emptied(c, id) && forall i :: 0 <= i < |done| ==> done[i].id != c.id
    ensures Turned(done, c, id) == done
  {
    var c' := c.(users := []);
    FirstIndexIs(done + [c'], ChanIs(c.id), |done|);
    assert (done + [c'])[..|done|] == done;
  }

  lemma SafeTail(done: Dir, rest: Dir, id: int)
    requires rest != [] && Disjoint(done, rest, id) && LoopSafe(rest, id)
    ensures LoopSafe(rest[1..], id) && Disjoint(done, rest[1..], id)
    ensures !Emptied(rest[0], id) ==> Disjoint(done + [Remaining(rest[0], id)], rest[1..], id)
  {
    var tail := rest[1..];
    assert forall j :: 0 <= j < |tail| ==> tail[j] == rest[j + 1];
    var done' := done + [Remaining(rest[0], id)];
    forall i, j | 0 <= i < |done'| && 0 <= j < |tail| && Emptied(tail[j], id) && !Emptied(rest[0], id)
      ensures done'[i].id != tail[j].id
    {
      assert tail[j] == rest[j + 1];
    }
  }

  lemma {:induction false} LoopRefines(done: Dir, rest: Dir, id: int)
    requires Disjoint(done, rest, id) && LoopSafe(rest, id)
    ensures LogoutLoop(done, rest, id) == done + Cleared(rest, id)
    decreases rest
  {
    if rest != [] {
      SafeTail(done, rest, id);
      if Emptied(rest[0], id) {
        TurnOnEmptied(done, rest[0], id);
        LoopRefines(done, rest[1..], id);
        assert Cleared(rest, id) == [] + Cleared(rest[1..], id);
      } else {
        LoopRefines(done + [Remaining(rest[0], id)], rest[1..], id);
        ClearedNext(done, rest, id);
      }
    }
  }

  lemma ClearedNext(done: Dir, rest: Dir, id: int)
    requires rest != [] && !Emptied(rest[0], id)
    ensures Turned(done, rest[0], id) == done + [Remaining(rest[0], id)]
    ensures (done + [Remaining(rest[0], id)]) + Cleared(rest[1..], id) == done + Cleared(rest, id)
  {
  }

  // ---- The converse ----

  /** An empty channel left behind. */
  ghost predicate Hollow(dir: Dir) {
    exists k :: 0 <= k < |dir| && dir[k].id != CHANNEL_ZERO && dir[k].users == []
  }

  lemma {:induction false} ClearedNotHollow(dir: Dir, id: int)
    ensures !Hollow(Cleared(dir, id))
  {
    if dir != [] {
      ClearedNotHollow(dir[1..], id);
      var now := if Emptied(dir[0], id) then [] else [Remaining(dir[0], id)];
      var r := now + Cleared(dir[1..], id);
      forall k | 0 <= k < |r| && r[k].id != CHANNEL_ZERO
        ensures r[k].users != []
      {
        if k >= |now| {
          assert r[k] == Cleared(dir[1..], id)[k - |now|];
        }
      }
    }
  }

  lemma TurnStaysHollow(done: Dir, c: Chan, id: int)
    requires Hollow(done)
    ensures Hollow(Turned(done, c, id))
  {
    var k :| 0 <= k < |done| && done[k].id != CHANNEL_ZERO && done[k].users == [];
    var c' := Remaining(c, id);
    var all := done + [c'];
    if Emptied(c, id) {
      var m := FirstIndex(all, ChanIs(c.id));
      var r := RemoveFirst(all, ChanIs(c.id));
      if m <= |done| - 1 {
        assert r[|r| - 1] == c';
      } else {
        assert all[k] == done[k] && r[k] == all[k];
      }
    } else {
      assert all[k] == done[k];
    }
  }

  lemma {:induction false} LoopStaysHollow(done: Dir, rest: Dir, id: int)
    requires Hollow(done)
    ensures Hollow(LogoutLoop(done, rest, id))
    decreases rest
  {
    if rest != [] {
      TurnStaysHollow(done, rest[0], id);
      LoopStaysHollow(Turned(done, rest[0], id), rest[1..], id);
    }
  }

  /** Deleting an earlier channel with the same id leaves the emptied one behind. */
  lemma TurnLeavesHollow(done: Dir, c: Chan, id: int, i: nat)
    requires Emptied(c, id) && i < |done| && done[i].id == c.id
    ensures Hollow(Turned(done, c, id))
  {
    var c' := c.(users := []);
    var r := RemoveFirst(done + [c'], ChanIs(c.id));
    assert ChanIs(c.id)((done + [c'])[i]);
    assert FirstIndex(done + [c'], ChanIs(c.id)) <= i;
    assert r[|r| - 1] == c';
  }

  lemma {:induction false} LoopDefect(done: Dir, rest: Dir, id: int)
    requires !Disjoint(done, rest, id) || !LoopSafe(rest, id)
    ensures Hollow(LogoutLoop(done, rest, id))
    decreases rest
  {
    var c, tail := rest[0], rest[1..];
    assert forall j :: 0 <= j < |tail| ==> tail[j] == rest[j + 1];
    if Emptied(c, id) && exists i :: 0 <= i < |done| && done[i].id == c.id {
      var i :| 0 <= i < |done| && done[i].id == c.id;
      TurnLeavesHollow(done, c, id, i);
      LoopStaysHollow(Turned(done, c, id), tail, id);
    } else if Emptied(c, id) {
      TurnOnEmptied(done, c, id);
      assert !Disjoint(done, tail, id) || !LoopSafe(tail, id) by {
        if !Disjoint(done, rest, id) {
          var i, j :| 0 <= i < |done| && 0 <= j < |rest| && Emptied(rest[j], id) && done[i].id == rest[j].id;
          assert tail[j - 1] == rest[j];
        } else {
          var i, j :| 0 <= i < j < |rest| && Emptied(rest[j], id) && rest[i].id == rest[j].id && !Emptied(rest[i], id);
          assert tail[i - 1] == rest[i] && tail[j - 1] == rest[j];
        }
      }
      LoopDefect(done, tail, id);
    } else {
      var done' := done + [Remaining(c, id)];
      DefectMovesOn(done, rest, id, done');
      LoopDefect(done', tail, id);
    }
  }

  lemma DefectMovesOn(done: Dir, rest: Dir, id: int, done': Dir)
    requires rest != [] && !Emptied(rest[0], id)
    requires !Disjoint(done, rest, id) || !LoopSafe(rest, id)
    requires |done'| == |done| + 1 && done'[..|done|] == done && Last(done').id == rest[0].id
    ensures !Disjoint(done', rest[1..], id) || !LoopSafe(rest[1..], id)
  {
    var tail := rest[1..];
    if !Disjoint(done, rest, id) {
      var i, j :| 0 <= i < |done| && 0 <= j < |rest| && Emptied(rest[j], id) && done[i].id == rest[j].id;
      assert done'[i] == done[i] && tail[j - 1] == rest[j];
    } else {
      var i, j :| 0 <= i < j < |rest| && Emptied(rest[j], id) && rest[i].id == rest[j].id && !Emptied(rest[i], id);
      assert tail[j - 1] == rest[j];
      if i == 0 {
        assert done'[|done|].id == tail[j - 1].id;
      } else {
        assert tail[i - 1] == rest[i];
      }
    }
  }

  // ---- Where the server follows a null pointer ----

  /** Nobody is listed, or only somebody else: delete_node follows a null pointer. */
  predicate Stranded(us: seq<User>, id: int) {
    us == [] || (|us| == 1 && us[0].id != id)
  }

  predicate StrandedIn(dir: Dir, id: int) {
    exists k :: 0 <= k < |dir| && dir[k].id != CHANNEL_ZERO && Stranded(dir[k].users, id)
  }

  lemma {:induction false} LoopFaultsIff(dir: Dir, id: int)
    ensures LoopFaults(dir, id) <==> StrandedIn(dir, id)
  {
    if dir != [] {
      LoopFaultsIff(dir[1..], id);
      assert forall k :: 1 <= k < |dir| ==> dir[k] == dir[1..][k - 1];
    }
  }

  lemma {:induction false} LoopKeepsGlobal(done: Dir, rest: Dir, id: int)
    requires rest != [] && Last(rest).id == CHANNEL_ZERO
    ensures LogoutLoop(done, rest, id) != [] && Last(LogoutLoop(done, rest, id)) == Last(rest)
    decreases rest
  {
    if |rest| == 1 {
      assert LogoutLoop(done, rest, id) == LogoutLoop(done + [rest[0]], [], id);
    } else {
      LoopKeepsGlobal(Turned(done, rest[0], id), rest[1..], id);
    }
  }

  /** A logout follows a null pointer exactly when some channel, the global one included, lists nobody
      or one user who is somebody else. */
  lemma LogoutFaultsIff(dir: Dir, id: int)
    requires dir != [] && Last(dir).id == CHANNEL_ZERO
    ensures LogoutFaults(dir, id) <==> StrandedIn(dir, id) || Stranded(Global(dir), id)
  {
    LoopFaultsIff(dir, id);
    LoopKeepsGlobal([], dir, id);
  }

  /** Exactly the events on which the server follows a null pointer, over every directory; for create
      see CreateFaultsIff. */
  lemma FaultsIff(dir: Dir, e: Event)
    requires dir != [] && Last(dir).id == CHANNEL_ZERO && !e.CreateChannel?
    ensures Faults(dir, e) <==>
            || (e.LeaveChannel? && e.chan != CHANNEL_ZERO
                && exists k :: 0 <= k < |dir| && dir[k].id == e.chan && Stranded(dir[k].users, e.from)
                               && forall j :: 0 <= j < k ==> dir[j].id != e.chan)
            || (e.LogoutRequest? && (StrandedIn(dir, e.from) || Stranded(Global(dir), e.from)))
            || (e.GetUsers?
                && exists k :: 0 <= k < |dir| && dir[k].id == e.chan && dir[k].users == []
                               && forall j :: 0 <= j < k ==> dir[j].id != e.chan)
  {
    if e.LogoutRequest? {
      LogoutFaultsIff(dir, e.from);
    }
    if e.LeaveChannel? || e.GetUsers? {
      assert forall j :: 0 <= j < |dir| ==> ChanIs(e.chan)(dir[j]) == (dir[j].id == e.chan);
    }
  }

  /** A create follows a null pointer exactly when only root is listed and several ids are asked for,
      or when nobody is found for the new channel and the requester is not listed. */
  lemma CreateFaultsIff(dir: Dir, from: int, query: Option<seq<U16>>)
    requires Inv(dir)
    ensures Faults(dir, CreateChannel(from, query)) <==>
            || (query.Some? && |Global(dir)| == 1 && |query.value| > 1)
            || (!Member(Global(dir), from) && (query.Some? ==> forall u :: u in Global(dir) ==> u.id !in query.value))
  {
    var us := Global(dir);
    assert ChanOk(Last(dir), us);
    if query.Some? && |us| > 1 {
      FilterNullIff(us, query.value);
    } else if query.Some? && |query.value| <= 1 {
      FilterOnly(us, query.value);
    }
  }

  /** The filter of a list of one user, for at most one id. */
  lemma FilterOnly(us: seq<User>, q: seq<U16>)
    requires |us| == 1 && |q| <= 1
    ensures Filtered(us, q) == [] <==> us[0].id !in q
  {
    var c := Cursor(q, 0, 0, 0, []);
    if q != [] {
      var d := Advance(us, c);
      assert d.pass == 1 && FilterFrom(us, c) == FilterFrom(us, d) == d.acc;
    }
  }

  /** The loop comes to its end with the intended effect exactly when no survivor shares an id with
      a later emptied channel, and no channel is stranded. */
  lemma LogoutLoopCorrectIff(dir: Dir, id: int)
    ensures LoopOutcome(dir, id) == Some(Cleared(dir, id)) <==> LoopSafe(dir, id) && !StrandedIn(dir, id)
    ensures LogoutLoop([], dir, id) == Cleared(dir, id) <==> LoopSafe(dir, id)
    ensures Hollow(LogoutLoop([], dir, id)) <==> !LoopSafe(dir, id)
  {
    LoopFaultsIff(dir, id);
    ClearedNotHollow(dir, id);
    if LoopSafe(dir, id) {
      LoopRefines([], dir, id);
      assert [] + Cleared(dir, id) == Cleared(dir, id);
    } else {
      LoopDefect([], dir, id);
    }
  }

  ghost predicate UniqueIds(dir: Dir) {
    forall i, j :: 0 <= i < j < |dir| ==> dir[i].id != dir[j].id
  }

  /** With unique channel ids logout is the intended map-then-filter, followed by leaving the global
      channel, exactly where no channel is stranded. */
  lemma LogoutWithUniqueIds(dir: Dir, id: int)
    requires dir != [] && Last(dir).id == CHANNEL_ZERO && UniqueIds(dir)
    ensures Cleared(dir, id) != []
    ensures Logout(dir, id).0 == WithGlobal(Cleared(dir, id), Without(Global(dir), id))
    ensures LogoutOutcome(dir, id) == Some(WithGlobal(Cleared(dir, id), Without(Global(dir), id))) <==>
            !StrandedIn(dir, id) && !Stranded(Global(dir), id)
  {
    LogoutLoopCorrectIff(dir, id);
    LogoutFaultsIff(dir, id);
    LoopKeepsGlobal([], dir, id);
  }

  // ---- Empty channels ----

  lemma {:induction false} HollowStepIff(dir: Dir, e: Event)
    requires Inv(dir) && Orderly(dir, e) && !Hollow(dir)
    ensures Hollow(Step(dir, e)) <==> e.LogoutRequest? && !LoopSafe(dir, e.from)
  {
    match e
    case Accept(fd, name) => HollowInFront(dir, Last(Login(dir, fd, name).0));
    case CreateChannel(from, query) => CreateNotHollow(dir, from, query);
    case JoinChannel(from, chan) => JoinNotHollow(dir, from, chan);
    case LeaveChannel(from, chan) => LeaveNotHollow(dir, from, chan);
    case LogoutRequest(from) => LogoutHollowIff(dir, from);
    case _ =>
  }

  /** Where no channel is empty, an event without a fault leaves one empty exactly when it is a logout
      in the failing case. */
  lemma {:induction false} NoEmptyStep(dir: Dir, e: Event)
    requires Inv(dir) && Orderly(dir, e) && !Hollow(dir)
    ensures Hollow(Step(dir, e)) <==> e.LogoutRequest? && !LoopSafe(dir, e.from)
    ensures (Outcome(dir, e).Some? && Hollow(Outcome(dir, e).value)) <==>
            e.LogoutRequest? && !LoopSafe(dir, e.from)
            && !StrandedIn(dir, e.from) && !Stranded(Global(dir), e.from)
  {
    HollowStepIff(dir, e);
    if e.LogoutRequest? {
      LogoutFaultsIff(dir, e.from);
    }
  }

  lemma CreateNotHollow(dir: Dir, from: int, query: Option<seq<U16>>)
    requires Inv(dir) && Orderly(dir, CreateChannel(from, query)) && !Hollow(dir)
    ensures !Hollow(Step(dir, CreateChannel(from, query)))
  {
    if MayCreate(dir, from, query) {
      InvitedOk(dir, from, query);
      PushNotHollow(Chan(|dir| % 65536, Invited(dir, from, query)), dir);
    }
  }

  lemma PushNotHollow(c: Chan, dir: Dir)
    requires c.users != [] && !Hollow(dir)
    ensures !Hollow([c] + dir)
  {
    var r := [c] + dir;
    assert forall k :: 1 <= k < |r| ==> r[k] == dir[k - 1];
  }

  lemma JoinNotHollow(dir: Dir, id: int, chan: U16)
    requires dir != [] && !Hollow(dir)
    ensures !Hollow(Join(dir, id, chan).0)
  {
  }

  lemma LeaveNotHollow(dir: Dir, id: int, chan: U16)
    requires !Hollow(dir)
    ensures !Hollow(Leave(dir, id, chan).0)
  {
    LeaveEffect(dir, id, chan);
  }

  lemma HollowInFront(dir: Dir, last: Chan)
    requires dir != [] && Last(dir).id == CHANNEL_ZERO && last.id == CHANNEL_ZERO
    ensures Hollow(dir[|dir| - 1 := last]) <==> Hollow(dir)
  {
    var dir' := dir[|dir| - 1 := last];
    assert forall k :: 0 <= k < |dir| && dir[k].id != CHANNEL_ZERO ==> dir'[k] == dir[k];
    assert forall k :: 0 <= k < |dir'| && dir'[k].id != CHANNEL_ZERO ==> dir'[k] == dir[k];
  }

  lemma LogoutHollowIff(dir: Dir, id: int)
    requires Inv(dir) && 1 <= id
    ensures Hollow(Logout(dir, id).0) <==> !LoopSafe(dir, id)
  {
    LogoutLoopCorrectIff(dir, id);
    LoopCleans([], dir, id);
    var r := LogoutLoop([], dir, id);
    assert |dir| == 1 ==> r == dir;
    HollowInFront(r, Last(r).(users := Without(Global(r), id)));
  }
}
