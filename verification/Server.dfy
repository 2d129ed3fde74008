/**
 The server's data structures on the heap: the directory is a linked list of channels, each
 with its own linked list of users, and `gc` shares its user list with the last channel of
 the directory. Each handler is proved against its meaning in module Directory.
 */
module Server {
  import opened Wrappers
  import opened Seqs
  import opened LinkedLists
  import opened Users
  import opened Directory
  import Commands

  /** A node of the directory holds a copy of this record; the copy keeps the user list. */
  datatype Channel = Channel(id: U16, users: LinkedList<User>)

  function ChannelIs(id: int): Channel -> bool {
    (c: Channel) => c.id == id
  }

  /** The user list of the channel at position k. */
  ghost function UsersAt(ns: seq<Node<Channel>>, k: nat): LinkedList<User>
    requires k < |ns|
  {
    ns[k].data.users
  }

  /** No two channels share a user list. */
  ghost predicate Unshared(ns: seq<Node<Channel>>) {
    forall j, k :: 0 <= j < k < |ns| ==> UsersAt(ns, j) != UsersAt(ns, k)
  }

  lemma UnsharedRemove(ns: seq<Node<Channel>>, k: nat)
    requires k < |ns| && Unshared(ns)
    ensures Unshared(RemoveAt(ns, k))
  {
    var ms := RemoveAt(ns, k);
    forall i, j | 0 <= i < j < |ms|
      ensures UsersAt(ms, i) != UsersAt(ms, j)
    {
      var i', j' := if i < k then i else i + 1, if j < k then j else j + 1;
      assert UsersAt(ms, i) == UsersAt(ns, i') && UsersAt(ms, j) == UsersAt(ns, j');
    }
  }

  ghost predicate Within<T>(ns: seq<Node<T>>, r: set<object>) {
    forall i :: 0 <= i < |ns| ==> ns[i] in r
  }

  lemma WithinRemove<T>(ns: seq<Node<T>>, r: set<object>)
    requires Within(ns, r)
    ensures forall k {:trigger RemoveAt(ns, k)} :: 0 <= k < |ns| ==> Within(RemoveAt(ns, k), r)
  {
  }

  lemma WithinPush<T>(n: Node<T>, ns: seq<Node<T>>, r: set<object>)
    requires n in r && Within(ns, r)
    ensures Within([n] + ns, r)
  {
  }

  ghost function ObjectsOf<T>(l: LinkedList<T>, ns: seq<Node<T>>): (r: set<object>)
    ensures l in r && Within(ns, r)
    ensures forall o :: o in r ==> o == l || OneOf(o, ns)
  {
    if ns == [] then {l} else ObjectsOf(l, ns[1..]) + {ns[0]}
  }

  ghost predicate OneOf<T>(o: object, ns: seq<Node<T>>) {
    exists i :: 0 <= i < |ns| && o == ns[i]
  }

  /** What a chain of channel nodes means. */
  ghost function DirOf(ns: seq<Node<Channel>>): (dir: Dir)
    reads set n | n in ns :: n.data.users
    ensures |dir| == |ns|
    ensures forall k :: 0 <= k < |ns| ==> dir[k] == Chan(ns[k].data.id, UsersAt(ns, k).Contents())
  {
    if ns == [] then []
    else [Chan(ns[0].data.id, ns[0].data.users.Contents())] + DirOf(ns[1..])
  }

  lemma DirOfIs(ns: seq<Node<Channel>>, dir: Dir)
    requires |dir| == |ns|
    requires forall k :: 0 <= k < |ns| ==> dir[k] == Chan(ns[k].data.id, UsersAt(ns, k).Contents())
    ensures DirOf(ns) == dir
  {
  }

  /** One turn of the logout loop, on the whole directory. */
  lemma TurnShape(done: Dir, rest: Dir, id: int)
    requires rest != []
    ensures var dir, c, turned := done + rest, rest[0], Turned(done, rest[0], id);
            var c' := c.(users := Without(c.users, id));
            && dir[|done|] == c
            && (c.id == CHANNEL_ZERO ==> |turned| == |done| + 1 && turned + rest[1..] == dir)
            && (c.id != CHANNEL_ZERO && c'.users != [] ==>
                  |turned| == |done| + 1 && turned + rest[1..] == dir[|done| := c'])
            && (c.id != CHANNEL_ZERO && c'.users == [] ==>
                  && |turned| == |done| && turned + rest[1..] == RemoveFirst(dir[|done| := c'], ChanIs(c.id))
                  && FirstIndex(dir[|done| := c'], ChanIs(c.id)) <= |done|)
  {
    var c := rest[0];
    var c' := c.(users := Without(c.users, id));
    assert done + rest == done + [c] + rest[1..];
    assert (done + rest)[|done| := c'] == (done + [c']) + rest[1..];
    RemoveFirstPrefix(done + [c'], rest[1..], ChanIs(c.id), |done|);
  }

  lemma LoopStep(done: Dir, rest: Dir, id: int)
    requires rest != []
    ensures LogoutLoop(done, rest, id) == LogoutLoop(Turned(done, rest[0], id), rest[1..], id)
  {
  }

  /** Taking somebody who is not there off a list changes nothing. */
  lemma WithoutStranger(dir: Dir, k: nat, id: int)
    requires k < |dir|
    ensures !Member(dir[k].users, id) ==> dir[k := dir[k].(users := Without(dir[k].users, id))] == dir
  {
  }

  lemma ReportsNewest(dir: Dir, from: int, query: Option<seq<U16>>)
    requires dir != []
    ensures var e := Directory.CreateChannel(from, query);
            !Faults(dir, e) ==> Step(dir, e) != [] && ReportedId(Step(dir, e)) == Step(dir, e)[0].id
  {
  }

  /** One turn of the loop of send_event. */
  lemma ReceiversStep(sent: seq<U16>, us: seq<User>, i: nat, sender: int)
    requires i < |us|
    ensures sent + Receivers(us[i..], sender)
            == (if us[i].id != ROOT_ID && us[i].id != sender then sent + [us[i].id] else sent) + Receivers(us[i + 1..], sender)
  {
    assert us[i..][0] == us[i] && us[i..][1..] == us[i + 1..];
  }

  class ServerInfo {
    var currentId: int
    var gc: Channel
    var dir: LinkedList<Channel>
    ghost var dirRepr: set<object>   // the directory list and its nodes
    ghost var userRepr: set<object>  // the user lists and their nodes

    /** Every list is well formed, no two channels share one, and gc shares the last one's. */
    ghost predicate Valid()
      reads this`gc, this`dir, this`dirRepr, this`userRepr, dirRepr, userRepr
    {
      && this !in dirRepr && this !in userRepr && dirRepr !! userRepr
      && dir in dirRepr && Within(dir.nodes, dirRepr) && dir.Valid() && dir.nodes != []
      && (forall k :: 0 <= k < |dir.nodes| ==> UsersOk(UsersAt(dir.nodes, k)))
      && Unshared(dir.nodes)
      && gc == Last(dir.nodes).data && gc.id == CHANNEL_ZERO
    }

    ghost predicate UsersOk(users: LinkedList<User>)
      reads this`userRepr, userRepr
    {
      users in userRepr && Within(users.nodes, userRepr) && users.Valid()
    }

    ghost function Abs(): Dir
      requires Valid()
      reads this`gc, this`dir, this`dirRepr, this`userRepr, dirRepr, userRepr
    {
      DirOf(dir.nodes)
    }

    constructor ()
      ensures Valid() && fresh(dirRepr) && fresh(userRepr) && Abs() == INITIAL
      ensures Abs() == [Chan(0, [User(0, "ROOT_USER")])]
    {
      var rootNode := new Node(ROOT);
      var users := new LinkedList<User>.InitNode(rootNode);
      gc := Channel(CHANNEL_ZERO, users);
      var channelNode := new Node(Channel(CHANNEL_ZERO, users));
      dir := new LinkedList<Channel>.InitNode(channelNode);
      currentId := CHANNEL_ZERO;
      new;
      dirRepr := {dir, channelNode};
      userRepr := {users, rootNode};
    }

    // ---- One user list at a time ----

    /** The directory list is as before; of the user objects, only list k and its nodes may differ. */
    twostate predicate OnlyList(k: nat)
      reads this, dirRepr, userRepr
      requires k < |old(dir.nodes)|
    {
      && dir == old(dir) && gc == old(gc) && dirRepr == old(dirRepr) && unchanged(dirRepr)
      && old(userRepr) <= userRepr && this !in userRepr && dirRepr !! userRepr
      && forall o :: o in old(userRepr) ==>
           unchanged(o) || o == UsersAt(old(dir.nodes), k) || OneOf(o, old(UsersAt(dir.nodes, k).nodes))
    }

    twostate lemma OtherListsKept(k: nat)
      requires old(Valid()) && k < |old(dir.nodes)| && OnlyList(k)
      ensures forall j :: 0 <= j < |old(dir.nodes)| && j != k ==>
                && UsersOk(UsersAt(old(dir.nodes), j))
                && UsersAt(old(dir.nodes), j).Contents() == old(UsersAt(dir.nodes, j).Contents())
    {
      ghost var ns := old(dir.nodes);
      ghost var list := UsersAt(ns, k);
      forall j | 0 <= j < |ns| && j != k
        ensures UsersOk(UsersAt(ns, j)) && UsersAt(ns, j).Contents() == old(UsersAt(dir.nodes, j).Contents())
      {
        ghost var other := UsersAt(ns, j);
        assert old(UsersOk(other)) && old(UsersOk(list));
        assert other != list;
        assert !OneOf(other, old(list.nodes));
        forall i | 0 <= i < |other.nodes|
          ensures unchanged(other.nodes[i])
        {
          assert old(other.nodes[i].home) == other;
          assert forall m :: 0 <= m < |old(list.nodes)| ==> old(list.nodes[m].home) == list;
          assert other.nodes[i] in old(userRepr);
        }
      }
    }

    /** Changing one channel's user list, and nothing else, changes that channel only. */
    twostate lemma OneListChanged(k: nat)
      requires old(Valid()) && k < |old(dir.nodes)| && OnlyList(k) && UsersOk(UsersAt(dir.nodes, k))
      ensures Valid()
      ensures Abs() == old(Abs())[k := Chan(old(Abs())[k].id, UsersAt(dir.nodes, k).Contents())]
    {
      OtherListsKept(k);
      ghost var ns, before := dir.nodes, old(DirOf(dir.nodes));
      ghost var after := before[k := Chan(before[k].id, UsersAt(ns, k).Contents())];
      assert dir.Valid();
      assert Valid();
      forall j | 0 <= j < |ns|
        ensures after[j] == Chan(ns[j].data.id, UsersAt(ns, j).Contents())
      {
        assert before[j] == old(Chan(ns[j].data.id, UsersAt(ns, j).Contents()));
      }
      DirOfIs(ns, after);
    }

    /** user_delete on the list of the channel at position k. */
    method UserDelete(users: LinkedList<User>, id: int, ghost k: nat) returns (res: int, fault: bool)
      requires Valid() && k < |dir.nodes| && users == UsersAt(dir.nodes, k)
      modifies userRepr
      ensures Valid() && dir.nodes == old(dir.nodes)
      ensures Abs() == old(Abs())[k := old(Abs())[k].(users := Without(old(Abs())[k].users, id))]
      ensures res == if Member(old(Abs())[k].users, id) then 1 else 0
      ensures res == 0 ==> Abs() == old(Abs())
      ensures fault == Unsafe(old(Abs())[k].users, id)
    {
      ListAt(k);
      WithoutStranger(Abs(), k, id);
      res, fault := DeleteOnly(users, id, k);
      OneListChanged(k);
    }

    /** The same, as far as the one list goes. */
    method DeleteOnly(users: LinkedList<User>, id: int, ghost k: nat) returns (res: int, fault: bool)
      requires Valid() && k < |dir.nodes| && users == UsersAt(dir.nodes, k)
      modifies userRepr
      ensures OnlyList(k) && UsersOk(users)
      ensures users.Contents() == Without(old(users.Contents()), id)
      ensures res == if Member(old(users.Contents()), id) then 1 else 0
      ensures fault == Unsafe(old(users.Contents()), id)
    {
      assert UsersOk(users);
      WithinRemove(users.nodes, userRepr);
      res, fault := users.DeleteNode(HasId(id));
    }

    /** push_user on the list of the channel at position k. */
    method UserPush(users: LinkedList<User>, user: User, ghost k: nat) returns (res: int)
      requires Valid() && k < |dir.nodes| && users == UsersAt(dir.nodes, k)
      modifies userRepr, this`userRepr
      ensures Valid() && dir.nodes == old(dir.nodes) && fresh(userRepr - old(userRepr))
      ensures Abs() == old(Abs())[k := old(Abs())[k].(users := [user] + old(Abs())[k].users)]
      ensures res == 1
    {
      PushOnly(users, user, k);
      OneListChanged(k);
      res := 1;
    }

    /** The same, as far as the one list goes. */
    method PushOnly(users: LinkedList<User>, user: User, ghost k: nat)
      requires Valid() && k < |dir.nodes| && users == UsersAt(dir.nodes, k)
      modifies userRepr, this`userRepr
      ensures OnlyList(k) && UsersOk(users) && fresh(userRepr - old(userRepr))
      ensures users.Contents() == [user] + old(users.Contents())
    {
      assert UsersOk(users);
      ghost var ns := users.nodes;
      var _ := users.PushData(user);
      userRepr := userRepr + {users.nodes[0]};
      WithinPush(users.nodes[0], ns, userRepr);
    }

    /** push_node on the list of the channel at position k: unlike push_user, refuses an empty list. */
    method UserPushNode(users: LinkedList<User>, node: Node<User>, ghost k: nat) returns (res: int)
      requires Valid() && k < |dir.nodes| && users == UsersAt(dir.nodes, k)
      requires node !in userRepr && node !in dirRepr
      modifies userRepr, node, this`userRepr
      ensures Valid() && userRepr <= old(userRepr) + {node}
      ensures res == if old(Abs())[k].users == [] then 0 else 1
      ensures res == 0 ==> Abs() == old(Abs())
      ensures res == 1 ==> Abs() == old(Abs())[k := old(Abs())[k].(users := [node.data] + old(Abs())[k].users)]
    {
      ListAt(k);
      res := PushNodeOnly(users, node, k);
      if res == 1 {
        OneListChanged(k);
      }
    }

    method PushNodeOnly(users: LinkedList<User>, node: Node<User>, ghost k: nat) returns (res: int)
      requires Valid() && k < |dir.nodes| && users == UsersAt(dir.nodes, k)
      requires node !in userRepr && node !in dirRepr
      modifies userRepr, node, this`userRepr
      ensures userRepr <= old(userRepr) + {node}
      ensures res == if old(users.Contents()) == [] then 0 else 1
      ensures res == 1 ==>
                OnlyList(k) && UsersOk(users) && users.Contents() == [node.data] + old(users.Contents())
      ensures res == 0 ==> userRepr == old(userRepr) && unchanged(userRepr) && unchanged(dirRepr)
    {
      assert UsersOk(users);
      ghost var ns := users.nodes;
      res := users.PushNode(node);
      if res == 1 {
        userRepr := userRepr + {node};
        WithinPush(node, ns, userRepr);
      }
    }

    // ---- The list of channels ----

    /** find_channel, as a position: the two views of the directory agree on it. */
    lemma SamePosition(id: int)
      requires Valid()
      ensures FirstIndex(dir.Contents(), ChannelIs(id)) == FirstIndex(Abs(), ChanIs(id))
      ensures Undeletable(dir.Contents(), ChannelIs(id)) == Undeletable(Abs(), ChanIs(id))
    {
      FirstIndexAgrees(dir.Contents(), ChannelIs(id), Abs(), ChanIs(id));
    }

    /** As long as no user object changes, every user list stays what it was. */
    twostate lemma ListsKept(ns: seq<Node<Channel>>)
      requires ns == old(dir.nodes) && old(Valid())
      requires old(userRepr) <= userRepr && unchanged(old(userRepr))
      ensures forall j :: 0 <= j < |ns| ==> UsersOk(UsersAt(ns, j))
      ensures forall j :: 0 <= j < |ns| ==> UsersAt(ns, j) in old(userRepr)
      ensures DirOf(ns) == old(DirOf(ns))
    {
      forall j | 0 <= j < |ns|
        ensures UsersOk(UsersAt(ns, j)) && UsersAt(ns, j) in old(userRepr)
        ensures UsersAt(ns, j).Contents() == old(UsersAt(ns, j).Contents())
      {
        assert old(UsersOk(UsersAt(ns, j)));
      }
      DirOfIs(ns, old(DirOf(ns)));
    }

    lemma DirOfRemove(ns: seq<Node<Channel>>, k: nat)
      requires k < |ns|
      ensures DirOf(RemoveAt(ns, k)) == RemoveAt(DirOf(ns), k)
    {
      DirOfIs(RemoveAt(ns, k), RemoveAt(DirOf(ns), k));
    }

    lemma ValidWithout(ns: seq<Node<Channel>>, k: nat)
      requires k < |ns| - 1 && dir.nodes == RemoveAt(ns, k) && dir.Valid()
      requires this !in dirRepr && this !in userRepr && dirRepr !! userRepr && dir in dirRepr
      requires Within(ns, dirRepr) && Unshared(ns) && gc == Last(ns).data && gc.id == CHANNEL_ZERO
      requires forall j :: 0 <= j < |ns| ==> UsersOk(UsersAt(ns, j))
      ensures Valid()
    {
      UnsharedRemove(ns, k);
      forall j | 0 <= j < |dir.nodes|
        ensures UsersOk(UsersAt(dir.nodes, j)) && dir.nodes[j] in dirRepr
      {
        ghost var i := if j < k then j else j + 1;
        assert dir.nodes[j] == ns[i] && UsersOk(UsersAt(ns, i));
      }
      assert Last(dir.nodes) == Last(ns);
    }

    /** channel_delete, of a channel that is not the global one. */
    method ChannelDelete(id: int) returns (fault: bool)
      requires Valid() && id != CHANNEL_ZERO
      modifies dirRepr
      ensures Valid() && Abs() == RemoveFirst(old(Abs()), ChanIs(id))
      ensures var k := FirstIndex(old(Abs()), ChanIs(id));
              dir.nodes == if k < |old(dir.nodes)| then RemoveAt(old(dir.nodes), k) else old(dir.nodes)
      ensures fault == Undeletable(old(Abs()), ChanIs(id))
    {
      ghost var k := FirstIndex(Abs(), ChanIs(id));
      var res;
      res, fault := Unlink(id);
      if res == 1 {
        OneChannelGone(k);
      }
    }

    /** The deletion in the list of channels alone. */
    method Unlink(id: int) returns (res: int, fault: bool)
      requires Valid()
      modifies dirRepr
      ensures dir.Valid() && unchanged(userRepr)
      ensures var k := FirstIndex(old(Abs()), ChanIs(id));
              if k < |old(dir.nodes)| then res == 1 && dir.nodes == RemoveAt(old(dir.nodes), k)
              else res == 0 && unchanged(dirRepr)
      ensures fault == Undeletable(old(Abs()), ChanIs(id))
    {
      SamePosition(id);
      res, fault := dir.DeleteNode(ChannelIs(id));
    }

    /** Unlinking one channel other than the last, and nothing else, removes that channel only. */
    twostate lemma OneChannelGone(k: nat)
      requires old(Valid()) && k < |old(dir.nodes)| - 1
      requires unchanged(this) && unchanged(userRepr) && dir.Valid() && dir.nodes == RemoveAt(old(dir.nodes), k)
      ensures Valid() && Abs() == RemoveAt(old(Abs()), k)
    {
      ListsKept(old(dir.nodes));
      ValidWithout(old(dir.nodes), k);
      DirOfRemove(old(dir.nodes), k);
    }

    lemma DirOfPush(n: Node<Channel>, ns: seq<Node<Channel>>)
      ensures DirOf([n] + ns) == [Chan(n.data.id, n.data.users.Contents())] + DirOf(ns)
    {
      assert ([n] + ns)[1..] == ns;
    }

    lemma UnsharedPush(n: Node<Channel>, ns: seq<Node<Channel>>)
      requires Unshared(ns) && forall j :: 0 <= j < |ns| ==> UsersAt(ns, j) != n.data.users
      ensures Unshared([n] + ns)
    {
      var ms := [n] + ns;
      assert forall j :: 1 <= j < |ms| ==> UsersAt(ms, j) == UsersAt(ns, j - 1);
    }

    lemma ValidWith(n: Node<Channel>, ns: seq<Node<Channel>>)
      requires dir.nodes == [n] + ns && dir.Valid() && ns != []
      requires this !in dirRepr && this !in userRepr && dirRepr !! userRepr && dir in dirRepr
      requires n in dirRepr && Within(ns, dirRepr) && Unshared(ns) && gc == Last(ns).data && gc.id == CHANNEL_ZERO
      requires UsersOk(n.data.users)
      requires forall j :: 0 <= j < |ns| ==> UsersOk(UsersAt(ns, j)) && UsersAt(ns, j) != n.data.users
      ensures Valid()
    {
      UnsharedPush(n, ns);
      forall j | 0 <= j < |dir.nodes|
        ensures UsersOk(UsersAt(dir.nodes, j)) && dir.nodes[j] in dirRepr
      {
        if j > 0 {
          assert dir.nodes[j] == ns[j - 1] && UsersOk(UsersAt(ns, j - 1));
        }
      }
      assert Last(dir.nodes) == Last(ns);
    }

    /** channel_init and push_channel; `objects` are the new channel's list and its nodes. */
    method ChannelPush(id: U16, users: LinkedList<User>, ghost objects: set<object>)
      requires Valid() && users.Valid() && users in objects && Within(users.nodes, objects)
      requires objects !! userRepr && objects !! dirRepr && this !in objects
      modifies dirRepr, this`dirRepr, this`userRepr
      ensures Valid() && Abs() == [Chan(id, users.Contents())] + old(Abs())
      ensures fresh(dirRepr - old(dirRepr)) && userRepr == old(userRepr) + objects
    {
      ghost var ns := dir.nodes;
      var _ := dir.PushData(Channel(id, users));
      assert unchanged(userRepr) && users.Valid();
      dirRepr := dirRepr + {dir.nodes[0]};
      userRepr := userRepr + objects;
      assert this !in dirRepr && this !in userRepr && dirRepr !! userRepr;
      assert Within(ns, dirRepr) && dir.Valid();
      ListsKept(ns);
      assert UsersOk(users);
      ValidWith(dir.nodes[0], ns);
      DirOfPush(dir.nodes[0], ns);
    }

    // ---- Lookups ----

    lemma ListAt(k: nat)
      requires Valid() && k < |dir.nodes|
      ensures UsersOk(UsersAt(dir.nodes, k))
      ensures k < |Abs()| && Abs()[k].users == UsersAt(dir.nodes, k).Contents()
      ensures UsersAt(dir.nodes, k).length == |Abs()[k].users|
    {
    }

    /** find_channel, with its position. */
    method FindChannel(chan: U16) returns (channel: Option<Channel>, ghost k: nat)
      requires Valid()
      ensures k == FirstIndex(Abs(), ChanIs(chan))
      ensures channel == if k < |dir.nodes| then Some(dir.nodes[k].data) else None
    {
      SamePosition(chan);
      k := FirstIndex(Abs(), ChanIs(chan));
      var node := dir.FindNode(ChannelIs(chan));
      channel := if node == null then None else Some(node.data);
    }

    /** find_user on the list of the channel at position k. */
    method FindUser(users: LinkedList<User>, id: int, ghost k: nat) returns (user: Option<User>)
      requires Valid() && k < |dir.nodes| && users == UsersAt(dir.nodes, k)
      ensures var us := Abs()[k].users;
              user == if Member(us, id) then Some(us[FirstIndex(us, HasId(id))]) else None
    {
      ListAt(k);
      var node := users.FindNode(HasId(id));
      user := if node == null then None else Some(node.data);
    }

    /** Whether the list of the channel at position k has length 0. */
    method IsEmpty(users: LinkedList<User>, ghost k: nat) returns (empty: bool)
      requires Valid() && k < |dir.nodes| && users == UsersAt(dir.nodes, k)
      ensures empty <==> Abs()[k].users == []
    {
      ListAt(k);
      empty := users.length == 0;
    }

    // ---- The handlers ----

    /** cpt_login_response, user_init and push_channel_user. */
    method AdmitUser(fd: int, name: Option<string>) returns (pushed: bool)
      requires Valid()
      modifies this`userRepr, userRepr
      ensures Valid() && fresh(userRepr - old(userRepr))
      ensures (Abs(), pushed) == Login(old(Abs()), fd, name)
    {
      ghost var before := Abs();
      var name' := if name.Some? then name.value else DEFAULT_USERNAME;
      if |name'| > MAX_NAME_SIZE {
        return false;
      }
      var node := new Node(User(fd % 256, name'));
      var res := UserPushNode(gc.users, node, |dir.nodes| - 1);
      pushed := res == 1;
      assert Abs() == Login(before, fd, name).0;
    }

    /** login_event, for the connection just accepted. */
    method LoginEvent(fd: int, name: Option<string>) returns (pushed: bool)
      requires Valid()
      modifies this`currentId, this`userRepr, userRepr
      ensures Valid() && fresh(userRepr - old(userRepr))
      ensures (Abs(), pushed) == Login(old(Abs()), fd, name) && currentId == fd
    {
      currentId := fd;
      pushed := AdmitUser(fd, name);
    }

    /** The part of join that copies the user from the global channel to the one at position k. */
    method PushFromGlobal(users: LinkedList<User>, id: int, ghost k: nat) returns (pushed: bool)
      requires Valid() && k < |dir.nodes| && users == UsersAt(dir.nodes, k)
      modifies this`userRepr, userRepr
      ensures Valid() && fresh(userRepr - old(userRepr))
      ensures var us := Global(old(Abs()));
              && pushed == Member(us, id)
              && Abs() == if pushed then
                            old(Abs())[k := old(Abs())[k].(users := [us[FirstIndex(us, HasId(id))]] + old(Abs())[k].users)]
                          else old(Abs())
    {
      var user := FindUser(gc.users, id, |dir.nodes| - 1);
      if user == None {
        return false;
      }
      var _ := UserPush(users, user.value, k);
      return true;
    }

    /** If a channel becomes empty, it ceases to exist. The channel is there, so deleting one with
        its id does not fault. */
    method DeleteIfEmpty(users: LinkedList<User>, chan: U16, ghost k: nat)
      requires Valid() && k < |dir.nodes| && users == UsersAt(dir.nodes, k)
      requires dir.nodes[k].data.id == chan != CHANNEL_ZERO
      modifies dirRepr
      ensures Valid()
      ensures Abs() == if old(Abs())[k].users == [] then RemoveFirst(old(Abs()), ChanIs(chan)) else old(Abs())
      ensures var m := FirstIndex(old(Abs()), ChanIs(chan));
              dir.nodes == if old(Abs())[k].users == [] && m < |old(dir.nodes)| then RemoveAt(old(dir.nodes), m)
                           else old(dir.nodes)
    {
      var empty := IsEmpty(users, k);
      if empty {
        assert ChanIs(chan)(Abs()[k]);
        var fault := ChannelDelete(chan);
        assert !fault;
      }
    }

    /** cpt_join_channel_response. */
    method JoinChannel(chan: U16) returns (code: int)
      requires Valid()
      modifies this`userRepr, userRepr
      ensures Valid() && fresh(userRepr - old(userRepr))
      ensures (Abs(), code) == Join(old(Abs()), currentId, chan)
    {
      ghost var before := Abs();
      var channel, k := FindChannel(chan);
      if channel == None {
        return FAILURE;
      }
      var user := FindUser(channel.value.users, currentId, k);
      if user != None {
        return SUCCESS;
      }
      var pushed := PushFromGlobal(channel.value.users, currentId, k);
      assert Abs() == Join(before, currentId, chan).0;
      code := if pushed then SUCCESS else FAILURE;
    }

    /** cpt_leave_channel_response. */
    method LeaveChannel(chan: U16) returns (code: int, fault: bool)
      requires Valid()
      modifies dirRepr, userRepr
      ensures Valid() && unchanged(this)
      ensures (Abs(), code) == Leave(old(Abs()), currentId, chan)
      ensures fault == LeaveFaults(old(Abs()), currentId, chan)
    {
      ghost var before := Abs();
      if chan == CHANNEL_ZERO {
        return BAD_CHANNEL, false;
      }
      var channel, k := FindChannel(chan);
      if channel == None {
        return FAILURE, false;
      }
      assert ChanIs(chan)(Abs()[k]);
      var res;
      res, fault := UserDelete(channel.value.users, currentId, k);
      if res == 0 {
        code := FAILURE;
        return;
      }
      DeleteIfEmpty(channel.value.users, chan, k);
      assert Abs() == Leave(before, currentId, chan).0;
      code := SUCCESS;
    }

    /** filter_channel_users, on a copy of the ids since the comparator overwrites them. */
    method FilterChannelUsers(ids: seq<U16>) returns (users: LinkedList?<User>, fault: bool)
      requires Valid()
      ensures fault <==> !Filterable(|Global(Abs())|, |ids|)
      ensures users == null <==> Filtered(Global(Abs()), ids) == []
      ensures users != null ==>
                && users.Valid() && fresh(users) && fresh(users.nodes)
                && users.Contents() == Filtered(Global(Abs()), ids)
    {
      ListAt(|dir.nodes| - 1);
      var params := CopyIds(ids);
      users, fault := Filter(gc.users, params);
    }

    method CopyIds(ids: seq<U16>) returns (params: array<U16>)
      ensures fresh(params) && params[..] == ids
    {
      params := new U16[|ids|](i requires 0 <= i < |ids| => ids[i]);
    }

    /** A list of the requester alone; create_user_node copies from a null user where it is not listed. */
    method RequesterAlone() returns (users: LinkedList?<User>, fault: bool)
      requires Valid()
      ensures fault <==> !Member(Global(Abs()), currentId)
      ensures !fault ==>
                && users != null && users.Valid() && fresh(users) && fresh(users.nodes)
                && users.Contents() == [Global(Abs())[FirstIndex(Global(Abs()), HasId(currentId))]]
    {
      var user := FindUser(gc.users, currentId, |dir.nodes| - 1);
      if user == None {
        return null, true;
      }
      users := new LinkedList<User>.InitData(user.value);
      fault := false;
    }

    /** The members of the channel to create: the users asked for, or the requester alone. */
    method InviteUsers(query: Option<seq<U16>>)
      returns (users: LinkedList?<User>, fault: bool, ghost objects: set<object>)
      requires Valid()
      ensures fault <==> !MayCreate(Abs(), currentId, query)
      ensures fresh(objects) && objects !! userRepr && objects !! dirRepr
      ensures !fault ==>
                && users != null && users.Valid() && users in objects && Within(users.nodes, objects)
                && users.Contents() == Invited(Abs(), currentId, query)
    {
      users, fault, objects := null, false, {};
      if query.Some? {
        users, fault := FilterChannelUsers(query.value);
        if fault {
          return;
        }
      }
      if users == null {
        users, fault := RequesterAlone();
        if fault {
          return;
        }
      }
      objects := ObjectsOf(users, users.nodes);
    }

    /** cpt_create_channel_response. */
    method CreateChannel(query: Option<seq<U16>>) returns (code: int, fault: bool)
      requires Valid()
      modifies dirRepr, this`dirRepr, this`userRepr
      ensures Valid() && fresh(dirRepr - old(dirRepr)) && fresh(userRepr - old(userRepr))
      ensures fault <==> !MayCreate(old(Abs()), currentId, query)
      ensures !fault ==> Abs() == Create(old(Abs()), currentId, query) && code == SUCCESS
      ensures fault ==> Abs() == old(Abs())
    {
      ghost var before := Abs();
      ghost var objects;
      var users;
      users, fault, objects := InviteUsers(query);
      code := SUCCESS;
      assert Valid() && Abs() == before && dir.length == |before|;
      if !fault {
        ghost var goal := Create(before, currentId, query);
        assert goal == [Chan(|before| % 65536, users.Contents())] + before;
        ChannelPush(dir.length % 65536, users, objects);
      }
    }

    /** The body of the logout loop for a channel other than the global one. */
    method RemoveUserAt(chan: Node<Channel>, ghost k: nat) returns (fault: bool, ghost k': nat)
      requires Valid() && k < |dir.nodes| && chan == dir.nodes[k] && chan.data.id != CHANNEL_ZERO
      modifies dirRepr, userRepr
      ensures Valid() && unchanged(this)
      ensures var c := old(Abs())[k].(users := Without(old(Abs())[k].users, currentId));
              var d := old(Abs())[k := c];
              && Abs() == (if c.users == [] then RemoveFirst(d, ChanIs(c.id)) else d)
              && k' == (if c.users == [] then k else k + 1)
      ensures k' <= |dir.nodes| && dir.nodes[k'..] == old(dir.nodes)[k + 1..]
      ensures fault == Unsafe(old(Abs())[k].users, currentId)
    {
      ghost var ns := dir.nodes;
      var res;
      res, fault := UserDelete(chan.data.users, currentId, k);
      ghost var d := Abs();
      DeleteIfEmpty(chan.data.users, chan.data.id, k);
      k' := if d[k].users == [] then k else k + 1;
      if d[k].users == [] {
        assert ChanIs(chan.data.id)(d[k]);
        SliceAfterRemove(ns, FirstIndex(d, ChanIs(chan.data.id)), k);
      }
    }

    ghost function NodeAt(k: nat): Node?<Channel>
      reads this, dir
    {
      if k < |dir.nodes| then dir.nodes[k] else null
    }

    /** One turn of the logout loop; the next node is saved first, since this one may go. */
    method LogoutTurn(chan: Node<Channel>, ghost done: Dir, ghost rest: Dir)
      returns (next: Node?<Channel>, fault: bool)
      requires Valid() && Abs() == done + rest && rest != [] && chan == NodeAt(|done|)
      modifies dirRepr, userRepr
      ensures Valid() && unchanged(this)
      ensures Abs() == Turned(done, rest[0], currentId) + rest[1..]
      ensures next == NodeAt(|Turned(done, rest[0], currentId)|)
      ensures fault == TurnFaults(rest[0], currentId)
    {
      next := chan.next;
      fault := false;
      if chan.data.id != CHANNEL_ZERO {
        ghost var ns := dir.nodes;
        fault := DepartFrom(chan, done, rest);
        ghost var k := |Turned(done, rest[0], currentId)|;
        assert NodeAt(k) == if |done| + 1 < |ns| then ns[|done| + 1..][0] else null;
      } else {
        TurnShape(done, rest, currentId);
      }
    }

    /** That turn for a channel other than the global one. */
    method DepartFrom(chan: Node<Channel>, ghost done: Dir, ghost rest: Dir) returns (fault: bool)
      requires Valid() && Abs() == done + rest && rest != [] && |done| < |dir.nodes| && chan == dir.nodes[|done|]
      requires chan.data.id != CHANNEL_ZERO
      modifies dirRepr, userRepr
      ensures Valid() && unchanged(this)
      ensures Abs() == Turned(done, rest[0], currentId) + rest[1..]
      ensures var k := |Turned(done, rest[0], currentId)|;
              k <= |dir.nodes| && dir.nodes[k..] == old(dir.nodes)[|done| + 1..]
      ensures fault == TurnFaults(rest[0], currentId)
    {
      TurnShape(done, rest, currentId);
      ghost var k;
      fault, k := RemoveUserAt(chan, |done|);
    }

    /** cpt_logout_response, while there are channels besides the global one. */
    method LogoutChannels() returns (fault: bool)
      requires Valid()
      modifies dirRepr, userRepr
      ensures Valid() && unchanged(this)
      ensures Abs() == LogoutLoop([], old(Abs()), currentId)
      ensures fault == LoopFaults(old(Abs()), currentId)
    {
      ghost var goal, done, rest := LogoutLoop([], Abs(), currentId), [], Abs();
      ghost var faults := LoopFaults(rest, currentId);
      fault := false;
      var chan := dir.head;
      while chan != null
        invariant Valid() && unchanged(this) && Abs() == done + rest
        invariant chan == NodeAt(|done|)
        invariant LogoutLoop(done, rest, currentId) == goal
        invariant faults == (fault || LoopFaults(rest, currentId))
        decreases |rest|
      {
        LoopStep(done, rest, currentId);
        var here;
        chan, here := LogoutTurn(chan, done, rest);
        fault := fault || here;
        done, rest := Turned(done, rest[0], currentId), rest[1..];
      }
      assert rest == [];
    }

    method DeleteFromGlobal() returns (res: int, fault: bool)
      requires Valid()
      modifies userRepr
      ensures Valid() && dir.nodes == old(dir.nodes)
      ensures Abs() == WithGlobal(old(Abs()), Without(Global(old(Abs())), currentId))
      ensures res == if Member(Global(old(Abs())), currentId) then 1 else 0
      ensures fault == Unsafe(Global(old(Abs())), currentId)
    {
      res, fault := UserDelete(gc.users, currentId, |dir.nodes| - 1);
    }

    method HasChannels() returns (more: bool)
      requires Valid()
      ensures more <==> |Abs()| != 1
    {
      more := dir.head.next != null;
    }

    /** cpt_logout_response. */
    method LogoutResponse() returns (code: int, fault: bool)
      requires Valid()
      modifies dirRepr, userRepr
      ensures Valid() && unchanged(this)
      ensures (Abs(), code) == Logout(old(Abs()), currentId)
      ensures fault == LogoutFaults(old(Abs()), currentId)
    {
      var more := HasChannels();
      fault := false;
      if more {
        fault := LogoutChannels();
      }
      ghost var dir' := Abs();
      var res, last := DeleteFromGlobal();
      fault := fault || last;
      code := if res == 1 then SUCCESS else FAILURE;
      assert Abs() == WithGlobal(dir', Without(Global(dir'), currentId));
    }

    /** send_event: the ids written to, in order. */
    method SendEvent(chan: U16) returns (sent: seq<U16>)
      requires Valid()
      ensures sent == Deliveries(Abs(), currentId, chan)
    {
      var channel, k := FindChannel(chan);
      if channel == None {
        return [];
      }
      ListAt(k);
      sent := Broadcast(channel.value.users, currentId);
    }

    /** cpt_get_users_response: whom the reply names, in order. */
    method GetUsersResponse(chan: U16) returns (listed: seq<User>, code: int, fault: bool)
      requires Valid()
      ensures (listed, code) == Listing(Abs(), chan)
      ensures fault == GetUsersFaults(Abs(), chan)
    {
      var channel, k := FindChannel(chan);
      if channel == None {
        return [], BAD_CHANNEL, false;
      }
      ListAt(k);
      listed, fault := ChannelUsers(channel.value.users);
      code := SUCCESS;
    }

    // ---- Dispatch ----

    /** The event has happened: the directory has made its step, the heap is well formed, and
        `fault` tells whether the source follows a null pointer on the way. */
    twostate predicate Happened(e: Event, fault: bool)
      requires old(Valid())
      reads this, dirRepr, userRepr
    {
      && Valid() && Abs() == Step(old(Abs()), e) && fault == Faults(old(Abs()), e)
      && fresh(dirRepr - old(dirRepr)) && fresh(userRepr - old(userRepr))
    }

    /** Events that leave the directory, and here the heap, alone. */
    twostate lemma NothingHappened(e: Event)
      requires old(Valid()) && (e.Send? || e.Other?)
      requires unchanged(this) && unchanged(dirRepr) && unchanged(userRepr)
      ensures Happened(e, false)
    {
    }

    method LeaveChannelEvent(chan: U16) returns (fault: bool)
      requires Valid()
      modifies this`dirRepr, this`userRepr, dirRepr, userRepr
      ensures Happened(Directory.LeaveChannel(currentId, chan), fault)
    {
      var code;
      code, fault := LeaveChannel(chan);
    }

    method JoinChannelEvent(chan: U16)
      requires Valid()
      modifies this`dirRepr, this`userRepr, dirRepr, userRepr
      ensures Happened(Directory.JoinChannel(currentId, chan), false)
    {
      var _ := JoinChannel(chan);
    }

    /** create_channel_event; what it reports is the id of the new channel. */
    method CreateChannelEvent(query: Option<seq<U16>>) returns (reported: U16, fault: bool)
      requires Valid()
      modifies this`dirRepr, this`userRepr, dirRepr, userRepr
      ensures Happened(Directory.CreateChannel(currentId, query), fault)
      ensures reported == ReportedId(Abs())
      ensures !fault ==> Abs() != [] && reported == Abs()[0].id
    {
      ReportsNewest(Abs(), currentId, query);
      fault := CreateChannelStep(query);
      reported := NewestId();
    }

    method CreateChannelStep(query: Option<seq<U16>>) returns (fault: bool)
      requires Valid()
      modifies this`dirRepr, this`userRepr, dirRepr, userRepr
      ensures Happened(Directory.CreateChannel(currentId, query), fault)
    {
      var code;
      code, fault := CreateChannel(query);
    }

    method NewestId() returns (id: U16)
      requires Valid()
      ensures id == ReportedId(Abs())
    {
      id := (dir.length - 1) % 65536;
    }

    method GetUsersEvent(chan: U16) returns (fault: bool)
      requires Valid()
      modifies this`dirRepr, this`userRepr, dirRepr, userRepr
      ensures Happened(GetUsers(currentId, chan), fault)
    {
      var listed, code;
      listed, code, fault := GetUsersResponse(chan);
    }

    method LogoutEvent() returns (fault: bool)
      requires Valid()
      modifies this`dirRepr, this`userRepr, dirRepr, userRepr
      ensures Happened(LogoutRequest(currentId), fault)
    {
      var code;
      code, fault := LogoutResponse();
    }

    /** handle_event: every request but LOGOUT. */
    method HandleEvent(command: int, chan: U16, query: Option<seq<U16>>) returns (sent: seq<U16>, fault: bool)
      requires command != Commands.LOGOUT
      requires Valid()
      modifies this`dirRepr, this`userRepr, dirRepr, userRepr
      ensures Happened(Request(currentId, command, chan, query), fault)
      ensures sent == Sent(old(Abs()), Request(currentId, command, chan, query))
    {
      sent, fault := [], false;
      if command == Commands.SEND {
        sent := SendEvent(chan);
        NothingHappened(Send(currentId, chan));
      } else if command == Commands.GET_USERS {
        fault := GetUsersEvent(chan);
      } else if command == Commands.CREATE_CHANNEL {
        var reported;
        reported, fault := CreateChannelEvent(query);
      } else if command == Commands.LEAVE_CHANNEL {
        fault := LeaveChannelEvent(chan);
      } else if command == Commands.JOIN_CHANNEL {
        JoinChannelEvent(chan);
      } else {
        NothingHappened(Other(currentId));
      }
    }

    /** One request: logout_event for LOGOUT, else handle_event. Every request is a step of the
        directory, and `fault` says on which ones the source follows a null pointer. */
    method HandleRequest(command: int, chan: U16, query: Option<seq<U16>>) returns (sent: seq<U16>, fault: bool)
      requires Valid()
      modifies this`dirRepr, this`userRepr, dirRepr, userRepr
      ensures Happened(Request(currentId, command, chan, query), fault)
      ensures sent == Sent(old(Abs()), Request(currentId, command, chan, query))
    {
      if command == Commands.LOGOUT {
        fault := LogoutEvent();
        sent := [];
      } else {
        sent, fault := HandleEvent(command, chan, query);
      }
    }
  }

  /** The walk of channel_to_string, which reads the head without a test. */
  method ChannelUsers(users: LinkedList<User>) returns (listed: seq<User>, fault: bool)
    requires users.Valid()
    ensures fault <==> users.Contents() == []
    ensures listed == users.Contents()
  {
    ghost var us := users.Contents();
    listed, fault := [], false;
    var node := users.head;
    if node == null {
      fault := true;
    } else if node.next == null {
      listed := [node.data];
    } else {
      ghost var i := 0;
      while node != null
        invariant 0 <= i <= |us| && node == if i < |us| then users.nodes[i] else null
        invariant listed == us[..i]
        decreases |us| - i
      {
        listed := listed + [node.data];
        node := node.next;
        i := i + 1;
      }
    }
  }

  /** The loop of send_event. */
  method Broadcast(users: LinkedList<User>, sender: int) returns (sent: seq<U16>)
    requires users.Valid()
    ensures sent == Receivers(users.Contents(), sender)
  {
    ghost var us, goal := users.Contents(), Receivers(users.Contents(), sender);
    assert us[0..] == us;
    sent := [];
    var node := users.head;
    ghost var i := 0;
    while node != null
      invariant 0 <= i <= |us| && node == if i < |us| then users.nodes[i] else null
      invariant sent + Receivers(us[i..], sender) == goal
      decreases |us| - i
    {
      ReceiversStep(sent, us, i, sender);
      var destId := node.data.id;
      if destId != ROOT_ID {
        if destId != sender {
          sent := sent + [destId];
        }
      }
      node := node.next;
      i := i + 1;
    }
  }
}
