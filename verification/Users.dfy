/**
 Users and the user lists of cpt_app/server/src/user.c, with the multi-pass `filter` of
 common/src/linked_list.c driven by the comparator that consumes the ids it matches.
 */
module Users {
  import opened Seqs
  import opened LinkedLists

  type U16 = x: int | 0 <= x < 65536

  const MAX_ID_NUM: U16 := 65535
  const ROOT_ID: U16 := 0

  datatype User = User(id: U16, name: string)

  function HasId(id: int): User -> bool {
    (u: User) => u.id == id
  }

  function IsId(id: U16): U16 -> bool {
    (x: U16) => x == id
  }

  function IdIn(q: seq<U16>): User -> bool {
    (u: User) => u.id in q
  }

  // ---- The comparator ----

  /** What one comparison leaves of the query: the first matching slot is overwritten. */
  function Consume(q: seq<U16>, id: U16): (r: seq<U16>)
    ensures |r| == |q|
  {
    var k := FirstIndex(q, IsId(id));
    if k == |q| then q else q[k := MAX_ID_NUM]
  }

  /** Slot k is the first one of the query with this id. */
  predicate FirstSlot(q: seq<U16>, id: U16, k: int) {
    0 <= k < |q| && q[k] == id && forall j :: 0 <= j < k ==> q[j] != id
  }

  method FilterUserId(user: User, ids: array<U16>) returns (hit: bool)
    modifies ids
    ensures hit == (user.id in old(ids[..]))
    ensures ids[..] == Consume(old(ids[..]), user.id)
    ensures hit ==> exists k :: 0 <= k < ids.Length && FirstSlot(old(ids[..]), user.id, k) && ids[k] == 65535
  {
    var i := 0;
    while i < ids.Length
      invariant 0 <= i <= ids.Length
      invariant ids[..] == old(ids[..])
      invariant forall k :: 0 <= k < i ==> ids[..][k] != user.id
    {
      if user.id == ids[i] {
        FirstIndexIs(ids[..], IsId(user.id), i);
        assert ids[..][i] in ids[..];
        assert FirstSlot(ids[..], user.id, i);
        ids[i] := MAX_ID_NUM;
        return true;
      }
      i := i + 1;
    }
    FirstIndexIs(ids[..], IsId(user.id), |ids[..]|);
    return false;
  }

  // ---- The filter loop ----

  /** The lists and query sizes on which the loop never follows a null link. */
  predicate Filterable(listLength: nat, querySize: nat) {
    querySize == 0 || 2 <= listLength || (listLength == 1 && querySize == 1)
  }

  /** The loop's variables: the query left, the pass, the node visited next, and the result so far. */
  datatype Cursor = Cursor(q: seq<U16>, pass: nat, i: nat, found: nat, acc: seq<User>)

  /** One comparison. Later passes start at the node after the head. */
  function Advance(us: seq<User>, c: Cursor): (r: Cursor)
    requires c.i < |us|
    ensures |r.q| == |c.q|
  {
    var u := us[c.i];
    var hit := u.id in c.q;
    Cursor(Consume(c.q, u.id),
           if c.i + 1 == |us| then c.pass + 1 else c.pass,
           if c.i + 1 == |us| then 1 else c.i + 1,
           if hit then c.found + 1 else c.found,
           if hit then [u] + c.acc else c.acc)
  }

  /** The loop; i reaches |us| only where the source would follow a null link. */
  function FilterFrom(us: seq<User>, c: Cursor): seq<User>
    decreases |c.q| - c.pass, |us| - c.i
  {
    if c.pass >= |c.q| || c.found == |c.q| || c.i >= |us| then c.acc
    else FilterFrom(us, Advance(us, c))
  }

  /** The loop comes to compare through a null node. */
  predicate FilterFaults(us: seq<User>, c: Cursor)
    decreases |c.q| - c.pass, |us| - c.i
  {
    c.pass < |c.q| && c.found != |c.q| && (c.i >= |us| || FilterFaults(us, Advance(us, c)))
  }

  /** It does so exactly on an empty list, and on a list of one user for several ids. */
  lemma FilterFaultsIff(us: seq<User>, q: seq<U16>)
    ensures FilterFaults(us, Cursor(q, 0, 0, 0, [])) <==> !Filterable(|us|, |q|)
  {
    var c := Cursor(q, 0, 0, 0, []);
    if 2 <= |us| {
      LongListNeverFaults(us, c);
    } else if |us| == 1 && q != [] {
      var d := Advance(us, c);
      assert d.pass == 1 && d.i == 1 && d.found <= 1;
      assert FilterFaults(us, c) == FilterFaults(us, d);
    }
  }

  lemma {:induction false} LongListNeverFaults(us: seq<User>, c: Cursor)
    requires 2 <= |us| && c.i < |us|
    ensures !FilterFaults(us, c)
    decreases |c.q| - c.pass, |us| - c.i
  {
    if c.pass < |c.q| && c.found != |c.q| {
      LongListNeverFaults(us, Advance(us, c));
    }
  }

  /** The list `filter` returns; [] stands for its null result. */
  function Filtered(us: seq<User>, q: seq<U16>): seq<User> {
    FilterFrom(us, Cursor(q, 0, 0, 0, []))
  }

  /** The result list, once there is one, and its nodes are among these objects. */
  ghost predicate MadeOf(filtered: LinkedList?<User>, made: set<object>)
    reads filtered
  {
    filtered != null ==> filtered in made && forall k :: 0 <= k < |filtered.nodes| ==> filtered.nodes[k] in made
  }

  /** One visit of the loop: a match starts the result list or goes to its front. `made` collects
      the objects allocated for the result. */
  method Visit(filtered: LinkedList?<User>, user: User, ids: array<U16>, ghost made: set<object>)
    returns (r: LinkedList?<User>, hit: bool, ghost made': set<object>)
    requires filtered != null ==> filtered.Valid()
    requires MadeOf(filtered, made)
    modifies filtered, ids
    ensures hit == (user.id in old(ids[..])) && ids[..] == Consume(old(ids[..]), user.id)
    ensures r != null ==> r.Valid()
    ensures filtered != null ==> r == filtered
    ensures r == null <==> filtered == null && !hit
    ensures r != null ==>
              var before := if filtered == null then [] else old(filtered.Contents());
              r.Contents() == if hit then [user] + before else before
    ensures MadeOf(r, made') && fresh(made' - made)
  {
    r, made' := filtered, made;
    hit := FilterUserId(user, ids);
    if hit {
      if r == null {
        r := new LinkedList.InitData(user);
      } else {
        var _ := r.PushData(user);
      }
      made' := made + {r, r.nodes[0]};
    }
  }

  /** The loop's variables on the heap agree with the cursor c. */
  ghost predicate At(list: LinkedList<User>, node: Node?<User>, filtered: LinkedList?<User>, c: Cursor)
    reads list, list.nodes, filtered, if filtered == null then [] else filtered.nodes
  {
    && list.Valid()
    && (c.pass < |c.q| ==> node == if c.i < |list.nodes| then list.nodes[c.i] else null)
    && c.found == |c.acc|
    && (filtered == null <==> c.acc == [])
    && (filtered != null ==> filtered.Valid() && filtered.Contents() == c.acc)
  }

  /** One turn of the loop: visit the node, then move on, back to the node after the head at the end. */
  method Turn(list: LinkedList<User>, node: Node<User>, filtered: LinkedList?<User>, ids: array<U16>,
              ghost c: Cursor, ghost made: set<object>)
    returns (next: Node?<User>, r: LinkedList?<User>, hit: bool, wrapped: bool, ghost made': set<object>)
    requires At(list, node, filtered, c) && c.q == ids[..] && c.pass < |c.q| && c.i < |list.nodes|
    requires filtered != list && MadeOf(filtered, made)
    modifies filtered, ids
    ensures unchanged(list) && unchanged(list.nodes)
    ensures var d := Advance(list.Contents(), c);
            && At(list, next, r, d) && d.q == ids[..]
            && d.pass == (if wrapped then c.pass + 1 else c.pass)
            && d.found == (if hit then c.found + 1 else c.found)
    ensures filtered != null ==> r == filtered
    ensures MadeOf(r, made') && fresh(made' - made)
  {
    r, hit, made' := Visit(filtered, node.data, ids, made);
    next := node;
    wrapped := next.next == null;
    if wrapped {
      next := list.head;
    }
    next := next.next;
  }

  /** `fault` is set where the source compares through a null node; the result is then what has been
      found so far. */
  method Filter(list: LinkedList<User>, ids: array<U16>) returns (filtered: LinkedList?<User>, fault: bool)
    requires list.Valid()
    modifies ids
    ensures unchanged(list) && unchanged(list.nodes)
    ensures fault <==> !Filterable(|list.nodes|, ids.Length)
    ensures filtered == null <==> Filtered(list.Contents(), old(ids[..])) == []
    ensures filtered != null ==>
              && filtered.Valid() && fresh(filtered) && fresh(filtered.nodes)
              && filtered.Contents() == Filtered(list.Contents(), old(ids[..]))
  {
    ghost var us := list.Contents();
    ghost var c := Cursor(ids[..], 0, 0, 0, []);
    ghost var goal, faults := FilterFrom(us, c), FilterFaults(us, c);
    FilterFaultsIff(us, ids[..]);
    ghost var made: set<object> := {};
    filtered, fault := null, false;
    var passes, found := 0, 0;
    var node := list.head;
    while passes < ids.Length
      invariant c.q == ids[..] && c.pass == passes <= ids.Length && c.found == found
      invariant At(list, node, filtered, c) && !fault
      invariant FilterFrom(us, c) == goal && FilterFaults(us, c) == faults
      invariant MadeOf(filtered, made) && fresh(made)
      decreases ids.Length - passes, |us| - c.i
    {
      if found == ids.Length {
        break;
      }
      if node == null {
        fault := true;  // the source reads node->data
        break;
      }
      FilterStep(us, c);
      var hit, wrapped;
      node, filtered, hit, wrapped, made := Turn(list, node, filtered, ids, c, made);
      c := Advance(us, c);
      found := if hit then found + 1 else found;
      passes := if wrapped then passes + 1 else passes;
    }
    FilterEnd(us, c);
    if filtered != null {
      assert filtered.length == found;  // the source stores found here
    }
  }

  lemma FilterStep(us: seq<User>, c: Cursor)
    requires c.pass < |c.q| && c.found != |c.q| && c.i < |us|
    ensures FilterFrom(us, c) == FilterFrom(us, Advance(us, c))
    ensures FilterFaults(us, c) == FilterFaults(us, Advance(us, c))
  {
  }

  lemma FilterEnd(us: seq<User>, c: Cursor)
    requires c.pass >= |c.q| || c.found == |c.q| || c.i >= |us|
    ensures FilterFrom(us, c) == c.acc
    ensures FilterFaults(us, c) <==> c.pass < |c.q| && c.found != |c.q|
  {
  }
}
