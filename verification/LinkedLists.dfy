/**
 The generic singly linked list of common/src/linked_list.c.

 A node's payload is written once, when the node is created, so it is a `const`; the links,
 the head, the tail and the length are rewritten in place. The ghost field `nodes` is the
 chain from head to last node; the ghost field `home` names the list a node is linked into,
 so that two lists never share a node.
 */
module LinkedLists {
  import opened Seqs

  class Node<T> {
    const data: T
    var next: Node?<T>
    ghost var home: object?

    constructor (data: T)
      ensures this.data == data && next == null
    {
      this.data := data;
      next := null;
      home := null;
    }
  }

  /** The payloads of a chain of nodes. */
  ghost function DataOf<T>(ns: seq<Node<T>>): (s: seq<T>)
    ensures |s| == |ns|
    ensures forall i :: 0 <= i < |s| ==> s[i] == ns[i].data
  {
    if ns == [] then [] else [ns[0].data] + DataOf(ns[1..])
  }

  /** The lists on which delete_node follows a null pointer: an empty one, and one whose only node
      does not match. */
  predicate Undeletable<T>(s: seq<T>, p: T -> bool) {
    s == [] || (|s| == 1 && !p(s[0]))
  }

  /** What node i of a chain links to. */
  ghost function Successor<T>(ns: seq<Node<T>>, i: nat): Node?<T>
    requires i < |ns|
  {
    if i + 1 < |ns| then ns[i + 1] else null
  }

  /** An acyclic chain: every node links to the next one, and the last one to nothing. */
  ghost predicate Linked<T>(ns: seq<Node<T>>)
    reads ns
  {
    Distinct(ns) && forall i {:trigger ns[i].next} :: 0 <= i < |ns| ==> ns[i].next == Successor(ns, i)
  }

  /** Every node of the chain is linked into list l. */
  ghost predicate Owned<T>(ns: seq<Node<T>>, l: object)
    reads ns
  {
    forall i {:trigger ns[i].home} :: 0 <= i < |ns| ==> ns[i].home == l
  }

  lemma OwnedRemove<T>(ns: seq<Node<T>>, k: nat, l: object)
    requires k < |ns| && Owned(ns, l)
    ensures Owned(RemoveAt(ns, k), l)
  {
    var r := RemoveAt(ns, k);
    forall i | 0 <= i < |r|
      ensures r[i].home == l
    {
      assert r[i] == ns[if i < k then i else i + 1];
    }
  }

  lemma {:induction false} LinkedPush<T>(n: Node<T>, ns: seq<Node<T>>, l: object)
    requires Linked(ns) && Owned(ns, l) && n !in ns
    requires n.next == (if ns == [] then null else ns[0]) && n.home == l
    ensures Linked([n] + ns) && Owned([n] + ns, l)
    ensures DataOf([n] + ns) == [n.data] + DataOf(ns)
  {
    assert ([n] + ns)[1..] == ns;
  }

  lemma {:induction false} DataOfRemove<T>(ns: seq<Node<T>>, k: nat)
    requires k < |ns|
    ensures DataOf(RemoveAt(ns, k)) == RemoveAt(DataOf(ns), k)
  {
  }

  /** The last node other than ns[k]. */
  ghost function LastBut<T>(ns: seq<Node<T>>, k: nat): Node<T>
    requires 1 < |ns|
  {
    if k == |ns| - 1 then ns[k - 1] else Last(ns)
  }

  /** Pointing the predecessor of ns[k] past it leaves a chain without it. */
  lemma {:induction false} LinkedUnlink<T>(ns: seq<Node<T>>, k: nat)
    requires k < |ns| && Distinct(ns)
    requires forall i {:trigger ns[i].next} :: 0 <= i < |ns| && i != k - 1 ==> ns[i].next == Successor(ns, i)
    requires 0 < k ==> ns[k - 1].next == Successor(ns, k)
    ensures Linked(RemoveAt(ns, k))
    ensures 1 < |ns| ==> Last(RemoveAt(ns, k)) == LastBut(ns, k)
  {
    var r := RemoveAt(ns, k);
    forall i | 0 <= i < |r|
      ensures r[i].next == Successor(r, i)
    {
      var j := if i < k then i else i + 1;
      assert r[i] == ns[j];
    }
  }

  class LinkedList<T> {
    var length: int
    var head: Node?<T>
    var tail: Node?<T>
    ghost var nodes: seq<Node<T>>

    /**
     An acyclic chain of exactly `length` nodes. `tail` is only meaningful for two nodes or
     more: deleting the only node leaves it pointing at the deleted one.
     */
    ghost predicate Valid()
      reads this, nodes
    {
      && length == |nodes|
      && head == (if nodes == [] then null else nodes[0])
      && Linked(nodes)
      && Owned(nodes, this)
      && (2 <= |nodes| ==> tail == Last(nodes))
    }

    ghost function Contents(): seq<T>
      reads this
    {
      DataOf(nodes)
    }

    constructor InitNode(node: Node<T>)
      requires node.next == null
      modifies node
      ensures Valid() && nodes == [node] && Contents() == [node.data]
    {
      head := node;
      tail := node;
      length := 1;
      nodes := [node];
      new;
      node.home := this;
    }

    constructor InitData(data: T)
      ensures Valid() && fresh(nodes) && Contents() == [data]
    {
      var node := new Node(data);
      head := node;
      tail := node;
      length := 1;
      nodes := [node];
      new;
      node.home := this;
    }

    /** The relinking that push_data and push_node share. */
    method LinkAtHead(node: Node<T>)
      requires Valid() && node !in nodes
      modifies this, node
      ensures Valid() && nodes == [node] + old(nodes)
      ensures Contents() == [node.data] + old(Contents())
    {
      var nextNode := head;
      head := node;
      node.next := nextNode;
      node.home := this;
      if length == 1 {
        tail := nextNode;
      }
      assert nodes != [] ==> tail == Last(nodes);
      length := length + 1;
      nodes := [node] + nodes;
      LinkedPush(node, old(nodes), this);
    }

    method PushData(data: T) returns (ok: int)
      requires Valid()
      modifies this
      ensures Valid() && ok == 1
      ensures |nodes| > 0 && fresh(nodes[0]) && nodes == [nodes[0]] + old(nodes)
      ensures Contents() == [data] + old(Contents())
    {
      var node := new Node(data);
      LinkAtHead(node);
      ok := 1;
    }

    /** Unlike PushData, refuses an empty list. */
    method PushNode(node: Node<T>) returns (ok: int)
      requires Valid() && node !in nodes
      modifies this, node
      ensures Valid()
      ensures ok == if old(nodes) == [] then 0 else 1
      ensures ok == 1 ==> nodes == [node] + old(nodes) && Contents() == [node.data] + old(Contents())
      ensures ok == 0 ==> unchanged(this) && unchanged(node)
    {
      if head == null {
        return 0;
      }
      LinkAtHead(node);
      ok := 1;
    }

    method FindNode(p: T -> bool) returns (n: Node?<T>)
      requires Valid()
      ensures var k := FirstIndex(Contents(), p);
              n == if k < |nodes| then nodes[k] else null
    {
      n := head;
      ghost var i := 0;
      while n != null
        invariant 0 <= i <= |nodes|
        invariant n == if i < |nodes| then nodes[i] else null
        invariant forall k :: 0 <= k < i ==> !p(nodes[k].data)
        decreases |nodes| - i
      {
        if p(n.data) {
          FirstIndexIs(Contents(), p, i);
          return;
        }
        n := n.next;
        i := i + 1;
      }
    }

    /** The walk of DeleteNode: stops at the predecessor of the match or of the last node. */
    method FindPredecessor(p: T -> bool) returns (iter: Node<T>, found: bool, ghost k: nat)
      requires Valid() && 2 <= |nodes| && !p(nodes[0].data)
      ensures 0 < k < |nodes| && iter == nodes[k - 1] && iter.next == nodes[k]
      ensures if found then k == FirstIndex(Contents(), p) && nodes[k].next != null
              else k == |nodes| - 1 <= FirstIndex(Contents(), p)
    {
      iter := head;
      k := 1;
      found := false;
      while iter.next.next != null
        invariant 0 < k < |nodes| && iter == nodes[k - 1] && iter.next == nodes[k]
        invariant forall m :: 0 <= m < k ==> !p(nodes[m].data)
        decreases |nodes| - k
      {
        found := p(iter.next.data);
        if found {
          FirstIndexIs(Contents(), p, k);
          return;
        }
        iter := iter.next;
        k := k + 1;
      }
      found := false;
    }

    /** The bookkeeping of DeleteNode once the links already bypass node k. */
    method Forget(ghost k: nat)
      requires k < |nodes| == length && Distinct(nodes)
      requires head == if k > 0 then nodes[0] else Successor(nodes, 0)
      requires forall i {:trigger nodes[i].next} :: 0 <= i < |nodes| && i != k - 1 ==> nodes[i].next == Successor(nodes, i)
      requires 0 < k ==> nodes[k - 1].next == Successor(nodes, k)
      requires 2 < |nodes| ==> tail == LastBut(nodes, k)
      requires Owned(nodes, this)
      modifies this
      ensures Valid() && nodes == RemoveAt(old(nodes), k)
      ensures Contents() == RemoveAt(old(Contents()), k)
    {
      length := length - 1;
      nodes := RemoveAt(nodes, k);
      LinkedUnlink(old(nodes), k);
      DataOfRemove(old(nodes), k);
      OwnedRemove(old(nodes), k, this);
    }

    method UnlinkInside(iter: Node<T>, ghost k: nat)
      requires Valid() && 0 < k < |nodes| - 1 && iter == nodes[k - 1]
      modifies this, iter
      ensures Valid() && nodes == RemoveAt(old(nodes), k)
      ensures Contents() == RemoveAt(old(Contents()), k)
    {
      assert iter.next == nodes[k] && nodes[k].next == nodes[k + 1];
      iter.next := iter.next.next;
      Forget(k);
    }

    method UnlinkLast(iter: Node<T>)
      requires Valid() && 2 <= |nodes| && iter == nodes[|nodes| - 2]
      modifies this, iter
      ensures Valid() && nodes == RemoveAt(old(nodes), |old(nodes)| - 1)
      ensures Contents() == RemoveAt(old(Contents()), |old(nodes)| - 1)
    {
      tail := iter;
      iter.next := null;
      Forget(|nodes| - 1);
    }

    /** The part of DeleteNode that runs when the head does not match. */
    method DeleteBeyondHead(p: T -> bool) returns (result: int)
      requires Valid() && 2 <= |nodes| && !p(nodes[0].data)
      modifies this, nodes
      ensures Valid()
      ensures var k := FirstIndex(old(Contents()), p);
              if k < |old(nodes)| then
                result == 1 && nodes == RemoveAt(old(nodes), k) && Contents() == RemoveAt(old(Contents()), k)
              else
                result == 0 && unchanged(this) && unchanged(nodes)
    {
      var iter, found, k := FindPredecessor(p);
      if found {
        UnlinkInside(iter, k);
        return 1;
      }
      if p(iter.next.data) {
        UnlinkLast(iter);
        return 1;
      }
      return 0;
    }

    /**
     Unlinks the node that FindNode returns. Where the C code follows a null pointer, `fault` is
     set; the result and the list are then the documented ones (0, and nothing unlinked).
     */
    method DeleteNode(p: T -> bool) returns (result: int, fault: bool)
      requires Valid()
      modifies this, nodes
      ensures Valid()
      ensures fault <==> Undeletable(old(Contents()), p)
      ensures var k := FirstIndex(old(Contents()), p);
              if k < |old(nodes)| then result == 1 && nodes == RemoveAt(old(nodes), k)
              else result == 0 && unchanged(this) && unchanged(nodes)
      ensures Contents() == RemoveFirst(old(Contents()), p)
    {
      var iter := head;
      if iter == null {
        return 0, true;  // the source compares through a null head
      }
      if p(iter.data) {
        head := iter.next;
        Forget(0);
        return 1, false;
      }
      if iter.next == null {
        return 0, true;  // the source reads iter.next.next
      }
      result := DeleteBeyondHead(p);
      fault := false;
    }
  }

  /** Two lists never share a node. */
  lemma ApartNodes<A, B>(l: LinkedList<A>, m: LinkedList<B>)
    requires l.Valid() && m.Valid() && l as object != m
    ensures forall i, j :: 0 <= i < |l.nodes| && 0 <= j < |m.nodes| ==> l.nodes[i] as object != m.nodes[j]
  {
    forall i, j | 0 <= i < |l.nodes| && 0 <= j < |m.nodes|
      ensures l.nodes[i] as object != m.nodes[j]
    {
      assert l.nodes[i].home != m.nodes[j].home;
    }
  }
}
