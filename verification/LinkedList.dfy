/** Circular doubly linked lists with a sentinel, whose nodes can unlink themselves. */
module LinkedLists {
  import opened Bytes

  class LinkedListNode<T> {
    var Succ: LinkedListNode?<T>
    var Pred: LinkedListNode?<T>
    var InList: bool
    var Item: T                              // what a derived class adds
    ghost var Owner: LinkedListNode?<T>      // the sentinel of the list the node is in

    constructor (item: T)
      ensures !InList && Item == item && Succ == null && Pred == null && Owner == null
    {
      Succ, Pred, InList, Item, Owner := null, null, false, item, null;
    }

    /** The fields one Unlink can touch: its own, and the links of the neighbours. */
    method Unlink()
      requires InList ==> Succ != null && Pred != null
      modifies `InList, (if InList then {Succ} else {})`Pred, (if InList then {Pred} else {})`Succ
      ensures !InList
      ensures old(InList) ==> old(Succ).Pred == old(Pred) && old(Pred).Succ == old(Succ)
    {
      if InList {
        Succ.Pred := Pred;
        Pred.Succ := Succ;
        InList := false;
      }
    }
  }

  /** Position i in the ring that runs through the sentinel s and the nodes ns. */
  ghost function At<T>(s: LinkedListNode<T>, ns: seq<LinkedListNode<T>>, i: int): LinkedListNode<T>
  {
    if 0 <= i < |ns| then ns[i] else s
  }

  ghost predicate Linked<T>(s: LinkedListNode<T>, ns: seq<LinkedListNode<T>>, i: int)
    reads s`Succ, s`Pred, ns`Succ, ns`Pred
  {
    At(s, ns, i).Succ == At(s, ns, i + 1) && At(s, ns, i + 1).Pred == At(s, ns, i)
  }

  ghost predicate Ring<T>(s: LinkedListNode<T>, ns: seq<LinkedListNode<T>>)
    reads s`Succ, s`Pred, s`InList, s`Owner, ns`Succ, ns`Pred, ns`InList, ns`Owner
  {
    && s.Owner == s && !s.InList
    && (forall i :: 0 <= i < |ns| ==> ns[i].Owner == s && ns[i] != s && ns[i].InList)
    && (forall i, j :: 0 <= i < j < |ns| ==> ns[i] != ns[j])
    && (forall i :: -1 <= i < |ns| ==> Linked(s, ns, i))
  }

  /** A ring that bypasses its k-th node is the ring of the other nodes. */
  lemma RingCut<T>(s: LinkedListNode<T>, ns: seq<LinkedListNode<T>>, k: nat)
    requires k < |ns| && s.Owner == s && !s.InList
    requires forall i :: 0 <= i < |ns| && i != k ==> ns[i].Owner == s && ns[i] != s && ns[i].InList
    requires forall i, j :: 0 <= i < j < |ns| ==> ns[i] != ns[j]
    requires forall i :: -1 <= i < |ns| && i != k - 1 && i != k ==> Linked(s, ns, i)
    requires At(s, ns, k - 1).Succ == At(s, ns, k + 1) && At(s, ns, k + 1).Pred == At(s, ns, k - 1)
    ensures Ring(s, ns[..k] + ns[k + 1..])
  {
    var cut := ns[..k] + ns[k + 1..];
    forall i | -1 <= i < |cut|
      ensures Linked(s, cut, i)
    {
      assert i < k - 1 ==> Linked(s, ns, i);
      assert i >= k ==> Linked(s, ns, i + 1);
    }
  }

  class LinkedList<T> {
    const sentinel: LinkedListNode<T>
    ghost var nodes: seq<LinkedListNode<T>>
    ghost var Repr: set<object>

    ghost predicate Valid()
      reads this, Repr
    {
      && this in Repr && sentinel in Repr && (forall n :: n in nodes ==> n in Repr)
      && Ring(sentinel, nodes)
    }

    constructor (nothing: T)
      ensures Valid() && nodes == [] && fresh(Repr)
    {
      sentinel := new LinkedListNode<T>(nothing);
      nodes := [];
      new;
      Repr := {this, sentinel};
      sentinel.Succ, sentinel.Pred, sentinel.Owner := sentinel, sentinel, sentinel;
      assert Linked(sentinel, nodes, -1);
    }

    predicate IsNode(node: LinkedListNode?<T>)
    {
      node != null && node != sentinel
    }

    predicate IsEmpty()
      reads sentinel
    {
      sentinel.Succ == sentinel
    }

    lemma EmptyIff()
      requires Valid()
      ensures IsEmpty() <==> nodes == []
    {
      assert Linked(sentinel, nodes, -1);
    }

    /** What linking and unlinking leave alone. */
    twostate predicate SameItems(ns: seq<LinkedListNode<T>>)
      reads ns
    {
      forall n :: n in ns ==> n.Item == old(n.Item)
    }

    /** A node of this list unlinks itself. */
    method Detach(node: LinkedListNode<T>)
      requires Valid() && node in nodes
      modifies Repr
      ensures Valid() && nodes == Without(old(nodes), node) && Repr == old(Repr) - {node}
      ensures !node.InList && node !in nodes && SameItems(old(nodes))
    {
      Leave(node, this);
    }

    /** The node does not know which list it is in. */
    static method Leave(node: LinkedListNode<T>, ghost list: LinkedList<T>)
      requires list.Valid() && node in list.nodes
      modifies list.Repr
      ensures list.Valid() && list.nodes == Without(old(list.nodes), node) && list.Repr == old(list.Repr) - {node}
      ensures !node.InList && node !in list.nodes && list.SameItems(old(list.nodes))
    {
      ghost var k :| 0 <= k < |list.nodes| && list.nodes[k] == node;
      ghost var cut := list.nodes[..k] + list.nodes[k + 1..];
      WithoutAt(list.nodes, k);
      Bypass(node, list, k);
      RingCut(list.sentinel, list.nodes, k);
      list.nodes, list.Repr := cut, list.Repr - {node};
      assert node !in cut;
    }

    /** The node is out of the ring, which is otherwise as it was. */
    static method Bypass(node: LinkedListNode<T>, ghost list: LinkedList<T>, ghost k: nat)
      requires list.Valid() && k < |list.nodes| && node == list.nodes[k]
      modifies list.Repr - {list}
      ensures list.sentinel.Owner == list.sentinel && !list.sentinel.InList && !node.InList
      ensures list.SameItems(list.nodes)
      ensures forall i :: 0 <= i < |list.nodes| && i != k ==>
        list.nodes[i].Owner == list.sentinel && list.nodes[i].InList
      ensures forall i :: -1 <= i < |list.nodes| && i != k - 1 && i != k ==> Linked(list.sentinel, list.nodes, i)
      ensures At(list.sentinel, list.nodes, k - 1).Succ == At(list.sentinel, list.nodes, k + 1)
      ensures At(list.sentinel, list.nodes, k + 1).Pred == At(list.sentinel, list.nodes, k - 1)
    {
      ghost var sentinel, nodes := list.sentinel, list.nodes;
      assert Linked(sentinel, nodes, k - 1) && Linked(sentinel, nodes, k);
      node.Unlink();
      node.Owner := null;
      forall i | -1 <= i < |nodes| && i != k - 1 && i != k
        ensures Linked(sentinel, nodes, i)
      {
        assert old(Linked(sentinel, nodes, i));
      }
    }

    /** Whether a node is free, or in the list `from`, which is this one or has nothing in common with it. */
    ghost predicate CanTake(node: LinkedListNode<T>, from: LinkedList<T>)
      reads this, Repr, node, from, from.Repr
    {
      && Valid() && from.Valid() && node != sentinel
      && (from != this ==> from.Repr !! Repr && node !in Repr && node != from.sentinel)
      && (node.InList ==> node in from.nodes)
      && (!node.InList && from != this ==> node !in from.Repr)
    }

    /** The node comes from wherever it is. */
    method AddHead(node: LinkedListNode<T>, ghost from: LinkedList<T>)
      requires CanTake(node, from)
      modifies Repr, from.Repr, node
      ensures Valid() && nodes == [node] + Without(old(nodes), node) && Repr == old(Repr) + {node}
      ensures from.Valid() && (from != this ==> from.nodes == Without(old(from.nodes), node))
      ensures from != this ==> from.Repr == old(from.Repr) - {node}
      ensures SameItems([node] + old(nodes)) && SameItems(old(from.nodes))
    {
      WithoutHolds(nodes, node);
      if node.InList {
        Leave(node, from);
      }
      LinkHead(node);
    }

    method LinkHead(node: LinkedListNode<T>)
      requires Valid() && node != sentinel && !node.InList
      modifies Repr, node
      ensures Valid() && nodes == [node] + old(nodes) && Repr == old(Repr) + {node}
      ensures SameItems([node] + old(nodes))
    {
      ghost var was := nodes;
      assert Linked(sentinel, nodes, -1);
      sentinel.Succ.Pred := node;
      node.Pred := sentinel;
      node.Succ := sentinel.Succ;
      sentinel.Succ := node;
      node.InList := true;
      node.Owner := sentinel;
      nodes, Repr := [node] + nodes, Repr + {node};
      forall i | -1 <= i < |nodes|
        ensures Linked(sentinel, nodes, i)
      {
        if i >= 1 {
          assert old(Linked(sentinel, was, i - 1));
        }
      }
    }

    method AddTail(node: LinkedListNode<T>, ghost from: LinkedList<T>)
      requires CanTake(node, from)
      modifies Repr, from.Repr, node
      ensures Valid() && nodes == Without(old(nodes), node) + [node] && Repr == old(Repr) + {node}
      ensures from.Valid() && (from != this ==> from.nodes == Without(old(from.nodes), node))
      ensures from != this ==> from.Repr == old(from.Repr) - {node}
      ensures SameItems([node] + old(nodes)) && SameItems(old(from.nodes))
    {
      WithoutHolds(nodes, node);
      if node.InList {
        Leave(node, from);
      }
      LinkTail(node);
    }

    method LinkTail(node: LinkedListNode<T>)
      requires Valid() && node != sentinel && !node.InList
      modifies Repr, node
      ensures Valid() && nodes == old(nodes) + [node] && Repr == old(Repr) + {node}
      ensures SameItems([node] + old(nodes))
    {
      ghost var was := nodes;
      assert Linked(sentinel, nodes, |nodes| - 1);
      sentinel.Pred.Succ := node;
      node.Succ := sentinel;
      node.Pred := sentinel.Pred;
      sentinel.Pred := node;
      node.InList := true;
      node.Owner := sentinel;
      nodes, Repr := nodes + [node], Repr + {node};
      forall i | -1 <= i < |nodes|
        ensures Linked(sentinel, nodes, i)
      {
        if i < |was| - 1 {
          assert old(Linked(sentinel, was, i));
        }
      }
    }

    method RemHead() returns (node: LinkedListNode?<T>)
      requires Valid()
      modifies Repr
      ensures Valid() && SameItems(old(nodes)) && Repr <= old(Repr)
      ensures old(nodes) == [] ==> node == null && nodes == []
      ensures old(nodes) != [] ==> node == old(nodes)[0] && nodes == old(nodes)[1..] && !node.InList
    {
      node := null;
      EmptyIff();
      if !IsEmpty() {
        assert Linked(sentinel, nodes, -1);
        WithoutAt(nodes, 0);
        node := sentinel.Succ;
        Detach(node);
      }
    }

    method RemTail() returns (node: LinkedListNode?<T>)
      requires Valid()
      modifies Repr
      ensures Valid() && SameItems(old(nodes)) && Repr <= old(Repr)
      ensures old(nodes) == [] ==> node == null && nodes == []
      ensures old(nodes) != [] ==>
        node == old(nodes)[|old(nodes)| - 1] && nodes == old(nodes)[..|old(nodes)| - 1] && !node.InList
    {
      node := null;
      EmptyIff();
      if !IsEmpty() {
        assert Linked(sentinel, nodes, |nodes| - 1);
        WithoutAt(nodes, |nodes| - 1);
        node := sentinel.Pred;
        Detach(node);
      }
    }

    method Count() returns (num: nat)
      requires Valid()
      ensures num == |nodes|
    {
      assert Linked(sentinel, nodes, -1);
      var node := sentinel.Succ;
      num := 0;
      while IsNode(node)
        invariant num <= |nodes| && node == At(sentinel, nodes, num)
        decreases |nodes| - num
      {
        assert Linked(sentinel, nodes, num);
        node := node.Succ;
        num := num + 1;
      }
    }
  }
}
