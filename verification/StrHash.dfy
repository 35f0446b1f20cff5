/** StrHash: an array of linked lists that stays the table of HashTables. */
module StrHashes {
  import opened Bytes
  import opened LinkedLists
  import opened CStrings
  import opened HashTables

  type HashItem = LinkedListNode<Entry>

  ghost function ItemsOf(ns: seq<HashItem>): (b: Bucket)
    reads ns
    ensures |b| == |ns| && forall i :: 0 <= i < |ns| ==> b[i] == ns[i].Item
  {
    seq(|ns|, i requires 0 <= i < |ns| reads ns => ns[i].Item)
  }

  /** new LinkedList[ size ] */
  method NewBuckets(size: nat) returns (items: seq<LinkedList<Entry>>, ghost repr: set<object>)
    ensures |items| == size && fresh(repr)
    ensures forall g :: 0 <= g < size ==> items[g] in repr && items[g].Repr <= repr
    ensures forall g :: 0 <= g < size ==> items[g].Valid() && items[g].nodes == []
    ensures forall f, g :: 0 <= f < g < size ==> items[f].Repr !! items[g].Repr
  {
    items, repr := [], {};
    for h := 0 to size
      invariant |items| == h && fresh(repr)
      invariant forall g :: 0 <= g < h ==> items[g] in repr && items[g].Repr <= repr
      invariant forall g :: 0 <= g < h ==> items[g].Valid() && items[g].nodes == []
      invariant forall f, g :: 0 <= f < g < h ==> items[f].Repr !! items[g].Repr
    {
      var list := new LinkedList<Entry>(Entry([], 0));
      items := items + [list];
      repr := repr + list.Repr;
    }
  }

  /** AddHead of a free item, seen through the contents. */
  method PushFront(list: LinkedList<Entry>, item: HashItem)
    requires list.Valid() && item !in list.Repr && !item.InList
    modifies list.Repr, item
    ensures list.Valid() && list.Repr == old(list.Repr) + {item}
    ensures ItemsOf(list.nodes) == [old(item.Item)] + old(ItemsOf(list.nodes))
  {
    ghost var was, items, first := list.nodes, ItemsOf(list.nodes), item.Item;
    assert item !in was && item != list.sentinel;
    list.AddHead(item, list);
    assert list.nodes == [item] + was;
    forall i | 0 <= i <= |was|
      ensures ItemsOf(list.nodes)[i] == ([first] + items)[i]
    {
      if i > 0 {
        assert was[i - 1] in [item] + was;
      }
    }
  }

  class StrHash {
    const Items: seq<LinkedList<Entry>>   // the objects of the array
    var NumItems: nat
    ghost var Repr: set<object>

    /** The buckets are well-formed rings that share no node. */
    ghost predicate Linked()
      reads `Repr, Repr
    {
      && this !in Repr && |Items| > 0
      && (forall h :: 0 <= h < |Items| ==> Items[h] in Repr && Items[h].Repr <= Repr && Items[h].Valid())
      && (forall g, h :: 0 <= g < h < |Items| ==> Items[g].Repr !! Items[h].Repr)
    }

    ghost function Contents(): (t: Table)
      requires Linked()
      reads this, Repr
      ensures |t| == |Items| && forall h :: 0 <= h < |t| ==> t[h] == ItemsOf(Items[h].nodes)
    {
      seq(|Items|, h requires 0 <= h < |Items| && Linked() reads this, Repr => ItemsOf(Items[h].nodes))
    }

    ghost predicate Valid()
      reads this, Repr
    {
      Linked() && Inv(Contents()) && NumItems == |Flatten(Contents())|
    }

    constructor (size: nat)
      requires size > 0
      ensures Valid() && Contents() == EmptyTable(size) && NumItems == 0 && fresh(Repr)
    {
      var items, repr := NewBuckets(size);
      Items, NumItems, Repr := items, 0, repr;
      new;
      StartsEmpty();
    }

    lemma StartsEmpty()
      requires Linked() && NumItems == 0 && forall h :: 0 <= h < |Items| ==> Items[h].nodes == []
      ensures Valid() && Contents() == EmptyTable(|Items|)
    {
      var t := Contents();
      assert forall h :: 0 <= h < |t| ==> t[h] == [] == EmptyTable(|Items|)[h];
      assert t == EmptyTable(|Items|);
      EmptyTableInv(|Items|);
    }

    method ComputeHash(str: CString) returns (hash: nat)
      requires |Items| > 0
      ensures hash == Hash(str, |Items|)
    {
      var code: nat := 0;
      for i := 0 to |str|
        invariant code < 0x1_0000_0000 && Code(code, str[i..]) == Code(0, str)
      {
        code := U32(code * 32 + ToLower(str[i]));
      }
      hash := code % |Items|;
    }

    method Find(str: CString) returns (node: LinkedListNode?<Entry>, hash: nat, ghost i: nat)
      requires Valid()
      ensures hash == Hash(str, |Items|) && i == Search(Contents()[hash], str)
      ensures node == if i < |Items[hash].nodes| then Items[hash].nodes[i] else null
    {
      hash := ComputeHash(str);
      var list := Items[hash];
      ghost var b := Contents()[hash];
      assert LinkedLists.Linked(list.sentinel, list.nodes, -1);
      node, i := list.sentinel.Succ, 0;
      while list.IsNode(node) && !SameCase(node.Item.key, str)
        invariant i <= |list.nodes| && node == At(list.sentinel, list.nodes, i)
        invariant forall j :: 0 <= j < i ==> !SameCase(b[j].key, str)
        decreases |list.nodes| - i
      {
        assert LinkedLists.Linked(list.sentinel, list.nodes, i);
        node, i := node.Succ, i + 1;
      }
      if !list.IsNode(node) {
        node := null;
      }
    }

    method FindData(str: CString) returns (data: Option<int>)
      requires Valid()
      ensures data == HashTables.Find(Contents(), str)
    {
      var item, hash, i := Find(str);
      data := if item != null then Some(item.Item.data) else None;
    }

    /** The buckets hold b in place h, and elsewhere what t has. */
    ghost predicate Changed(t: Table, h: nat, b: Bucket)
      requires |t| == |Items| && h < |t|
      reads this, Repr
    {
      && Linked() && ItemsOf(Items[h].nodes) == b
      && forall g :: 0 <= g < |t| && g != h ==> ItemsOf(Items[g].nodes) == t[g]
    }

    lemma ContentsChanged(t: Table, h: nat, b: Bucket)
      requires |t| == |Items| && h < |t| && Changed(t, h, b)
      ensures Contents() == t[h := b]
    {}

    /** Items[ hash ].AddHead( item ) */
    method LinkItem(hash: nat, item: HashItem)
      requires Linked() && hash < |Items| && item in Repr && !item.InList
      requires forall h :: 0 <= h < |Items| ==> item !in Items[h].Repr
      modifies Repr
      ensures Repr == old(Repr) && NumItems == old(NumItems)
      ensures Changed(old(Contents()), hash, [old(item.Item)] + old(Contents())[hash])
    {
      PushItem(hash, item);
    }

    method PushItem(hash: nat, item: HashItem)
      requires hash < |Items| && !item.InList && forall h :: 0 <= h < |Items| ==> item !in Items[h].Repr
      requires forall h :: 0 <= h < |Items| ==> Items[h].Valid()
      requires forall h :: 0 <= h < |Items| && h != hash ==> Items[h].Repr !! Items[hash].Repr
      modifies Items[hash].Repr, item
      ensures Items[hash].Valid() && Items[hash].Repr == old(Items[hash].Repr) + {item}
      ensures ItemsOf(Items[hash].nodes) == [old(item.Item)] + old(ItemsOf(Items[hash].nodes))
      ensures forall g :: 0 <= g < |Items| && g != hash ==>
        && Items[g].Valid() && Items[g].Repr == old(Items[g].Repr)
        && ItemsOf(Items[g].nodes) == old(ItemsOf(Items[g].nodes))
    {
      PushFront(Items[hash], item);
      forall g | 0 <= g < |Items| && g != hash
        ensures Items[g].Valid() && Items[g].Repr == old(Items[g].Repr)
        ensures ItemsOf(Items[g].nodes) == old(ItemsOf(Items[g].nodes))
      {
        assert old(Items[g].Valid());
      }
    }

    /** item->Unlink(), the item being number i of its bucket. */
    method UnlinkItem(hash: nat, item: HashItem, ghost i: nat)
      requires Linked() && hash < |Items| && i < |Items[hash].nodes| && item == Items[hash].nodes[i]
      modifies Repr
      ensures Repr == old(Repr) && NumItems == old(NumItems)
      ensures Changed(old(Contents()), hash, old(Contents())[hash][..i] + old(Contents())[hash][i + 1..])
    {
      PullItem(hash, item, i);
    }

    method PullItem(hash: nat, item: HashItem, ghost i: nat)
      requires hash < |Items| && i < |Items[hash].nodes| && item == Items[hash].nodes[i]
      requires forall h :: 0 <= h < |Items| ==> Items[h].Valid()
      requires forall h :: 0 <= h < |Items| && h != hash ==> Items[h].Repr !! Items[hash].Repr
      modifies Items[hash].Repr
      ensures Items[hash].Valid() && Items[hash].Repr <= old(Items[hash].Repr)
      ensures ItemsOf(Items[hash].nodes) == old(ItemsOf(Items[hash].nodes)[..i] + ItemsOf(Items[hash].nodes)[i + 1..])
      ensures forall g :: 0 <= g < |Items| && g != hash ==>
        && Items[g].Valid() && Items[g].Repr == old(Items[g].Repr)
        && ItemsOf(Items[g].nodes) == old(ItemsOf(Items[g].nodes))
    {
      assert Items[hash].Valid();
      WithoutAt(Items[hash].nodes, i);
      Items[hash].Detach(item);
      forall g | 0 <= g < |Items| && g != hash
        ensures Items[g].Valid() && Items[g].Repr == old(Items[g].Repr)
        ensures ItemsOf(Items[g].nodes) == old(ItemsOf(Items[g].nodes))
      {
        assert old(Items[g].Valid());
      }
    }

    /** item->Data = data */
    method SetItemData(ghost hash: nat, item: HashItem, data: int, ghost i: nat)
      requires Linked() && hash < |Items| && i < |Items[hash].nodes| && item == Items[hash].nodes[i]
      modifies item
      ensures Changed(old(Contents()), hash, old(Contents())[hash][i := old(item.Item).(data := data)])
    {
      assert Items[hash].Valid();
      item.Item := item.Item.(data := data);
      assert Ring(Items[hash].sentinel, Items[hash].nodes);
    }

    /** The new item of Add. */
    method Insert(hash: nat, str: CString, data: int)
      requires Linked() && hash < |Items|
      modifies this, Repr
      ensures Linked() && fresh(Repr - old(Repr)) && NumItems == old(NumItems) + 1
      ensures Contents() == old(Contents())[hash := [Entry(str, data)] + old(Contents())[hash]]
    {
      ghost var t := Contents();
      var item := new LinkedListNode<Entry>(Entry(str, data));
      NumItems, Repr := NumItems + 1, Repr + {item};
      assert Linked() && Contents() == t;
      LinkItem(hash, item);
      ContentsChanged(t, hash, [Entry(str, data)] + t[hash]);
    }

    method Add(str: CString, data: int) returns (ret: bool)
      requires Valid()
      modifies this, Repr
      ensures Valid() && fresh(Repr - old(Repr))
      ensures Contents() == HashTables.Add(old(Contents()), str, data)
      ensures ret == HashTables.Find(old(Contents()), str).None?
    {
      var item, hash, i := Find(str);
      ret := item == null;
      ghost var t := Contents();
      if ret {
        AddNew(t, str, data);
        Insert(hash, str, data);
      }
    }

    method ReplaceEntry(ghost str: CString, item: HashItem, data: int, ghost hash: nat, ghost i: nat)
      requires Valid() && hash == Hash(str, |Items|) && i == Search(Contents()[hash], str)
      requires i < |Items[hash].nodes| && item == Items[hash].nodes[i]
      modifies item
      ensures Valid() && Contents() == HashTables.Replace(old(Contents()), str, data)
    {
      ghost var t := Contents();
      ReplaceFound(t, str, data, i);
      SetItemData(hash, item, data, i);
      ContentsChanged(t, hash, t[hash][i := t[hash][i].(data := data)]);
    }

    method Replace(str: CString, data: int)
      requires Valid()
      modifies this, Repr
      ensures Valid() && fresh(Repr - old(Repr))
      ensures Contents() == HashTables.Replace(old(Contents()), str, data)
    {
      var item, hash, i := Find(str);
      if item != null {
        assert Items[hash].Valid();
        ReplaceEntry(str, item, data, hash, i);
      } else {
        var ret := Add(str, data);
      }
    }

    /** Remove( HashItem * ) */
    method RemoveItem(item: HashItem, hash: nat, ghost i: nat)
      requires Linked() && hash < |Items| && i < |Items[hash].nodes| && item == Items[hash].nodes[i]
      requires NumItems > 0
      modifies this, Repr
      ensures Linked() && Repr == old(Repr) && NumItems == old(NumItems) - 1
      ensures Contents() == old(Contents())[hash := old(Contents())[hash][..i] + old(Contents())[hash][i + 1..]]
    {
      ghost var t := Contents();
      NumItems := NumItems - 1;
      assert Linked() && Contents() == t;
      UnlinkItem(hash, item, i);
      ContentsChanged(t, hash, t[hash][..i] + t[hash][i + 1..]);
    }

    method RemoveEntry(ghost str: CString, item: HashItem, hash: nat, ghost i: nat)
      requires Valid() && hash == Hash(str, |Items|) && i == Search(Contents()[hash], str)
      requires i < |Items[hash].nodes| && item == Items[hash].nodes[i]
      modifies this, Repr
      ensures Valid() && Repr == old(Repr)
      ensures Contents() == HashTables.Remove(old(Contents()), str)
    {
      ghost var t := Contents();
      RemovedOne(t, str, hash, i);
      RemoveItem(item, hash, i);
    }

    method Remove(str: CString)
      requires Valid()
      modifies this, Repr
      ensures Valid() && Repr == old(Repr)
      ensures Contents() == HashTables.Remove(old(Contents()), str)
    {
      var item, hash, i := Find(str);
      if item != null {
        RemoveEntry(str, item, hash, i);
      }
    }

    /** The index-th entry; the walk never leaves the array of buckets. */
    method GetData(index: int) returns (data: Option<int>)
      requires Valid()
      ensures data == if 0 <= index < NumItems then Some(Flatten(Contents())[index].data) else None
    {
      data := None;
      if 0 <= index < NumItems {
        var left, n := index, 0;
        ghost var t := Contents();
        var node: LinkedListNode?<Entry> := null;
        while left >= 0
          invariant 0 <= n <= |Items| && left >= -1
          invariant left >= 0 ==> left < |Flatten(t[n..])| && Flatten(t[n..])[left] == Flatten(t)[index]
          invariant left < 0 ==> node != null && node.Item == Flatten(t)[index]
          decreases |Items| - n
        {
          var list := Items[n];
          assert t[n..][0] == ItemsOf(list.nodes) && t[n..][1..] == t[n + 1..];
          node, left := WalkBucket(list, left);
          n := n + 1;
        }
        data := Some(node.Item.data);
      }
    }
  }

  /** The inner loop of GetData: `left` drops to -1 on the node wanted, if it is here. */
  method WalkBucket(list: LinkedList<Entry>, index: nat) returns (node: HashItem, left: int)
    requires list.Valid()
    ensures index < |list.nodes| ==> left == -1 && node == list.nodes[index]
    ensures index >= |list.nodes| ==> left == index - |list.nodes|
  {
    assert LinkedLists.Linked(list.sentinel, list.nodes, -1);
    node, left := list.sentinel.Succ, index;
    ghost var i := 0;
    while left >= 0 && list.IsNode(node)
      invariant 0 <= i <= |list.nodes|
      invariant left >= 0 ==> left == index - i && node == At(list.sentinel, list.nodes, i)
      invariant left < 0 ==> left == -1 && index < |list.nodes| && node == list.nodes[index]
      decreases left + 1
    {
      assert LinkedLists.Linked(list.sentinel, list.nodes, i);
      left := left - 1;
      if left >= 0 {
        node, i := node.Succ, i + 1;
      }
    }
  }
}
