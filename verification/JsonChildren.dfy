/** The child lists of cjson.c: nodes linked both ways, a null `prev` at the head. */
module JsonChildren {
  import opened Common

  /** What the list functions use of a `cjson_t`. */
  class Node {
    var next: Node?
    var prev: Node?
    var name: string

    constructor (name: string)
      ensures next == null && prev == null && this.name == name
    {
      next, prev, this.name := null, null, name;
    }
  }

  /** The node at place `i`, null at either end. */
  function At(items: seq<Node>, i: int): Node? {
    if 0 <= i < |items| then items[i] else null
  }

  ghost predicate Distinct(items: seq<Node>) {
    forall i, j {:trigger Look(i), Look(j)} :: Look(i) && Look(j) && 0 <= i < j < |items| ==> items[i] != items[j]
  }

  /** `next` and `prev` are those of the sequence. */
  ghost predicate Linked(items: seq<Node>)
    reads items
  {
    forall i {:trigger Look(i)} :: Look(i) && 0 <= i < |items| ==> LinkedAt(items, i)
  }

  ghost predicate LinkedAt(items: seq<Node>, i: int)
    requires 0 <= i < |items|
    reads items
  {
    items[i].next == At(items, i + 1) && items[i].prev == At(items, i - 1)
  }

  /** The nodes follow one another; what stands before the first one is left open. */
  ghost predicate Chained(chain: seq<Node>)
    reads chain
  {
    forall k {:trigger Look(k)} :: Look(k) && 0 <= k < |chain| ==>
      chain[k].next == At(chain, k + 1) && (k > 0 ==> chain[k].prev == At(chain, k - 1))
  }

  /** A single node with no other behind it, which is in no list yet, may be appended. */
  lemma SingleChain(items: seq<Node>, item: Node)
    requires Distinct(items) && item !in items && item.next == null
    ensures Distinct(items + [item]) && Chained([item])
  {
    InsertedDistinct(items, |items|, item);
    assert Inserted(items, |items|, item) == items + [item];
  }

  lemma OnePlace(items: seq<Node>, i: nat, j: nat)
    requires Distinct(items) && i < |items| && j < |items| && i != j
    ensures items[i] != items[j]
  {
    assert Look(i) && Look(j);
  }

  /** The nodes around a place are at no other place. */
  lemma Neighbours(items: seq<Node>, i: nat)
    requires Distinct(items) && i < |items|
    ensures Look(i) && Look(i - 1) && Look(i + 1) && Look(0)
    ensures forall k {:trigger Look(k)} :: Look(k) && 0 <= k < |items| ==>
      && (k != i ==> items[k] != items[i])
      && (k != i - 1 ==> items[k] != At(items, i - 1))
      && (k != i + 1 ==> items[k] != At(items, i + 1))
  {
    assert Look(i) && Look(i - 1) && Look(i + 1);
  }

  lemma InsertedDistinct(items: seq<Node>, i: nat, item: Node)
    requires Distinct(items) && i <= |items| && item !in items
    ensures Distinct(Inserted(items, i, item))
  {
    var r := Inserted(items, i, item);
    forall j, k | 0 <= j < k < |r| ensures r[j] != r[k] {
      assert Look(if j < i then j else j - 1) && Look(if k < i then k else k - 1);
    }
  }

  lemma RemovedDistinct(items: seq<Node>, i: nat)
    requires Distinct(items) && i < |items|
    ensures Distinct(Removed(items, i)) && items[i] !in Removed(items, i)
  {
    var r := Removed(items, i);
    forall j, k | 0 <= j < k < |r| ensures r[j] != r[k] {
      assert Look(if j < i then j else j + 1) && Look(if k < i then k else k + 1);
    }
    forall j | 0 <= j < |r| ensures r[j] != items[i] {
      OnePlace(items, i, if j < i then j else j + 1);
    }
  }

  lemma ReplacedDistinct(items: seq<Node>, i: nat, item: Node)
    requires Distinct(items) && i < |items| && item !in items
    ensures Distinct(items[i := item]) && items[i] !in items[i := item]
  {
    var r := items[i := item];
    forall j, k | 0 <= j < k < |items| ensures r[j] != r[k] {
      assert Look(j) && Look(k);
    }
    forall j | 0 <= j < |items| ensures r[j] != items[i] {
      if j != i {
        OnePlace(items, i, j);
      }
    }
  }

  function Inserted(items: seq<Node>, i: nat, item: Node): seq<Node>
    requires i <= |items|
  {
    items[..i] + [item] + items[i..]
  }

  function Removed(items: seq<Node>, i: nat): seq<Node>
    requires i < |items|
  {
    items[..i] + items[i + 1..]
  }

  // ---------- the lists after their links have been changed ----------

  /** Around place `i` the links lead to and from the new node. */
  ghost predicate Spliced(items: seq<Node>, i: nat, item: Node)
    requires i < |items|
    reads items, item
  {
    && item.next == items[i] && item.prev == At(items, i - 1)
    && forall k {:trigger Look(k)} :: Look(k) && 0 <= k < |items| ==>
         && items[k].next == (if k == i - 1 then item else At(items, k + 1))
         && items[k].prev == (if k == i then item else At(items, k - 1))
  }

  lemma SplicedLinked(items: seq<Node>, i: nat, item: Node)
    requires i < |items| && Spliced(items, i, item)
    ensures Linked(Inserted(items, i, item))
  {
    var r := Inserted(items, i, item);
    forall j | 0 <= j < |r| ensures LinkedAt(r, j) {
      assert Look(if j < i then j else j - 1);
    }
  }

  /** Around place `i` the links lead past its node. */
  ghost predicate Cut(items: seq<Node>, i: nat)
    requires i < |items|
    reads items
  {
    forall k {:trigger Look(k)} :: Look(k) && 0 <= k < |items| && k != i ==>
      && items[k].next == (if k == i - 1 then At(items, i + 1) else At(items, k + 1))
      && items[k].prev == (if k == i + 1 then At(items, i - 1) else At(items, k - 1))
  }

  lemma CutLinked(items: seq<Node>, i: nat)
    requires i < |items| && Cut(items, i)
    ensures Linked(Removed(items, i))
  {
    var r := Removed(items, i);
    forall j | 0 <= j < |r| ensures LinkedAt(r, j) {
      assert Look(if j < i then j else j + 1);
    }
  }

  /** Around place `i` the links lead to and from the new node instead of the old one. */
  ghost predicate Swapped(items: seq<Node>, i: nat, item: Node)
    requires i < |items|
    reads items, item
  {
    && item.next == At(items, i + 1) && item.prev == At(items, i - 1)
    && forall k {:trigger Look(k)} :: Look(k) && 0 <= k < |items| && k != i ==>
         && items[k].next == (if k == i - 1 then item else At(items, k + 1))
         && items[k].prev == (if k == i + 1 then item else At(items, k - 1))
  }

  lemma SwappedLinked(items: seq<Node>, i: nat, item: Node)
    requires i < |items| && Swapped(items, i, item)
    ensures Linked(items[i := item])
  {
    var r := items[i := item];
    forall j | 0 <= j < |r| ensures LinkedAt(r, j) {
      assert Look(j);
    }
  }

  /** A negative index stands for the first place. */
  function Place(which: int): nat {
    if which < 0 then 0 else which
  }

  /** The first child of a name that compares equal, or the number of children. */
  function FirstNamed(items: seq<Node>, same: (string, string) -> bool, name: string): (i: nat)
    reads items
    ensures i <= |items|
  {
    if items == [] then 0
    else if same(items[0].name, name) then 0
    else 1 + FirstNamed(items[1..], same, name)
  }

  /** An array or object: its `child` and, for reasoning, the children in order. */
  class Parent {
    var child: Node?
    ghost var items: seq<Node>

    ghost predicate Valid()
      reads this, items
    {
      child == At(items, 0) && Distinct(items) && Linked(items)
    }

    constructor ()
      ensures Valid() && items == []
    {
      child, items := null, [];
    }

    /** The walk that all functions begin with. */
    method Walk(which: int) returns (c: Node?)
      requires Valid()
      ensures c == At(items, Place(which))
    {
      c := child;
      var left := which;
      ghost var i := 0;
      while c != null && left > 0
        invariant 0 <= i <= |items| && c == At(items, i)
        invariant if left > 0 then i + left == which else i == Place(which)
        decreases |items| - i
      {
        assert Look(i);
        c := c.next;
        left := left - 1;
        i := i + 1;
      }
    }

    /** `cjson_get_array_item`. */
    method GetArrayItem(item: int) returns (c: Node?)
      requires Valid()
      ensures c == At(items, Place(item))
    {
      c := Walk(item);
    }

    /**
      A chain that may be put behind the last child: mostly a single node, but the list functions take
      whatever hangs on its `next`. The `prev` of the first node is overwritten unless there are no children.
      */
    ghost predicate Appendable(item: Node, chain: seq<Node>)
      reads this, item, chain
    {
      && chain != [] && chain[0] == item && Distinct(items + chain) && Chained(chain)
      && (items == [] ==> item.prev == null)
    }

    /** `cjson_add_item_to_array`. */
    method AddItem(item: Node?, ghost chain: seq<Node>)
      requires Valid() && (item != null ==> Appendable(item, chain))
      modifies this, items, item
      ensures Valid() && items == if item == null then old(items) else old(items) + chain
    {
      if item == null {
        return;
      }
      var c := child;
      if c == null {
        child := item;
      } else {
        ghost var i := 0;
        while c.next != null
          invariant 0 <= i < |items| && c == items[i]
          decreases |items| - i
        {
          assert Look(i);
          c := c.next;
          i := i + 1;
        }
        assert Look(i);
        assert forall k :: 0 <= k < |items + chain| && k != i ==> (items + chain)[k] != (items + chain)[i] by {
          forall k | 0 <= k < |items + chain| && k != i ensures (items + chain)[k] != (items + chain)[i] {
            OnePlace(items + chain, k, i);
          }
        }
        assert forall k :: 0 <= k < |items + chain| && k != |items| ==> (items + chain)[k] != item by {
          forall k | 0 <= k < |items + chain| && k != |items| ensures (items + chain)[k] != item {
            OnePlace(items + chain, k, |items|);
          }
        }
        c.next := item;
        item.prev := c;
      }
      ghost var was := items;
      items := items + chain;
      forall j | 0 <= j < |items| ensures LinkedAt(items, j) {
        assert Look(j) && Look(j - |was|);
        if j < |was| {
          assert items[j] == was[j];
        } else {
          assert items[j] == chain[j - |was|];
        }
      }
    }

    /** `cjson_insert_item_in_array`: behind the last place it appends, else the links of the node are overwritten. */
    method InsertItem(which: int, newitem: Node, ghost chain: seq<Node>)
      requires Valid() && newitem !in items && (Place(which) >= |items| ==> Appendable(newitem, chain))
      modifies this, items, newitem
      ensures Valid()
      ensures items ==
        if Place(which) < |old(items)| then Inserted(old(items), Place(which), newitem) else old(items) + chain
    {
      var c := Walk(which);
      if c == null {
        AddItem(newitem, chain);
        return;
      }
      ghost var i := Place(which);
      Neighbours(items, i);
      ghost var was := items;
      newitem.next := c;
      newitem.prev := c.prev;
      c.prev := newitem;
      if c == child {
        child := newitem;
      } else {
        newitem.prev.next := newitem;
      }
      items := Inserted(items, i, newitem);
      InsertedDistinct(was, i, newitem);
      SplicedLinked(was, i, newitem);
    }

    /** `cjson_detach_item_from_array`: the node that is taken out points nowhere anymore. */
    method DetachItem(which: int) returns (c: Node?)
      requires Valid()
      modifies this, items
      ensures Valid() && c == At(old(items), Place(which))
      ensures items == if c == null then old(items) else Removed(old(items), Place(which))
      ensures c != null ==> c !in items && c.next == null && c.prev == null
    {
      c := Walk(which);
      if c == null {
        return;
      }
      ghost var i := Place(which);
      Neighbours(items, i);
      if c.prev != null {
        c.prev.next := c.next;
      }
      if c.next != null {
        c.next.prev := c.prev;
      }
      if c == child {
        child := c.next;
      }
      c.prev, c.next := null, null;
      RemovedDistinct(items, i);
      CutLinked(items, i);
      items := Removed(items, i);
    }

    /** `cjson_replace_item_in_array`: nothing happens behind the last place; the old node is unlinked. */
    method ReplaceItem(which: int, newitem: Node)
      requires Valid() && newitem !in items
      modifies this, items, newitem
      ensures Valid()
      ensures items == if Place(which) < |old(items)| then old(items)[Place(which) := newitem] else old(items)
      ensures Place(which) < |old(items)| ==>
        old(items)[Place(which)] !in items && old(items)[Place(which)].next == null &&
          old(items)[Place(which)].prev == null
    {
      var c := Walk(which);
      if c == null {
        return;
      }
      ghost var i := Place(which);
      Swap(c, newitem, i);
      ReplacedDistinct(items, i, newitem);
      SwappedLinked(items, i, newitem);
      items := items[i := newitem];
    }

    /** The links of its replacement. */
    method Swap(c: Node, newitem: Node, ghost i: nat)
      requires Valid() && newitem !in items && i < |items| && c == items[i]
      modifies this`child, items, newitem
      ensures Swapped(items, i, newitem) && c.next == null && c.prev == null
      ensures child == At(items[i := newitem], 0)
    {
      Neighbours(items, i);
      newitem.next := c.next;
      newitem.prev := c.prev;
      if newitem.next != null {
        newitem.next.prev := newitem;
      }
      if c == child {
        child := newitem;
      } else {
        newitem.prev.next := newitem;
      }
      c.next, c.prev := null, null;
    }

    /** `cjson_detach_item_from_object`; `same` is the comparison of names. */
    method DetachNamed(same: (string, string) -> bool, name: string) returns (c: Node?)
      requires Valid()
      modifies this, items
      ensures Valid()
      ensures old(FirstNamed(items, same, name)) == |old(items)| ==> c == null && items == old(items)
      ensures old(FirstNamed(items, same, name)) < |old(items)| ==>
        c == old(items)[old(FirstNamed(items, same, name))] &&
          items == Removed(old(items), old(FirstNamed(items, same, name)))
    {
      var i := 0;
      c := child;
      while c != null && !same(c.name, name)
        invariant 0 <= i <= |items| && c == At(items, i)
        invariant FirstNamed(items, same, name) == i + FirstNamed(items[i..], same, name)
        decreases |items| - i
      {
        assert items[i..][1..] == items[i + 1..];
        assert Look(i);
        i := i + 1;
        c := c.next;
      }
      if c != null {
        c := DetachItem(i);
      }
    }
  }
}
