/** The sorted list of nodes the planner keeps its sets in: what each operation
    does to the list of items, and the linked cells that do it in place. */
module Mapping {
  import opened Grid

  class Node {
    const x: int
    const y: int
    var gScore: real
    var backLink: Node?

    constructor (x: int, y: int, gScore: real)
      ensures this.x == x && this.y == y
      ensures this.gScore == gScore && backLink == null
    {
      this.x, this.y, this.gScore, this.backLink := x, y, gScore, null;
    }

    function At(): Cell {
      Cell(x, y)
    }
  }

  datatype Item = Item(head: Node, sortVal: real)

  // ----- the operations on the list a chain of cells stands for

  function Added(list: seq<Item>, node: Node, v: real): seq<Item> {
    if list == [] then [Item(node, v)]
    else if list[0].sortVal > v then [Item(node, v)] + list
    else [list[0]] + Added(list[1..], node, v)
  }

  function Removed(list: seq<Item>, at: Cell): seq<Item> {
    if list == [] then []
    else if list[0].head.At() == at then list[1..]
    else [list[0]] + Removed(list[1..], at)
  }

  function Found(list: seq<Item>, at: Cell): (n: Node?)
    ensures n == null <==> forall i :: 0 <= i < |list| ==> list[i].head.At() != at
    ensures n != null ==> exists i :: 0 <= i < |list| && list[i].head == n && n.At() == at
                                      && forall j :: 0 <= j < i ==> list[j].head.At() != at
  {
    if list == [] then null
    else if list[0].head.At() == at then list[0].head
    else
      var n := Found(list[1..], at);
      assert forall i :: 1 <= i < |list| ==> list[i] == list[1..][i - 1];
      assert n != null ==> exists i :: 0 <= i < |list[1..]| && list[1..][i].head == n
                                      && forall j :: 0 <= j < i ==> list[1..][j].head.At() != at;
      assert forall i :: 0 <= i < |list[1..]| ==> list[1..][i] == list[i + 1];
      n
  }

  ghost predicate Sorted(list: seq<Item>) {
    forall i, j :: 0 <= i < j < |list| ==> list[i].sortVal <= list[j].sortVal
  }

  ghost predicate OnePerCell(list: seq<Item>) {
    forall i, j :: 0 <= i < j < |list| ==> list[i].head.At() != list[j].head.At()
  }

  /** The item a lookup of each cell finds. */
  ghost function Entries(list: seq<Item>): map<Cell, Item> {
    if list == [] then map[] else Entries(list[1..])[list[0].head.At() := list[0]]
  }

  // ----- laws of the operations

  /** `addNode` puts the new item after the run of items that are not greater. */
  lemma {:induction false} AddedShape(list: seq<Item>, node: Node, v: real) returns (k: nat)
    ensures k <= |list|
    ensures Added(list, node, v) == list[..k] + [Item(node, v)] + list[k..]
    ensures forall i :: 0 <= i < k ==> list[i].sortVal <= v
    ensures k < |list| ==> v < list[k].sortVal
  {
    if list == [] || list[0].sortVal > v {
      k := 0;
    } else {
      var rest := AddedShape(list[1..], node, v);
      k := rest + 1;
      assert list[..k] == [list[0]] + list[1..][..rest];
      assert list[k..] == list[1..][rest..];
      forall i | 0 <= i < k ensures list[i].sortVal <= v {
        assert i == 0 || list[i] == list[1..][i - 1];
      }
    }
  }

  /** `addNode` keeps a sorted list sorted and adds just the new item. */
  lemma AddedSorted(list: seq<Item>, node: Node, v: real)
    requires Sorted(list)
    ensures Sorted(Added(list, node, v))
    ensures multiset(Added(list, node, v)) == multiset(list) + multiset{Item(node, v)}
  {
    hide Added, Sorted;
    var k := AddedShape(list, node, v);
    InsertedSorted(list, node, v, k);
    AddedOne(list, node, v);
  }

  lemma {:induction false} AddedOne(list: seq<Item>, node: Node, v: real)
    ensures multiset(Added(list, node, v)) == multiset(list) + multiset{Item(node, v)}
  {
    if list != [] && list[0].sortVal <= v {
      AddedOne(list[1..], node, v);
      assert list == [list[0]] + list[1..];
    }
  }

  lemma InsertedSorted(list: seq<Item>, node: Node, v: real, k: nat)
    requires Sorted(list) && k <= |list|
    requires forall i :: 0 <= i < k ==> list[i].sortVal <= v
    requires k < |list| ==> v < list[k].sortVal
    ensures Sorted(list[..k] + [Item(node, v)] + list[k..])
  {
  }

  /** `removeNode` takes out the first item at a cell, and nothing else. */
  lemma {:induction false} RemovedShape(list: seq<Item>, at: Cell) returns (k: nat)
    ensures k <= |list|
    ensures forall i :: 0 <= i < k ==> list[i].head.At() != at
    ensures k < |list| ==> list[k].head.At() == at
    ensures Removed(list, at) == if k == |list| then list else list[..k] + list[k + 1..]
  {
    if list == [] || list[0].head.At() == at {
      k := 0;
    } else {
      var rest := RemovedShape(list[1..], at);
      k := rest + 1;
      if k < |list| {
        assert list[..k] == [list[0]] + list[1..][..rest];
        assert list[k + 1..] == list[1..][rest + 1..];
      }
      forall i | 0 <= i < k ensures list[i].head.At() != at {
        assert i == 0 || list[i] == list[1..][i - 1];
      }
    }
  }

  lemma {:induction false} EntriesLookup(list: seq<Item>, i: nat)
    requires OnePerCell(list) && i < |list|
    ensures list[i].head.At() in Entries(list) && Entries(list)[list[i].head.At()] == list[i]
  {
    if i > 0 {
      assert list[i] == list[1..][i - 1];
      EntriesLookup(list[1..], i - 1);
    }
  }

  lemma {:induction false} EntriesFrom(list: seq<Item>, at: Cell) returns (i: nat)
    requires at in Entries(list)
    ensures i < |list| && list[i] == Entries(list)[at] && list[i].head.At() == at
  {
    if list[0].head.At() == at {
      i := 0;
    } else {
      var j := EntriesFrom(list[1..], at);
      i := j + 1;
    }
  }

  lemma {:induction false} FoundIsEntry(list: seq<Item>, at: Cell)
    ensures Found(list, at) == if at in Entries(list) then Entries(list)[at].head else null
  {
    if list != [] && list[0].head.At() != at {
      FoundIsEntry(list[1..], at);
    }
  }

  lemma {:induction false} AddedEntries(list: seq<Item>, node: Node, v: real)
    requires OnePerCell(list) && node.At() !in Entries(list)
    ensures OnePerCell(Added(list, node, v))
    ensures Entries(Added(list, node, v)) == Entries(list)[node.At() := Item(node, v)]
  {
    var k := AddedShape(list, node, v);
    forall i | 0 <= i < |list| ensures list[i].head.At() != node.At() {
      EntriesLookup(list, i);
    }
    AddedEntriesOnly(list, node, v);
  }

  lemma {:induction false} AddedEntriesOnly(list: seq<Item>, node: Node, v: real)
    requires forall i :: 0 <= i < |list| ==> list[i].head.At() != node.At()
    ensures Entries(Added(list, node, v)) == Entries(list)[node.At() := Item(node, v)]
  {
    if list != [] && list[0].sortVal <= v {
      AddedEntriesOnly(list[1..], node, v);
      assert Added(list, node, v)[1..] == Added(list[1..], node, v);
    } else {
      assert Added(list, node, v)[1..] == list;
    }
  }

  lemma {:induction false} RemovedEntries(list: seq<Item>, at: Cell)
    requires OnePerCell(list)
    ensures OnePerCell(Removed(list, at))
    ensures Entries(Removed(list, at)) == Entries(list) - {at}
  {
    var k := RemovedShape(list, at);
    RemovedEntriesOnly(list, at);
  }

  lemma {:induction false} RemovedEntriesOnly(list: seq<Item>, at: Cell)
    requires OnePerCell(list)
    ensures Entries(Removed(list, at)) == Entries(list) - {at}
  {
    if list == [] {
    } else if list[0].head.At() == at {
      if at in Entries(list[1..]) {
        var i := EntriesFrom(list[1..], at);
        assert false;
      }
    } else {
      RemovedEntriesOnly(list[1..], at);
      assert Removed(list, at)[1..] == Removed(list[1..], at);
    }
  }

  lemma RemovedSorted(list: seq<Item>, at: Cell)
    requires Sorted(list)
    ensures Sorted(Removed(list, at))
  {
    var k := RemovedShape(list, at);
  }

  /** Removing a node and adding it with its new sort value is a correct
      decrease-key: the list stays sorted with one item per cell, and only the
      item of that cell changes. */
  lemma DecreaseKey(list: seq<Item>, node: Node, v: real)
    requires Sorted(list) && OnePerCell(list)
    ensures var after := Added(Removed(list, node.At()), node, v);
            && Sorted(after) && OnePerCell(after)
            && Entries(after) == Entries(list)[node.At() := Item(node, v)]
  {
    RemovedSorted(list, node.At());
    RemovedEntries(list, node.At());
    AddedSorted(Removed(list, node.At()), node, v);
    AddedEntries(Removed(list, node.At()), node, v);
  }

  /** What `pop` takes from a sorted list is least, and only its entry goes. */
  lemma PopIsLeast(list: seq<Item>)
    requires list != [] && Sorted(list) && OnePerCell(list)
    ensures Sorted(list[1..]) && OnePerCell(list[1..])
    ensures list[0].head.At() in Entries(list) && Entries(list)[list[0].head.At()] == list[0]
    ensures Entries(list[1..]) == Entries(list) - {list[0].head.At()}
    ensures forall c :: c in Entries(list) ==> list[0].sortVal <= Entries(list)[c].sortVal
  {
    RemovedEntries(list, list[0].head.At());
    forall c | c in Entries(list) ensures list[0].sortVal <= Entries(list)[c].sortVal {
      var i := EntriesFrom(list, c);
    }
  }

  // ----- the linked cells

  /** A cell of a list. A list whose first cell has no head is empty. */
  class ListCell {
    var head: Node?
    var sortVal: real
    var tail: ListCell?
    ghost var items: seq<Item>
    ghost var repr: set<ListCell>
    /** No cell of the list but the first is empty. */
    ghost var tight: bool

    ghost predicate Valid()
      reads this, repr
      decreases repr
      ensures Valid() ==> this in repr
    {
      && this in repr
      && (head == null ==> tail == null && items == [])
      && (head != null && tail == null ==> items == [Item(head, sortVal)])
      && (tail != null ==>
            && tail in repr && tail.repr <= repr && this !in tail.repr
            && tail.Valid()
            && (head != null ==> items == [Item(head, sortVal)] + tail.items)
            && (tight ==> tail.tight && tail.items != []))
    }

    constructor ()
      ensures Valid() && items == [] && tight && fresh(repr)
    {
      head, sortVal, tail := null, 0.0, null;
      items, repr, tight := [], {this}, true;
    }

    /** A new cell that holds what another one does, before the same tail. */
    constructor Like(other: ListCell)
      requires other.Valid() && other.items != []
      ensures Valid() && fresh(this) && repr <= {this} + other.repr && other !in repr
      ensures items == other.items && tight == other.tight
    {
      head, sortVal, tail := other.head, other.sortVal, other.tail;
      items, tight := other.items, other.tight;
      repr := {this} + if other.tail == null then {} else other.tail.repr;
    }

    /** The swap of `addNode`: this cell takes the new node, and a new cell
        behind it takes what this one held. */
    method InsertHere(node: Node, v: real)
      requires Valid() && items != []
      modifies this
      ensures Valid() && fresh(repr - old(repr)) && old(repr) <= repr
      ensures items == [Item(node, v)] + old(items) && tight == old(tight)
    {
      var cell := new ListCell.Like(this);
      head, sortVal, tail := node, v, cell;
      items, repr := [Item(node, v)] + items, repr + {cell};
    }

    method AddNode(node: Node, v: real)
      requires Valid()
      modifies repr
      decreases |items|
      ensures Valid() && fresh(repr - old(repr)) && old(repr) <= repr
      ensures items == Added(old(items), node, v) && tight == old(tight)
    {
      if head == null {
        head, sortVal := node, v;
        items := [Item(node, v)];
      } else if sortVal > v {
        InsertHere(node, v);
      } else {
        if tail == null {
          tail := new ListCell();
        }
        assert items[1..] == tail.items;
        tail.AddNode(node, v);
        items, repr := [items[0]] + tail.items, repr + tail.repr;
      }
    }

    /** The list may be no cell at all, and is when its only cell went. */
    static method RemoveNode(list: ListCell?, node: Node) returns (r: ListCell?)
      requires list != null ==> list.Valid()
      modifies if list == null then {} else list.repr
      decreases if list == null then 0 else |list.items|
      ensures r != null ==> list != null && r.Valid() && r.repr <= old(list.repr) && (old(list.tight) ==> r.tight)
      ensures list != null ==> Items(r) == Removed(old(list.items), node.At())
      ensures r == null <==>
        list == null || (old(list.tail) == null && old(list.head) != null && old(list.items)[0].head.At() == node.At())
    {
      r := list;
      if list == null || list.head == null {
      } else if list.head.At() == node.At() {
        r := list.tail;
      } else {
        if list.tail == null {
          assert list.items[1..] == [];
        } else {
          assert list.items[1..] == list.tail.items;
          var tail := RemoveNode(list.tail, node);
          list.tail := tail;
          list.items := [list.items[0]] + Items(tail);
        }
      }
    }

    static ghost function Items(list: ListCell?): seq<Item>
      reads list
    {
      if list == null then [] else list.items
    }

    static ghost predicate IsList(list: ListCell?)
      reads list, if list == null then {} else list.repr
    {
      list != null ==> list.Valid()
    }

    static function FindNode(list: ListCell?, node: Node): (n: Node?)
      requires IsList(list)
      reads list, if list == null then {} else list.repr
      decreases |Items(list)|
      ensures n == Found(Items(list), node.At())
    {
      if list == null || list.head == null then null
      else if node.At() == list.head.At() then list.head
      else
        assert list.items[1..] == Items(list.tail);
        FindNode(list.tail, node)
    }

    /** The list that remains is never missing: popping the last cell leaves an
        empty one. */
    static method Pop(list: ListCell) returns (node: Node?, rest: ListCell)
      requires list.Valid()
      ensures rest.Valid() && (rest.repr < list.repr || fresh(rest.repr)) && (list.tight ==> rest.tight)
      ensures if list.items == [] then node == null && rest.items == []
              else node == list.items[0].head && rest.items == list.items[1..]
    {
      node := list.head;
      if list.tail == null {
        rest := new ListCell();
      } else {
        rest := list.tail;
      }
    }

    static method Push(list: ListCell, node: Node) returns (r: ListCell)
      requires list.Valid()
      ensures r.Valid() && fresh(r.repr - list.repr)
      ensures r.items == [Item(node, 0.0)] + list.items
    {
      r := new ListCell();
      r.head, r.sortVal, r.tail := node, 0.0, list;
      r.items, r.repr, r.tight := [Item(node, 0.0)] + list.items, {r} + list.repr, false;
    }

    static method EraseList(list: ListCell) returns (r: ListCell)
      requires list.Valid()
      ensures r.Valid() && r.items == [] && (r.repr <= list.repr || fresh(r.repr))
    {
      r := list;
      var curr;
      curr, r := Pop(r);
      while curr != null
        invariant r.Valid() && (r.repr <= list.repr || fresh(r.repr))
        invariant curr == null ==> r.items == []
        decreases curr != null, |r.items|
      {
        curr, r := Pop(r);
      }
    }
  }
}
