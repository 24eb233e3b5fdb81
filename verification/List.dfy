/** containers/list.h: the singly linked list that holds the registry's types. */
module List {
  class Node<T> {
    const item: T
    var next: Node?<T>

    constructor (item: T, next: Node?<T>)
      ensures this.item == item && this.next == next
    {
      this.item := item;
      this.next := next;
    }
  }

  class List<T> {
    var head: Node?<T>
    var last: Node?<T>
    ghost var nodes: seq<Node<T>>

    /** The first node is the head, the last one the last, and each links to the next. */
    ghost predicate Valid()
      reads this, nodes
    {
      && (forall i, j :: 0 <= i < j < |nodes| ==> nodes[i] != nodes[j])
      && (nodes == [] ==> head == null && last == null)
      && (nodes != [] ==> head == nodes[0] && last == nodes[|nodes| - 1])
      && forall i :: 0 <= i < |nodes| - 1 ==> nodes[i].next == nodes[i + 1]
    }

    /** Following the links from the head ends after the last node. */
    ghost predicate Terminated()
      reads this, nodes
    {
      nodes != [] ==> nodes[|nodes| - 1].next == null
    }

    constructor ()
      ensures Valid() && Terminated() && nodes == []
    {
      head, last := null, null;
      nodes := [];
    }

    predicate IsEmpty()
      requires Valid()
      reads this, nodes
      ensures IsEmpty() <==> nodes == []
    {
      head == null
    }

    method PushBack(node: Node<T>)
      requires Valid() && node !in nodes
      modifies this, node, last
      ensures Valid() && Terminated() && nodes == old(nodes) + [node]
      ensures forall n :: n in old(nodes)[..if old(nodes) == [] then 0 else |old(nodes)| - 1] ==> n.next == old(n.next)
    {
      if last == null {
        head, last := node, node;
      } else {
        last.next := node;
        last := node;
      }
      node.next := null;
      nodes := nodes + [node];
    }

    /** On an empty list the node keeps whatever link it came with. */
    method PushFront(node: Node<T>)
      requires Valid() && node !in nodes
      modifies this, node
      ensures Valid() && nodes == [node] + old(nodes)
      ensures Terminated() <==> if old(nodes) == [] then old(node.next) == null else old(Terminated())
    {
      if head == null {
        head, last := node, node;
      } else {
        node.next := head;
        head := node;
      }
      nodes := [node] + nodes;
    }

    /** Puts another list's nodes in front; the other list object is left as it was. */
    method PushListFront(another: List<T>)
      requires Valid() && another.Valid() && another != this
      requires forall n :: n in another.nodes ==> n !in nodes
      modifies this, another.last
      ensures Valid() && nodes == another.nodes + old(nodes)
      ensures another.nodes == old(another.nodes)
      ensures Terminated() <==> old(Terminated())
    {
      if another.head == null {
        return;
      }
      ghost var mine, theirs := nodes, another.nodes;
      assert another.last == theirs[|theirs| - 1] && another.last !in mine;
      another.last.next := head;
      assert forall i :: 0 <= i < |mine| ==> mine[i] in mine;
      assert forall i :: 0 <= i < |mine| ==> mine[i] != another.last && mine[i].next == old(mine[i].next);
      assert forall i :: 0 <= i < |theirs| - 1 ==> theirs[i].next == theirs[i + 1];
      head := another.head;
      if last == null {
        last := another.last;
      }
      nodes := theirs + mine;
      forall i | 0 <= i < |nodes| - 1 ensures nodes[i].next == nodes[i + 1] {
        if i >= |theirs| {
          assert nodes[i] == mine[i - |theirs|] && nodes[i + 1] == mine[i + 1 - |theirs|];
        }
      }
    }

    /** Removes the first node; no node means the list was empty. */
    method PopFront() returns (node: Node?<T>)
      requires Valid()
      modifies this
      ensures Valid()
      ensures if old(nodes) == [] then node == null && nodes == []
              else node == old(nodes)[0] && nodes == old(nodes)[1..]
      ensures old(Terminated()) ==> Terminated()
    {
      node := head;
      if head == last {
        head, last := null, null;
        nodes := if nodes == [] then [] else nodes[1..];
        return;
      }
      head := node.next;
      nodes := nodes[1..];
    }

    /** A cursor walks on: from the head, or from the link of the last node visited. */
    method Collect(current: Node?<T>, ghost seen: nat) returns (items: seq<T>)
      requires Valid() && Terminated() && seen <= |nodes|
      requires if seen == 0 then current == null else current == nodes[seen - 1]
      ensures |items| == |nodes| - seen && forall i :: seen <= i < |nodes| ==> items[i - seen] == nodes[i].item
    {
      items := [];
      ghost var at := seen;
      var node := if current != null then current.next else head;
      while node != null
        invariant seen <= at <= |nodes|
        invariant node == if at == |nodes| then null else nodes[at]
        invariant |items| == at - seen && forall i :: seen <= i < at ==> items[i - seen] == nodes[i].item
        decreases |nodes| - at
      {
        items := items + [node.item];
        node := node.next;
        at := at + 1;
      }
    }
  }
}
