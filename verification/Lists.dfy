/** The circular doubly-linked list of list.h: nodes are addresses, and the maps are their fields. */
module Lists {

  datatype Links = Links(next: map<int, int>, prev: map<int, int>)

  function Succ(i: nat, n: nat): nat { if i + 1 < n then i + 1 else 0 }

  /** The list whose head is nodes[0] has the nodes that follow it, in this order. */
  ghost predicate Ring(l: Links, nodes: seq<int>) {
    && 0 < |nodes|
    && (forall i, j | 0 <= i < j < |nodes| :: nodes[i] != nodes[j])
    && (forall i {:trigger nodes[i]} | 0 <= i < |nodes| :: nodes[i] in l.next && nodes[i] in l.prev)
    && (forall i {:trigger Linked(l, nodes, i)} | 0 <= i < |nodes| :: Linked(l, nodes, i))
  }

  ghost predicate Linked(l: Links, nodes: seq<int>, i: nat)
    requires i < |nodes|
  {
    var j := Succ(i, |nodes|);
    nodes[i] in l.next && l.next[nodes[i]] == nodes[j] && nodes[j] in l.prev && l.prev[nodes[j]] == nodes[i]
  }

  /** INIT_LIST_HEAD() */
  function Init(l: Links, head: int): Links { Links(l.next[head := head], l.prev[head := head]) }

  /** list_add_tail() */
  function AddTail(l: Links, node: int, head: int): Links
    requires head in l.prev
  {
    var prev := l.prev[head];
    Links(l.next[prev := node][node := head], l.prev[node := prev][head := node])
  }

  /** list_del() */
  function Del(l: Links, node: int): Links
    requires node in l.next && node in l.prev
  {
    var next, prev := l.next[node], l.prev[node];
    Links(l.next[prev := next], l.prev[next := prev])
  }

  lemma Ends(l: Links, nodes: seq<int>, i: nat)
    requires Ring(l, nodes) && i < |nodes|
    ensures l.next[nodes[i]] == nodes[Succ(i, |nodes|)]
    ensures l.prev[nodes[i]] == nodes[if i == 0 then |nodes| - 1 else i - 1]
  {
    assert Linked(l, nodes, i) && Linked(l, nodes, if i == 0 then |nodes| - 1 else i - 1);
  }

  /** A list is empty exactly if its head points to itself. */
  lemma Empty(l: Links, nodes: seq<int>)
    requires Ring(l, nodes)
    ensures l.next[nodes[0]] == nodes[0] <==> |nodes| == 1
    ensures |nodes| > 1 ==> l.next[nodes[0]] == nodes[1]
  {
    assert Linked(l, nodes, 0);
  }

  /** Adding at the tail extends the list by one node at the end; */
  lemma AddTailRing(l: Links, nodes: seq<int>, node: int)
    requires Ring(l, nodes) && node !in nodes
    ensures Ring(AddTail(l, node, nodes[0]), nodes + [node])
  {
    var l', nodes', n := AddTail(l, node, nodes[0]), nodes + [node], |nodes|;
    Ends(l, nodes, 0);
    forall i {:trigger Linked(l', nodes', i)} | 0 <= i < |nodes'| ensures Linked(l', nodes', i) {
      if i < n - 1 {
        assert Linked(l, nodes, i);
      }
    }
  }

  /** ... deleting removes just that node; */
  lemma DelRing(l: Links, nodes: seq<int>, k: nat)
    requires Ring(l, nodes) && 0 < k < |nodes|
    ensures Ring(Del(l, nodes[k]), nodes[..k] + nodes[k + 1..])
  {
    var l', nodes' := Del(l, nodes[k]), nodes[..k] + nodes[k + 1..];
    forall i {:trigger Linked(l', nodes', i)} | 0 <= i < |nodes'| ensures Linked(l', nodes', i) {
      DelLinked(l, nodes, nodes', k, i);
    }
  }

  lemma DelLinked(l: Links, nodes: seq<int>, nodes': seq<int>, k: nat, i: nat)
    requires Ring(l, nodes) && 0 < k < |nodes| && |nodes'| == |nodes| - 1 && i < |nodes'|
    requires forall j {:trigger nodes'[j]} | 0 <= j < |nodes'| :: nodes'[j] == if j < k then nodes[j] else nodes[j + 1]
    ensures Linked(Del(l, nodes[k]), nodes', i)
  {
    Ends(l, nodes, k);
    if i < k - 1 {
      assert Linked(l, nodes, i);
    } else if i > k - 1 {
      assert Linked(l, nodes, i + 1);
    }
  }

  /** list_add(), and what bio.c does by hand: the node comes first. */
  function AddFirst(l: Links, node: int, head: int): Links
    requires head in l.next
  {
    var next := l.next[head];
    Links(l.next[node := next][head := node], l.prev[node := head][next := node])
  }

  lemma AddFirstRing(l: Links, nodes: seq<int>, node: int)
    requires Ring(l, nodes) && node !in nodes
    ensures Ring(AddFirst(l, node, nodes[0]), [nodes[0], node] + nodes[1..])
  {
    var l', nodes' := AddFirst(l, node, nodes[0]), [nodes[0], node] + nodes[1..];
    forall i {:trigger Linked(l', nodes', i)} | 0 <= i < |nodes'| ensures Linked(l', nodes', i) {
      AddFirstLinked(l, nodes, nodes', node, i);
    }
  }

  lemma AddFirstLinked(l: Links, nodes: seq<int>, nodes': seq<int>, node: int, i: nat)
    requires Ring(l, nodes) && node !in nodes && |nodes'| == |nodes| + 1 && i < |nodes'|
    requires nodes'[0] == nodes[0] && nodes'[1] == node
    requires forall j {:trigger nodes'[j]} | 1 < j < |nodes'| :: nodes'[j] == nodes[j - 1]
    ensures Linked(AddFirst(l, node, nodes[0]), nodes', i)
  {
    Ends(l, nodes, 0);
    if i > 1 {
      assert Linked(l, nodes, i - 1);
    }
  }

  /** ... and neither disturbs another list. */
  lemma Apart(l: Links, nodes: seq<int>, other: seq<int>, node: int)
    requires Ring(l, nodes) && Ring(l, other)
    requires (forall i, j | 0 <= i < |nodes| && 0 <= j < |other| :: nodes[i] != other[j])
    ensures node !in other ==> Ring(AddTail(l, node, nodes[0]), other)
    ensures forall k | 0 < k < |nodes| && nodes[k] == node :: Ring(Del(l, node), other)
  {
    Ends(l, nodes, 0);
    if node !in other {
      Untouched(l, AddTail(l, node, nodes[0]), other);
    }
    forall k | 0 < k < |nodes| && nodes[k] == node ensures Ring(Del(l, node), other) {
      Ends(l, nodes, k);
      Untouched(l, Del(l, node), other);
    }
  }

  lemma Untouched(l: Links, l': Links, other: seq<int>)
    requires Ring(l, other)
    requires forall i {:trigger other[i]} | 0 <= i < |other| ::
      other[i] in l'.next && other[i] in l'.prev && l'.next[other[i]] == l.next[other[i]]
      && l'.prev[other[i]] == l.prev[other[i]]
    ensures Ring(l', other)
  {
    forall i {:trigger Linked(l', other, i)} | 0 <= i < |other| ensures Linked(l', other, i) {
      assert Linked(l, other, i);
    }
  }
}
