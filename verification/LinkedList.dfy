/**
 * The singly-linked list of include/lib/list.h with its two sentinels. The mutex and condition objects
 * queue their waiters on it; timers and the task table model their lists as sequences of nodes, which the
 * pointers are shown to behave like here.
 */
module LinkedList {

  class Node {
    var next: Node?
    var data: nat

    constructor (next: Node?, data: nat)
      ensures this.next == next && this.data == data
    {
      this.next, this.data := next, data;
    }
  }

  ghost predicate Distinct(s: seq<Node>) {
    forall i, j :: 0 <= i < j < |s| ==> s[i] != s[j]
  }

  /** Each node but the last points to its successor; the last points nowhere. */
  ghost predicate Linked(s: seq<Node>)
    reads s
  {
    && (forall i :: 0 <= i < |s| - 1 ==> s[i].next == s[i + 1])
    && (s != [] ==> s[|s| - 1].next == null)
  }

  lemma CutNodes(s: seq<Node>, k: nat)
    requires k + 2 < |s|
    ensures var r := s[..k + 1] + s[k + 2..];
      r[1..|r| - 1] == s[1..|s| - 1][..k] + s[1..|s| - 1][k + 1..]
  {
  }

  lemma CutDistinct(s: seq<Node>, k: nat)
    requires k + 2 < |s| && Distinct(s)
    ensures Distinct(s[..k + 1] + s[k + 2..])
    ensures forall i :: 0 <= i < |s| && i != k ==> s[i] != s[k]
  {
  }

  lemma ExtendDistinct(s: seq<Node>, n: Node)
    requires |s| >= 2 && Distinct(s) && n !in s
    ensures Distinct(s[..|s| - 1] + [n, s[|s| - 1]])
    ensures forall i :: 0 <= i < |s| && i != |s| - 2 ==> s[i] != s[|s| - 2]
  {
  }

  /** The data pointers of a run of nodes. */
  ghost function DataOf(s: seq<Node>): (r: seq<nat>)
    reads s`data
    ensures |r| == |s| && forall i :: 0 <= i < |s| ==> r[i] == s[i].data
  {
    if s == [] then [] else [s[0].data] + DataOf(s[1..])
  }

  lemma DataAppend(s: seq<Node>, n: Node)
    ensures DataOf(s + [n]) == DataOf(s) + [n.data]
  {
    hide DataOf;
  }

  lemma DataCut(s: seq<Node>, k: nat)
    requires k < |s|
    ensures DataOf(s[..k] + s[k + 1..]) == DataOf(s)[..k] + DataOf(s)[k + 1..]
  {
    hide DataOf;
  }

  class List {
    const head: Node
    const tail: Node
    var length: nat
    /** The nodes in order, sentinels included. */
    ghost var spine: seq<Node>

    ghost predicate Valid()
      reads this, spine
    {
      && |spine| == length + 2 && spine[0] == head && spine[length + 1] == tail
      && Distinct(spine) && Linked(spine)
    }

    /** The data nodes in order. */
    ghost function Nodes(): (s: seq<Node>)
      requires Valid()
      reads this, spine
      ensures |s| == length
    {
      spine[1..|spine| - 1]
    }

    ghost function Data(): (d: seq<nat>)
      requires Valid()
      reads this, spine
      ensures |d| == length
    {
      DataOf(Nodes())
    }

    /** `list_create` with successful allocations. */
    constructor ()
      ensures Valid() && fresh(spine) && Nodes() == []
    {
      var t := new Node(null, 0);
      var h := new Node(t, 0);
      head, tail, length := h, t, 0;
      spine := [h, t];
    }

    /** The walk of `list_pushback`. */
    method Last() returns (prev: Node)
      requires Valid()
      ensures prev == spine[length]
    {
      prev := head;
      ghost var i := 0;
      while prev.next != tail
        invariant i <= length && prev == spine[i]
        decreases length - i
      {
        assert spine[i].next == spine[i + 1];
        prev := prev.next;
        i := i + 1;
      }
      assert spine[i].next == spine[i + 1];
    }

    /** `list_pushback`: links a new node behind the last one. */
    method PushBack(data: nat) returns (node: Node)
      requires Valid()
      modifies this`length, this`spine, spine`next
      ensures Valid() && fresh(node) && node.data == data && Nodes() == old(Nodes()) + [node]
      ensures Data() == old(Data()) + [data] && forall n :: n in spine ==> n in old(spine) || n == node
    {
      hide Distinct, Linked, DataOf;
      ghost var s := spine;
      var prev := Last();
      node := new Node(tail, data);
      Link(prev, node);
      assert Nodes() == s[1..|s| - 1] + [node];
      DataAppend(s[1..|s| - 1], node);
    }

    method Link(prev: Node, node: Node)
      requires Valid() && prev == spine[length] && node !in spine && node.next == tail
      modifies this`length, this`spine, prev`next
      ensures Valid() && spine == old(spine[..length + 1]) + [node, tail]
    {
      hide Distinct;
      ghost var s := spine;
      ExtendDistinct(s, node);
      prev.next := node;
      length := length + 1;
      spine := s[..|s| - 1] + [node, tail];
      forall i | 0 <= i < |spine| - 1 ensures spine[i].next == spine[i + 1] {
        assert i < |s| - 2 ==> s[i].next == s[i + 1];
      }
    }

    /** `list_pop`: the data of the first node, which is unlinked; 0 for an empty list. */
    method Pop() returns (data: nat)
      requires Valid()
      modifies this`length, this`spine, head`next
      ensures Valid() && forall n :: n in spine ==> n in old(spine)
      ensures old(Nodes()) == [] ==> data == 0 && Nodes() == []
      ensures old(Nodes()) != [] ==> data == old(Data())[0] && Nodes() == old(Nodes())[1..] && Data() == old(Data())[1..]
    {
      if length == 0 {
        return 0;
      }
      assert spine[0].next == spine[1] && spine[1].next == spine[2];
      var first := head.next;
      head.next := first.next;
      data := first.data;
      length := length - 1;
      spine := [head] + spine[2..];
    }

    /** The search of `list_remove`: the node before the target, or before the tail. */
    method FindBefore(target: Node) returns (prev: Node, ghost k: nat)
      requires Valid()
      ensures k <= length && prev == spine[k] && prev.next == spine[k + 1]
      ensures target in Nodes() || target == tail <==> prev.next == target
      ensures target == tail ==> k == length && tail.next == null
    {
      prev, k := head, 0;
      while prev.next != tail && prev.next != target
        invariant k <= length && prev == spine[k]
        invariant forall j :: 1 <= j <= k ==> spine[j] != target
        decreases length - k
      {
        assert spine[k].next == spine[k + 1];
        prev := prev.next;
        k := k + 1;
      }
      assert spine[k].next == spine[k + 1];
      if k == length { assert prev.next == tail; } else { assert Nodes()[k] == spine[k + 1]; }
    }

    /**
     * `list_remove`: unlinks the target if it is in the list, and nothing else. The tail sentinel is not
     * guarded against: passed as the target of a non-empty list it is unlinked, and the chain loses its end.
     */
    method Remove(target: Node?) returns (data: nat, ghost k: nat)
      requires Valid()
      modifies this`length, this`spine, spine`next
      ensures target != tail || old(length) == 0 ==>
        && Valid() && (forall n :: n in spine ==> n in old(spine))
        && (target !in old(Nodes()) ==> data == 0 && Nodes() == old(Nodes()) && Data() == old(Data()))
        && (target in old(Nodes()) ==>
          && k < |old(Nodes())| && old(Nodes())[k] == target && data == old(Data())[k]
          && Nodes() == old(Nodes())[..k] + old(Nodes())[k + 1..] && Data() == old(Data())[..k] + old(Data())[k + 1..])
      ensures target == tail && old(length) > 0 ==> old(Nodes())[old(length) - 1].next == null && length == old(length) - 1
    {
      hide Distinct, Linked, DataOf;
      if target == null || length == 0 {
        return 0, 0;
      }
      var prev;
      prev, k := FindBefore(target);
      if prev.next != target {
        data := 0;
        return;
      }
      data := target.data;
      if target == tail {
        assert Nodes()[length - 1] == spine[length];
        prev.next := target.next;
        length := length - 1;
        return;
      }
      ghost var s := Nodes();
      assert target == s[k];
      CutNodes(spine, k);
      Unlink(prev, target, k);
      DataCut(s, k);
    }

    method Unlink(prev: Node, target: Node, ghost k: nat)
      requires Valid() && k < length && prev == spine[k] && target == spine[k + 1]
      modifies this`length, this`spine, prev`next
      ensures Valid() && spine == old(spine[..k + 1] + spine[k + 2..])
    {
      hide Distinct;
      ghost var s := spine;
      CutDistinct(s, k);
      assert target.next == s[k + 2];
      prev.next := target.next;
      length := length - 1;
      spine := s[..k + 1] + s[k + 2..];
      forall i | 0 <= i < |spine| - 1 ensures spine[i].next == spine[i + 1] {
        if i > k { assert s[i + 1].next == s[i + 2]; } else { assert i < k ==> s[i].next == s[i + 1]; }
      }
    }

    /** `list_cnext`: the successor on the ring of data nodes. */
    method CNext(node: Node, ghost i: nat) returns (r: Node?)
      requires Valid() && i < length && node == Nodes()[i]
      ensures r == Nodes()[if i + 1 == length then 0 else i + 1]
    {
      assert spine[i + 1].next == spine[i + 2] && spine[0].next == spine[1];
      r := if node.next == tail then head.next else node.next;
    }
  }
}
