/** The intrusive doubly linked list of linkedlist.c.

    Nodes carry their own links and a pointer to the list they are on; callers embed them and
    unlink them by address.  Each method is the body of one critical section.  `freed` marks a
    node that went back to the heap: no method follows a link to, or out of, a freed node. */
module LinkedList {
  import opened Common

  class LLNode<T(==)> {
    var next: LLNode?<T>
    var prev: LLNode?<T>
    var ll: LList?<T>
    var item: T
    ghost var freed: bool

    /** Heap memory comes zeroed. */
    constructor (item: T)
      ensures Unlinked() && this.item == item
    {
      next, prev, ll, this.item, freed := null, null, null, item, false;
    }

    /** What a caller's node must look like before it may be pushed. */
    ghost predicate Unlinked()
      reads this
    {
      ll == null && next == null && prev == null && !freed
    }
  }

  /** The element of `s` removed at index `k`. */
  function RemoveAt<X>(s: seq<X>, k: nat): (r: seq<X>)
    requires k < |s|
    ensures |r| == |s| - 1
    ensures forall i :: 0 <= i < |r| ==> r[i] == if i < k then s[i] else s[i + 1]
  {
    s[..k] + s[k + 1..]
  }

  class LList<T(==)> {
    var front: LLNode?<T>
    var back: LLNode?<T>
    var lCount: int
    /** The linked nodes, front to back. */
    ghost var nodes: seq<LLNode<T>>
    /** The same nodes as a set. */
    ghost var repr: set<LLNode<T>>

    ghost predicate Valid()
      reads this, nodes, repr
    {
      && lCount == |nodes|
      && front == (if |nodes| == 0 then null else nodes[0])
      && back == (if |nodes| == 0 then null else nodes[|nodes| - 1])
      && Linked(nodes)
      && Distinct(nodes)
      && (forall i :: 0 <= i < |nodes| ==> nodes[i] in repr)
      && (forall n :: n in repr ==> n.ll == this && !n.freed)
    }

    ghost predicate Linked(s: seq<LLNode<T>>)
      reads s
    {
      && (|s| > 0 ==> s[0].prev == null && s[|s| - 1].next == null)
      && (forall i {:trigger s[i].prev} :: 1 <= i < |s| ==> s[i].prev == s[i - 1])
      && (forall i {:trigger s[i].next} :: 0 <= i < |s| - 1 ==> s[i].next == s[i + 1])
    }

    /** The links of the nodes that stay, while a node still sits between positions k-1 and k. */
    ghost predicate Around(rest: seq<LLNode<T>>, k: nat, prev: LLNode?<T>, next: LLNode?<T>)
      requires k <= |rest|
      reads rest
    {
      && prev == (if k > 0 then rest[k - 1] else null)
      && next == (if k < |rest| then rest[k] else null)
      && (k > 0 && |rest| > 0 ==> rest[0].prev == null)
      && (k < |rest| ==> rest[|rest| - 1].next == null)
      && (forall j {:trigger rest[j].prev} :: 1 <= j < |rest| && j != k ==> rest[j].prev == rest[j - 1])
      && (forall j {:trigger rest[j].next} :: 0 <= j < |rest| - 1 && j != k - 1 ==> rest[j].next == rest[j + 1])
    }

    /** A node that has been unlinked, and freed if the caller asked for that. */
    static ghost predicate Popped(n: LLNode<T>, destroy: bool)
      reads n
    {
      if destroy then n.freed else n.Unlinked()
    }

    ghost function Items(): (r: seq<T>)
      reads this, nodes`item
      ensures |r| == |nodes| && forall i :: 0 <= i < |r| ==> r[i] == nodes[i].item
    {
      ItemsOf(nodes)
    }

    static ghost function ItemsOf(s: seq<LLNode<T>>): (r: seq<T>)
      reads s`item
      ensures |r| == |s| && forall i :: 0 <= i < |r| ==> r[i] == s[i].item
    {
      if |s| == 0 then [] else ItemsOf(s[..|s| - 1]) + [s[|s| - 1].item]
    }

    constructor ()
      ensures Valid() && nodes == []
    {
      front, back, lCount, nodes, repr := null, null, 0, [], {};
    }

    /** `IocpLLPushBack`; with no node given one is allocated, which fails when the heap is out. */
    method PushBack(item: T, given: LLNode?<T>, heapOk: bool) returns (pnode: LLNode?<T>)
      requires Valid()
      requires given != null ==> given.Unlinked()
      modifies this, repr`next, repr`prev, given
      ensures Valid()
      ensures pnode == null <==> given == null && !heapOk
      ensures given != null ==> pnode == given
      ensures given == null && pnode != null ==> fresh(pnode)
      ensures pnode == null ==> nodes == old(nodes)
      ensures repr <= old(repr) + {pnode}
      ensures pnode != null ==> nodes == old(nodes) + [pnode] && pnode.item == item
    {
      pnode := given;
      if pnode == null {
        if !heapOk {
          return null;
        }
        pnode := new LLNode(item);
      }
      LinkBack(item, pnode);
    }

    /** The links `PushBack` sets, for a node that is in hand. */
    method LinkBack(item: T, pnode: LLNode<T>)
      requires Valid() && pnode.Unlinked()
      modifies this, repr`next, repr`prev, pnode
      ensures Valid() && pnode.item == item
      ensures nodes == old(nodes) + [pnode] && repr == old(repr) + {pnode}
    {
      assert pnode !in repr;
      DistinctAdd(pnode, nodes);
      pnode.item := item;
      if front == null && back == null {
        front := pnode;
        back := pnode;
      } else {
        back.next := pnode;
        var tmp := back;
        back := pnode;
        back.prev := tmp;
      }
      lCount := lCount + 1;
      pnode.ll := this;
      nodes, repr := nodes + [pnode], repr + {pnode};
    }

    /** `IocpLLPushFront`. */
    method PushFront(item: T, given: LLNode?<T>, heapOk: bool) returns (pnode: LLNode?<T>)
      requires Valid()
      requires given != null ==> given.Unlinked()
      modifies this, repr`next, repr`prev, given
      ensures Valid()
      ensures pnode == null <==> given == null && !heapOk
      ensures given != null ==> pnode == given
      ensures given == null && pnode != null ==> fresh(pnode)
      ensures pnode == null ==> nodes == old(nodes)
      ensures repr <= old(repr) + {pnode}
      ensures pnode != null ==> nodes == [pnode] + old(nodes) && pnode.item == item
    {
      pnode := given;
      if pnode == null {
        if !heapOk {
          return null;
        }
        pnode := new LLNode(item);
      }
      LinkFront(item, pnode);
    }

    /** The links `PushFront` sets, for a node that is in hand. */
    method LinkFront(item: T, pnode: LLNode<T>)
      requires Valid() && pnode.Unlinked()
      modifies this, repr`next, repr`prev, pnode
      ensures Valid() && pnode.item == item
      ensures nodes == [pnode] + old(nodes) && repr == old(repr) + {pnode}
    {
      assert pnode !in repr;
      DistinctAdd(pnode, nodes);
      pnode.item := item;
      if front == null && back == null {
        front := pnode;
        back := pnode;
      } else {
        front.prev := pnode;
        var tmp := front;
        front := pnode;
        front.next := tmp;
      }
      lCount := lCount + 1;
      pnode.ll := this;
      nodes, repr := [pnode] + nodes, repr + {pnode};
    }

    /** The four cases of `IocpLLPop`: joins the two neighbours around position `k`. */
    method Relink(prev: LLNode?<T>, next: LLNode?<T>, ghost rest: seq<LLNode<T>>, ghost k: nat)
      requires k <= |rest| && Distinct(rest) && Around(rest, k, prev, next)
      requires k > 0 ==> front == rest[0]
      requires k < |rest| ==> back == rest[|rest| - 1]
      modifies this`front, this`back, rest`next, rest`prev
      ensures Linked(rest)
      ensures front == (if |rest| == 0 then null else rest[0])
      ensures back == (if |rest| == 0 then null else rest[|rest| - 1])
    {
      if k > 0 { DistinctFrom(rest, k - 1); }
      if k < |rest| { DistinctFrom(rest, k); }
      if prev == null && next == null {
        front := null;
        back := null;
      } else if prev == null && next != null {
        next.prev := null;
        front := next;
      } else if prev != null && next == null {
        prev.next := null;
        back := prev;
      } else {
        next.prev := prev;
        prev.next := next;
      }
    }

    /** Frees the node, or blanks it for its owner to push again. */
    static method Retire(node: LLNode<T>, destroy: bool)
      requires !node.freed
      modifies node`next, node`prev, node`ll, node`freed
      ensures Popped(node, destroy)
    {
      if destroy {
        node.freed := true;
      } else {
        node.ll := null;
        node.next := null;
        node.prev := null;
      }
    }

    /** `IocpLLPop` of the node at position `k`: unlinks it, then blanks or frees it. */
    method Unlink(node: LLNode<T>, destroy: bool, ghost k: nat)
      requires Valid() && k < |nodes| && nodes[k] == node
      modifies this, repr`next, repr`prev, node`ll, node`freed
      ensures Valid()
      ensures nodes == RemoveAt(old(nodes), k) && node !in nodes && repr == old(repr) - {node}
      ensures Popped(node, destroy)
    {
      ghost var rest := RemoveAt(nodes, k);
      DistinctRemoveAt(nodes, k);
      Relink(node.prev, node.next, rest, k);
      Retire(node, destroy);
      assert Linked(rest);
      lCount := lCount - 1;
      if lCount <= 0 {
        front := null;
        back := null;
      }
      nodes, repr := rest, repr - {node};
    }

    /** `IocpLLPopFront`.  On an empty list the documented result, none, is modelled. */
    method PopFront(destroy: bool) returns (data: Option<T>)
      requires Valid()
      modifies this, repr`next, repr`prev, repr`ll, repr`freed
      ensures Valid()
      ensures |old(nodes)| == 0 ==> data == None && nodes == []
      ensures |old(nodes)| > 0 ==> data == Some(old(nodes[0].item)) && nodes == old(nodes)[1..]
      ensures |old(nodes)| > 0 ==> if destroy then old(nodes)[0].freed else old(nodes)[0].Unlinked()
    {
      if front == null {
        return None;
      }
      data := Some(front.item);
      Unlink(front, destroy, 0);
    }

    /** `IocpLLPopBack`. */
    method PopBack(destroy: bool) returns (data: Option<T>)
      requires Valid()
      modifies this, repr`next, repr`prev, repr`ll, repr`freed
      ensures Valid()
      ensures |old(nodes)| == 0 ==> data == None && nodes == []
      ensures |old(nodes)| > 0 ==>
                data == Some(old(nodes[|nodes| - 1].item)) && nodes == old(nodes)[..|old(nodes)| - 1]
      ensures |old(nodes)| > 0 ==>
                if destroy then old(nodes)[|old(nodes)| - 1].freed else old(nodes)[|old(nodes)| - 1].Unlinked()
    {
      if back == null {
        return None;
      }
      data := Some(back.item);
      Unlink(back, destroy, |nodes| - 1);
    }

    /** The walk of `PopAllCompare` after its first `done` nodes. */
    ghost predicate Walked(was: seq<LLNode<T>>, items: seq<T>, item: T, destroy: bool, done: int)
      reads this, nodes, repr, was
    {
      && Valid() && 0 <= done <= |was| == |items|
      && nodes == Without(was, items, item, done) + was[done..]
      && (forall i :: 0 <= i < |was| ==> was[i].item == items[i])
      && (forall i :: 0 <= i < done && items[i] == item ==> Popped(was[i], destroy))
    }

    /** Where the walk stands in the list, and what keeping the node there means. */
    lemma WalkedNode(was: seq<LLNode<T>>, items: seq<T>, item: T, destroy: bool, done: int)
      requires Walked(was, items, item, destroy, done) && done < |was|
      ensures was[done].next == if done + 1 < |was| then was[done + 1] else null
      ensures was[done].item == items[done] && was[done] in repr
      ensures items[done] != item ==> Walked(was, items, item, destroy, done + 1)
    {
      ghost var kept := Without(was, items, item, done);
      assert nodes[|kept|] == was[done];
      assert done + 1 < |was| ==> nodes[|kept| + 1] == was[done + 1];
      assert nodes == kept + [was[done]] + was[done + 1..];
    }

    /** Pops the node the walk stands on. */
    method WalkPop(node: LLNode<T>, item: T, destroy: bool,
                   ghost was: seq<LLNode<T>>, ghost items: seq<T>, ghost done: nat)
      requires done < |was| && node == was[done] && Walked(was, items, item, destroy, done)
      requires items[done] == item
      modifies this, repr`next, repr`prev, node`ll, node`freed
      ensures repr <= old(repr)
      ensures Walked(was, items, item, destroy, done + 1)
    {
      ghost var kept := Without(was, items, item, done);
      WithoutPop(was, items, item, done);
      assert forall i :: 0 <= i < done && items[i] == item ==> was[i] !in repr;
      Unlink(node, destroy, |kept|);
    }

    /** `IocpLLPopAllCompare`: walks the list and unlinks every node that holds `item`. */
    method PopAllCompare(item: T, destroy: bool) returns (walked: bool)
      requires Valid()
      modifies this, repr`next, repr`prev, repr`ll, repr`freed
      ensures Valid()
      ensures walked <==> |old(nodes)| > 0
      ensures nodes == Without(old(nodes), old(Items()), item, |old(nodes)|)
      ensures forall i :: 0 <= i < |old(nodes)| && old(Items())[i] == item ==> Popped(old(nodes)[i], destroy)
    {
      if (front == null && back == null) || lCount <= 0 {
        return false;
      }
      walked := true;
      ghost var was, items, done := nodes, Items(), 0;
      var tmp1 := front;
      while tmp1 != null
        invariant repr <= old(repr)
        invariant Walked(was, items, item, destroy, done)
        invariant tmp1 == if done < |was| then was[done] else null
        decreases |was| - done
      {
        WalkedNode(was, items, item, destroy, done);
        var tmp2 := tmp1.next;
        if tmp1.item == item {
          WalkPop(tmp1, item, destroy, was, items, done);
        }
        tmp1 := tmp2;
        done := done + 1;
      }
    }

    method GetCount() returns (c: int)
      requires Valid()
      ensures c == |nodes|
    {
      c := lCount;
    }

    method IsNotEmpty() returns (b: bool)
      requires Valid()
      ensures b <==> nodes != []
    {
      b := lCount != 0;
    }
  }

  function Nth<X>(s: seq<X>, i: int): X
    requires 0 <= i < |s|
  {
    s[i]
  }

  /** No element occurs twice.  Stated over `Nth` so that it is instantiated only where asked. */
  ghost predicate Distinct<X>(s: seq<X>) {
    forall i, j {:trigger Nth(s, i), Nth(s, j)} :: 0 <= i < j < |s| ==> Nth(s, i) != Nth(s, j)
  }

  lemma DistinctFrom<X>(s: seq<X>, k: nat)
    requires Distinct(s) && k < |s|
    ensures forall i :: 0 <= i < |s| && i != k ==> s[i] != s[k]
  {
    forall i | 0 <= i < |s| && i != k ensures s[i] != s[k] {
      assert Nth(s, i) != Nth(s, k);
    }
  }

  lemma DistinctRemoveAt<X>(s: seq<X>, k: nat)
    requires Distinct(s) && k < |s|
    ensures Distinct(RemoveAt(s, k)) && s[k] !in RemoveAt(s, k)
  {
    var r := RemoveAt(s, k);
    forall i, j | 0 <= i < j < |r| ensures Nth(r, i) != Nth(r, j) {
      assert Nth(s, if i < k then i else i + 1) != Nth(s, if j < k then j else j + 1);
    }
    DistinctFrom(s, k);
  }

  lemma DistinctAdd<X>(x: X, s: seq<X>)
    requires Distinct(s) && x !in s
    ensures Distinct([x] + s) && Distinct(s + [x])
  {
    forall i, j | 0 <= i < j <= |s|
      ensures Nth([x] + s, i) != Nth([x] + s, j) && Nth(s + [x], i) != Nth(s + [x], j)
    {
      if i > 0 { assert Nth(s, i - 1) != Nth(s, j - 1); }
      if j < |s| { assert Nth(s, i) != Nth(s, j); }
    }
  }

  /** Those of the first `k` elements of `s` whose item differs from `item`, in order. */
  function Without<X, T(==)>(s: seq<X>, items: seq<T>, item: T, k: nat): (r: seq<X>)
    requires k <= |s| == |items|
  {
    if k == 0 then []
    else Without(s, items, item, k - 1) + if items[k - 1] == item then [] else [s[k - 1]]
  }

  /** What `Without` keeps, position by position: exactly the positions whose item differs, in order. */
  lemma {:induction false} WithoutPositions<X, T>(s: seq<X>, items: seq<T>, item: T, k: nat) returns (at: seq<nat>)
    requires k <= |s| == |items|
    ensures |at| == |Without(s, items, item, k)|
    ensures forall i :: 0 <= i < |at| ==>
              at[i] < k && items[at[i]] != item && Without(s, items, item, k)[i] == s[at[i]]
    ensures forall i, j :: 0 <= i < j < |at| ==> at[i] < at[j]
    ensures forall p {:trigger p in at} :: 0 <= p < k && items[p] != item ==> p in at
  {
    if k == 0 {
      at := [];
    } else {
      at := WithoutPositions(s, items, item, k - 1);
      if items[k - 1] != item {
        at := at + [k - 1];
      }
    }
  }

  lemma WithoutPop<X, T>(s: seq<X>, items: seq<T>, item: T, k: nat)
    requires k < |s| == |items| && items[k] == item
    ensures var kept := Without(s, items, item, k);
            var now := kept + s[k..];
            && Without(s, items, item, k + 1) == kept
            && now[|kept|] == s[k] && RemoveAt(now, |kept|) == kept + s[k + 1..]
  {
  }

  /** `IocpLLPop` as callers use it: a node that is on no list is left alone. */
  method Pop<T(==)>(node: LLNode<T>, destroy: bool) returns (popped: bool)
    requires node.ll != null ==> node.ll.Valid() && node in node.ll.nodes
    requires !node.freed
    modifies node, node.ll, if node.ll == null then {} else node.ll.repr
    ensures popped <==> old(node.ll) != null
    ensures popped ==> old(node.ll).Valid() && node !in old(node.ll).nodes
    ensures popped ==> exists k :: 0 <= k < |old(node.ll.nodes)| && old(node.ll.nodes)[k] == node
                                   && old(node.ll).nodes == RemoveAt(old(node.ll.nodes), k)
    ensures popped ==> if destroy then node.freed else node.Unlinked()
    ensures !popped ==> unchanged(node)
  {
    if node.ll == null {
      return false;
    }
    ghost var k :| 0 <= k < |node.ll.nodes| && node.ll.nodes[k] == node;
    node.ll.Unlink(node, destroy, k);
    return true;
  }
}
