/**
 The intrusive doubly linked ring of `Coroutine/list.h`, which `bio.c` also writes out by hand
 for its LRU list. Nodes are numbered; a `ListHeads` object holds the `prev` and `next` fields
 of all of them. The meaning of a ring is its cycle: the sequence of nodes met when following
 `next` from the head, head first.
 */
module Lists {
  import opened Counting

  /** The node after position `i` of the cycle, and the one before it. */
  ghost function After(cycle: seq<nat>, i: nat): nat
    requires i < |cycle|
  {
    if i + 1 < |cycle| then cycle[i + 1] else cycle[0]
  }

  ghost function Before(cycle: seq<nat>, i: nat): nat
    requires i < |cycle|
  {
    if i > 0 then cycle[i - 1] else cycle[|cycle| - 1]
  }

  ghost predicate Forwards(next: seq<nat>, cycle: seq<nat>)
    requires forall i :: 0 <= i < |cycle| ==> cycle[i] < |next|
  {
    forall i {:trigger next[cycle[i]]} :: 0 <= i < |cycle| ==> next[cycle[i]] == After(cycle, i)
  }

  ghost predicate Backwards(prev: seq<nat>, cycle: seq<nat>)
    requires forall i :: 0 <= i < |cycle| ==> cycle[i] < |prev|
  {
    forall i {:trigger prev[cycle[i]]} :: 0 <= i < |cycle| ==> prev[cycle[i]] == Before(cycle, i)
  }

  /** Following `next` walks `cycle` forwards and `prev` walks it backwards, both closing up. */
  ghost predicate Ring(next: seq<nat>, prev: seq<nat>, cycle: seq<nat>) {
    && |next| == |prev|
    && |cycle| > 0
    && Distinct(cycle)
    && (forall i :: 0 <= i < |cycle| ==> cycle[i] < |next|)
    && Forwards(next, cycle)
    && Backwards(prev, cycle)
  }

  /** Two rings on the same links starting at the same head are the same cycle. */
  lemma {:induction false} RingUnique(next: seq<nat>, prev: seq<nat>, c: seq<nat>, d: seq<nat>, k: nat)
    requires Ring(next, prev, c) && Ring(next, prev, d) && c[0] == d[0]
    requires |c| <= |d|
    requires k <= |c|
    ensures c[..k] == d[..k]
    ensures k == |c| ==> c == d
  {
    if k > 0 {
      RingUnique(next, prev, c, d, k - 1);
      if k > 1 {
        assert c[k - 2] == c[..k - 1][k - 2] == d[..k - 1][k - 2] == d[k - 2];
        assert c[k - 1] == next[c[k - 2]] == d[k - 1];
      }
      assert c[..k] == c[..k - 1] + [c[k - 1]];
      assert d[..k] == d[..k - 1] + [d[k - 1]];
      assert c[k - 1] == d[k - 1];
      assert next[c[k - 1]] == next[d[k - 1]];
    }
  }

  /** The cycle with `node` put in after position `p`. */
  ghost function Inserted(cycle: seq<nat>, p: nat, node: nat): (c: seq<nat>)
    requires p < |cycle|
    ensures |c| == |cycle| + 1
    ensures forall i :: 0 <= i < |c| ==> c[i] == if i <= p then cycle[i] else if i == p + 1 then node else cycle[i - 1]
  {
    cycle[..p + 1] + [node] + cycle[p + 1..]
  }

  /** The cycle without the node at position `p`. */
  ghost function Removed(cycle: seq<nat>, p: nat): (c: seq<nat>)
    requires p < |cycle|
    ensures |c| == |cycle| - 1
    ensures forall i :: 0 <= i < |c| ==> c[i] == if i < p then cycle[i] else cycle[i + 1]
  {
    cycle[..p] + cycle[p + 1..]
  }

  lemma InsertedNext(next: seq<nat>, prev: seq<nat>, cycle: seq<nat>, p: nat, node: nat)
    requires Ring(next, prev, cycle)
    requires p < |cycle| && node < |next| && node !in cycle
    ensures Forwards(next[node := next[cycle[p]]][cycle[p] := node], Inserted(cycle, p, node))
  {
    var c := Inserted(cycle, p, node);
    var n := next[node := next[cycle[p]]][cycle[p] := node];
    forall i | 0 <= i < |c| ensures n[c[i]] == After(c, i) {
      var j := if i <= p then i else i - 1;
      assert cycle[j] != node && (j != p ==> cycle[j] != cycle[p]);
      assert next[cycle[j]] == After(cycle, j);
    }
  }

  lemma InsertedPrev(next: seq<nat>, prev: seq<nat>, cycle: seq<nat>, p: nat, node: nat)
    requires Ring(next, prev, cycle)
    requires p < |cycle| && node < |next| && node !in cycle
    ensures next[cycle[p]] < |next|
    ensures Backwards(prev[node := cycle[p]][next[cycle[p]] := node], Inserted(cycle, p, node))
  {
    var q := if p + 1 < |cycle| then p + 1 else 0;
    assert next[cycle[p]] == cycle[q];
    var c := Inserted(cycle, p, node);
    var v := prev[node := cycle[p]][cycle[q] := node];
    forall i | 0 <= i < |c| ensures v[c[i]] == Before(c, i) {
      var j := if i <= p then i else i - 1;
      assert cycle[j] != node && (j != q ==> cycle[j] != cycle[q]);
      assert prev[cycle[j]] == Before(cycle, j);
    }
  }

  lemma InsertedDistinct(cycle: seq<nat>, p: nat, node: nat)
    requires Distinct(cycle) && p < |cycle| && node !in cycle
    ensures Distinct(Inserted(cycle, p, node))
  {
  }

  lemma RemovedNext(next: seq<nat>, prev: seq<nat>, cycle: seq<nat>, p: nat)
    requires Ring(next, prev, cycle)
    requires 0 < p < |cycle|
    ensures prev[cycle[p]] < |next|
    ensures Forwards(next[prev[cycle[p]] := next[cycle[p]]], Removed(cycle, p))
  {
    var c := Removed(cycle, p);
    assert prev[cycle[p]] == cycle[p - 1];
    assert next[cycle[p]] == After(cycle, p);
    var n := next[cycle[p - 1] := next[cycle[p]]];
    forall i | 0 <= i < |c| ensures n[c[i]] == After(c, i) {
      var j := if i < p then i else i + 1;
      assert j != p - 1 ==> cycle[j] != cycle[p - 1];
      assert next[cycle[j]] == After(cycle, j);
    }
  }

  lemma RemovedPrev(next: seq<nat>, prev: seq<nat>, cycle: seq<nat>, p: nat)
    requires Ring(next, prev, cycle)
    requires 0 < p < |cycle|
    ensures next[cycle[p]] < |next|
    ensures Backwards(prev[next[cycle[p]] := prev[cycle[p]]], Removed(cycle, p))
  {
    var q := if p + 1 < |cycle| then p + 1 else 0;
    assert next[cycle[p]] == cycle[q];
    assert prev[cycle[p]] == Before(cycle, p);
    var c := Removed(cycle, p);
    var v := prev[cycle[q] := prev[cycle[p]]];
    forall i | 0 <= i < |c| ensures v[c[i]] == Before(c, i) {
      var j := if i < p then i else i + 1;
      assert j != q ==> cycle[j] != cycle[q];
      assert prev[cycle[j]] == Before(cycle, j);
    }
  }

  class ListHeads {
    var next: seq<nat>
    var prev: seq<nat>

    /** `n` nodes, each an empty ring of its own. */
    constructor (n: nat)
      ensures |next| == n && |prev| == n
      ensures forall i :: 0 <= i < n ==> Ring(next, prev, [i])
    {
      next := seq(n, i => i);
      prev := seq(n, i => i);
    }

    method InitListHead(list: nat)
      requires list < |next| == |prev|
      modifies this
      ensures next == old(next)[list := list] && prev == old(prev)[list := list]
      ensures Ring(next, prev, [list])
    {
      next := next[list := list];
      prev := prev[list := list];
    }

    /** Insert `node` after the node at position `p` of the ring. */
    method ListAdd(node: nat, head: nat, ghost cycle: seq<nat>, ghost p: nat)
      requires Ring(next, prev, cycle)
      requires p < |cycle| && cycle[p] == head
      requires node < |next| && node !in cycle
      modifies this
      ensures |next| == old(|next|)
      ensures Ring(next, prev, Inserted(cycle, p, node))
      ensures forall m :: 0 <= m < |next| && m !in cycle && m != node ==> next[m] == old(next[m]) && prev[m] == old(prev[m])
    {
      InsertedNext(next, prev, cycle, p, node);
      InsertedPrev(next, prev, cycle, p, node);
      InsertedDistinct(cycle, p, node);
      next := next[node := next[head]];
      prev := prev[node := head];
      prev := prev[next[head] := node];
      next := next[head := node];
    }

    method ListAppend(node: nat, head: nat, ghost cycle: seq<nat>)
      requires Ring(next, prev, cycle)
      requires cycle[0] == head
      requires node < |next| && node !in cycle
      modifies this
      ensures |next| == old(|next|)
      ensures Ring(next, prev, cycle + [node])
      ensures forall m :: 0 <= m < |next| && m !in cycle && m != node ==> next[m] == old(next[m]) && prev[m] == old(prev[m])
    {
      var tail := prev[head];
      ListAdd(node, tail, cycle, |cycle| - 1);
      assert Inserted(cycle, |cycle| - 1, node) == cycle + [node];
    }

    method ListDel(node: nat, ghost cycle: seq<nat>, ghost p: nat)
      requires Ring(next, prev, cycle)
      requires 0 < p < |cycle| && cycle[p] == node
      modifies this
      ensures |next| == old(|next|)
      ensures Ring(next, prev, Removed(cycle, p))
      ensures forall m :: 0 <= m < |next| && m !in cycle ==> next[m] == old(next[m]) && prev[m] == old(prev[m])
    {
      RemovedNext(next, prev, cycle, p);
      RemovedPrev(next, prev, cycle, p);
      next := next[prev[node] := next[node]];
      prev := prev[next[node] := prev[node]];
    }

    method ListEmpty(head: nat, ghost cycle: seq<nat>) returns (empty: bool)
      requires Ring(next, prev, cycle) && cycle[0] == head
      ensures empty <==> cycle == [head]
    {
      empty := prev[head] == head && next[head] == head;
      assert !empty || |cycle| == 1 by {
        if |cycle| > 1 { assert next[cycle[0]] == cycle[1]; }
      }
    }
  }
}
